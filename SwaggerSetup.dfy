/**
 * The smaller rules the management API composer registers beside the operation IDs:
 * which API descriptions go into the Swagger document, the key actions are sorted by,
 * which requests get the API exception handler, and the Swagger routes.
 *
 * The back-office path (`officePath`) comes from configuration and the hosting
 * environment; here it is a parameter.
 */
module SwaggerSetup {
  import opened Wrappers
  import opened Strings
  import opened ApiExplorer

  const ApiDefaultDocumentName := "v1"

  // ---------------------------------------------------------------------------
  // Document inclusion
  // ---------------------------------------------------------------------------

  /** An API description is in the Swagger document exactly when its group name is not blank. */
  function IsDocumentIncluded(api: ApiDescription): (included: bool)
    ensures included <==>
      api.groupName.Some? && exists i :: 0 <= i < |api.groupName.value| && !IsWhiteSpace(api.groupName.value[i])
  {
    !IsNullOrWhiteSpace(api.groupName)
  }

  /** Actions are tagged by group name, so every included action has a non-empty tag. */
  lemma IncludedHasTag(api: ApiDescription)
    requires IsDocumentIncluded(api)
    ensures api.groupName.Some? && |api.groupName.value| > 0
  {
  }

  // ---------------------------------------------------------------------------
  // Sort key
  // ---------------------------------------------------------------------------

  /** `group_(template ?? controller)_action_method`; the route-value lookups throw on a missing key. */
  function ActionSortKey(api: ApiDescription): (key: Result<string, Failure>)
    ensures key.Failure? <==>
      (RouteTemplate(api).None? && "controller" !in api.routeValues) || "action" !in api.routeValues
    ensures key.Failure? && RouteTemplate(api).None? && "controller" !in api.routeValues ==>
      key.error == KeyNotFound("controller")
    ensures key.Failure? && (RouteTemplate(api).Some? || "controller" in api.routeValues) ==>
      key.error == KeyNotFound("action")
    ensures key.Success? ==> StartsWith(key.value, Interpolated(api.groupName) + "_")
  {
    var route := match RouteTemplate(api)
      case Some(template) => Success(Some(template))
      case None => RouteValue(api, "controller");
    match route
    case Failure(e) => Failure(e)
    case Success(routePart) =>
      match RouteValue(api, "action")
      case Failure(e) => Failure(e)
      case Success(action) =>
        var group := Interpolated(api.groupName);
        var rest := Interpolated(routePart) + "_" + Interpolated(action) + "_" + Interpolated(api.httpMethod);
        assert (group + "_" + rest)[..|group + "_"|] == group + "_";
        Success(group + "_" + rest)
  }

  /** The route part of the sort key: the attribute-route template, or else the controller name. */
  function SortRoute(api: ApiDescription): string
    requires RouteTemplate(api).Some? || "controller" in api.routeValues
  {
    match RouteTemplate(api)
    case Some(template) => template
    case None => Interpolated(api.routeValues["controller"])
  }

  /** The pieces of `s` between occurrences of `sep`. */
  function SplitOn(s: string, sep: char): (parts: seq<string>)
    ensures |parts| >= 1
  {
    if s == [] then [[]]
    else
      var rest := SplitOn(s[1..], sep);
      if s[0] == sep then [[]] + rest else [[s[0]] + rest[0]] + rest[1..]
  }

  /** Splitting after a piece free of `sep` yields that piece, then the split of the rest. */
  lemma {:induction false} SplitOnPiece(piece: string, sep: char, rest: string)
    requires forall i :: 0 <= i < |piece| ==> piece[i] != sep
    ensures SplitOn(piece + [sep] + rest, sep) == [piece] + SplitOn(rest, sep)
    decreases |piece|
  {
    var s := piece + [sep] + rest;
    if piece == [] {
      assert s[0] == sep && s[1..] == rest;
    } else {
      assert s[0] == piece[0] && s[1..] == piece[1..] + [sep] + rest;
      SplitOnPiece(piece[1..], sep, rest);
      assert [piece[0]] + piece[1..] == piece;
    }
  }

  lemma {:induction false} SplitOnFree(piece: string, sep: char)
    requires forall i :: 0 <= i < |piece| ==> piece[i] != sep
    ensures SplitOn(piece, sep) == [piece]
    decreases |piece|
  {
    if piece != [] {
      SplitOnFree(piece[1..], sep);
      assert [piece[0]] + piece[1..] == piece;
    }
  }

  predicate NoUnderscore(s: string) {
    forall i :: 0 <= i < |s| ==> s[i] != '_'
  }

  /**
   * When none of its parts holds an underscore, the sort key can be split back into
   * group name, route, action name and HTTP method, in that order.
   */
  lemma SortKeyFields(api: ApiDescription)
    requires ActionSortKey(api).Success?
    requires NoUnderscore(Interpolated(api.groupName))
    requires NoUnderscore(SortRoute(api))
    requires NoUnderscore(Interpolated(api.routeValues["action"]))
    requires NoUnderscore(Interpolated(api.httpMethod))
    ensures SplitOn(ActionSortKey(api).value, '_') ==
      [Interpolated(api.groupName), SortRoute(api), Interpolated(api.routeValues["action"]), Interpolated(api.httpMethod)]
  {
    var g, r, a, m := Interpolated(api.groupName), SortRoute(api), Interpolated(api.routeValues["action"]), Interpolated(api.httpMethod);
    assert ActionSortKey(api).value == g + "_" + (r + "_" + (a + "_" + m));
    SplitOnFree(m, '_');
    SplitOnPiece(a, '_', m);
    SplitOnPiece(r, '_', a + "_" + m);
    SplitOnPiece(g, '_', r + "_" + (a + "_" + m));
  }

  // ---------------------------------------------------------------------------
  // The API exception handler
  // ---------------------------------------------------------------------------

  /** The path prefix of every management API request. */
  function ManagementApiPrefix(officePath: string): string {
    officePath + "/management/api/"
  }

  /** The exception handler applies when the request path is present and starts with the management API prefix. */
  predicate IsManagementApiRequest(requestPath: Option<string>, officePath: string) {
    requestPath.Some? && StartsWith(requestPath.value, ManagementApiPrefix(officePath))
  }

  /** Exactly the paths that extend the prefix are management API requests. */
  lemma ManagementApiRequestPaths(officePath: string, rest: string, requestPath: Option<string>)
    ensures IsManagementApiRequest(Some(ManagementApiPrefix(officePath) + rest), officePath)
    ensures IsManagementApiRequest(requestPath, officePath) ==>
      requestPath.value == ManagementApiPrefix(officePath) + requestPath.value[|ManagementApiPrefix(officePath)|..]
  {
    var prefix := ManagementApiPrefix(officePath);
    assert (prefix + rest)[..|prefix|] == prefix;
    if IsManagementApiRequest(requestPath, officePath) {
      var p := requestPath.value;
      assert p == p[..|prefix|] + p[|prefix|..];
    }
  }

  /** The path that serves the OpenAPI contract. */
  function OpenApiContractPath(officePath: string): string {
    officePath + "/management/api/openapi.json"
  }

  /** The contract is served under the management API prefix, so the exception handler covers it. */
  lemma OpenApiContractIsManagementApiRequest(officePath: string)
    ensures IsManagementApiRequest(Some(OpenApiContractPath(officePath)), officePath)
  {
    assert OpenApiContractPath(officePath) == ManagementApiPrefix(officePath) + "openapi.json";
    ManagementApiRequestPaths(officePath, "openapi.json", None);
  }

  /** The API root without its trailing slash is not an API request. */
  lemma ApiRootIsNotManagementApiRequest(officePath: string)
    ensures !IsManagementApiRequest(Some(officePath + "/management/api"), officePath)
  {
  }

  // ---------------------------------------------------------------------------
  // Swagger routes
  // ---------------------------------------------------------------------------

  /** The route Swagger serves a document on: the back-office path without its leading slashes. */
  function SwaggerDocumentRoute(officePath: string, documentName: string): string {
    TrimStart(officePath, '/') + "/swagger/" + documentName + "/swagger.json"
  }

  /** `SwaggerOptions.RouteTemplate`. */
  function SwaggerRouteTemplate(officePath: string): string {
    SwaggerDocumentRoute(officePath, "{documentName}")
  }

  /** `SwaggerUIOptions.RoutePrefix`. */
  function SwaggerUiRoutePrefix(officePath: string): string {
    TrimStart(officePath, '/') + "/swagger"
  }

  /** The document URL the Swagger UI is pointed at. */
  function SwaggerEndpoint(officePath: string): string {
    officePath + "/swagger/" + ApiDefaultDocumentName + "/swagger.json"
  }

  /**
   * The route template and the UI prefix start without a slash exactly when the
   * back-office path has a character other than `/`; otherwise both start with "/swagger".
   */
  lemma SwaggerRoutesLeadingSlash(officePath: string)
    ensures (SwaggerRouteTemplate(officePath)[0] != '/') <==> exists i :: 0 <= i < |officePath| && officePath[i] != '/'
    ensures (SwaggerUiRoutePrefix(officePath)[0] != '/') <==> exists i :: 0 <= i < |officePath| && officePath[i] != '/'
  {
    var trimmed := TrimStart(officePath, '/');
    TrimStartEmpty(officePath, '/');
    if trimmed != [] {
      assert SwaggerRouteTemplate(officePath)[0] == trimmed[0];
      assert SwaggerUiRoutePrefix(officePath)[0] == trimmed[0];
    } else {
      assert SwaggerRouteTemplate(officePath)[0] == '/';
      assert SwaggerUiRoutePrefix(officePath)[0] == '/';
    }
  }

  /** The documents are served under the UI's route prefix. */
  lemma SwaggerDocumentsUnderUiPrefix(officePath: string, documentName: string)
    ensures StartsWith(SwaggerDocumentRoute(officePath, documentName), SwaggerUiRoutePrefix(officePath) + "/")
  {
    DocumentRouteUnderPrefix(TrimStart(officePath, '/'), documentName);
  }

  lemma DocumentRouteUnderPrefix(trimmed: string, documentName: string)
    ensures StartsWith(trimmed + "/swagger/" + documentName + "/swagger.json", trimmed + "/swagger" + "/")
  {
    var prefix := trimmed + "/swagger" + "/";
    var rest := documentName + "/swagger.json";
    assert trimmed + "/swagger/" + documentName + "/swagger.json" == prefix + rest;
    assert (prefix + rest)[..|prefix|] == prefix;
  }

  /**
   * For a back-office path with one leading slash (the usual "/umbraco"), the UI's
   * endpoint is the route the default document is served on.
   */
  lemma SwaggerEndpointIsServed(officePath: string)
    requires |officePath| >= 1 && officePath[0] == '/' && (|officePath| == 1 || officePath[1] != '/')
    ensures SwaggerEndpoint(officePath) == "/" + SwaggerDocumentRoute(officePath, ApiDefaultDocumentName)
  {
    assert TrimStart(officePath, '/') == officePath[1..];
    assert officePath == "/" + officePath[1..];
  }

  /** Swagger's own document route is not a management API request. */
  lemma SwaggerEndpointIsNotManagementApiRequest(officePath: string)
    ensures !IsManagementApiRequest(Some(SwaggerEndpoint(officePath)), officePath)
  {
    var endpoint := SwaggerEndpoint(officePath);
    var prefix := ManagementApiPrefix(officePath);
    if |prefix| <= |endpoint| {
      assert endpoint[|officePath| + 1] == 's';
      assert prefix[|officePath| + 1] == 'm';
      assert endpoint[..|prefix|][|officePath| + 1] != prefix[|officePath| + 1];
    }
  }
}
