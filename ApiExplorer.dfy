/**
 * The parts of ASP.NET Core's API-explorer description of one controller action
 * that the management API composer reads.
 */
module ApiExplorer {
  import opened Wrappers

  /** `AttributeRouteInfo`: the `Name` and `Template` given in an `[HttpGet(...)]`-style attribute. */
  datatype AttributeRouteInfo = AttributeRouteInfo(name: Option<string>, template: Option<string>)

  /**
   * `ApiDescription` together with the parts of its `ActionDescriptor` in use:
   * the attribute-route information (absent for conventionally routed actions)
   * and the route values ("controller", "action", ...), whose values may be null.
   */
  datatype ApiDescription = ApiDescription(
    httpMethod: Option<string>,
    relativePath: Option<string>,
    groupName: Option<string>,
    attributeRouteInfo: Option<AttributeRouteInfo>,
    routeValues: map<string, Option<string>>)

  /** The exceptions the composer's lambdas can throw. */
  datatype Failure =
    | NoRelativePath(message: string)  // the `Exception` thrown for an action without a relative path
    | KeyNotFound(key: string)         // the route-value indexer asked for a key that is not there

  /** `ActionDescriptor.AttributeRouteInfo?.Name` */
  function RouteName(api: ApiDescription): Option<string> {
    match api.attributeRouteInfo
    case None => None
    case Some(info) => info.name
  }

  /** `ActionDescriptor.AttributeRouteInfo?.Template` */
  function RouteTemplate(api: ApiDescription): Option<string> {
    match api.attributeRouteInfo
    case None => None
    case Some(info) => info.template
  }

  /** `ActionDescriptor.RouteValues[key]`: throws when the key is missing. */
  function RouteValue(api: ApiDescription, key: string): Result<Option<string>, Failure> {
    if key in api.routeValues then Success(api.routeValues[key]) else Failure(KeyNotFound(key))
  }

  /** How string interpolation renders a nullable string: null becomes empty. */
  function Interpolated(s: Option<string>): string {
    match s
    case None => ""
    case Some(t) => t
  }
}
