# Umbraco management API composer: operation IDs and Swagger rules

This project models the string rules that Umbraco's `ManagementApiComposer` registers
when it sets up Swagger (OpenAPI) generation for the back-office management API, and
proves their properties in Dafny.

- **Operation IDs** (`OperationIds.dfy`). Each controller action gets an operation ID.
  - The ID starts with the HTTP verb, normalised as lower case with the first letter
    upper-cased; a missing verb becomes "Get".
  - An explicit, non-blank route name is used as it is when it already starts with the
    verb in any letter case. Otherwise the verb is put in front of it.
  - Without an explicit name, the relative path is rewritten into the ID. The versioned
    base path goes, each `{placeholder}` becomes `By` + `Placeholder`, and each `-` or `/`
    is dropped with the next character upper-cased. For example,
    `/umbraco/management/api/v1/tracked-reference/{id}` becomes `GetTrackedReferenceById`.
  - With neither a name nor a path, the derivation throws.
- **Swagger setup** (`SwaggerSetup.dfy`). These are the smaller rules next to it:
  - the document-inclusion predicate (the group name must not be blank);
  - the key actions are sorted by;
  - the test that decides which requests get the API exception handler;
  - the Swagger route template, UI route prefix and UI endpoint, all built from the
    back-office path.
- **Supporting modules.** `Strings.dfy` models the .NET and Umbraco string helpers the
  rules call. `ApiExplorer.dfy` models the parts of ASP.NET Core's `ApiDescription` they
  read. `Wrappers.dfy` holds `Option`, which stands for C# null, and `Result`, which
  stands for a thrown exception.

The three regular expressions behind the operation-ID rewrites live in
`OperationIdRegexes`, which is not part of this model. The rewrites follow the
descriptions in the source's comments:
- The version prefix is the shortest leading part of the path that ends in `/v`, one or
  more decimal digits, and `/`. It is removed once.
- A placeholder is `{`, then a name free of braces, then `}`.
- A separator is `-` or `/` followed by any one character.

## Model

| member | source | states |
|---|---|---|
| `OperationIds.NormalizeVerb` | src/Umbraco.Cms.Api.Management/ManagementApiComposer.cs:63 | a null method gives "Get"; otherwise the verb equals the method ignoring case, its first letter is not lower-case and no later letter is upper-case |
| `OperationIds.NormalizeVerbIgnoresCase` | src/Umbraco.Cms.Api.Management/ManagementApiComposer.cs:63 | methods that differ only in letter case get the same verb |
| `OperationIds.NormalizeVerbIdempotent` | src/Umbraco.Cms.Api.Management/ManagementApiComposer.cs:63 | normalising a normalised verb changes nothing |
| `OperationIds.NormalizeVerbExamples` | src/Umbraco.Cms.Api.Management/ManagementApiComposer.cs:63 | "POST" gives "Post", "get" gives "Get", null gives "Get" |
| `OperationIds.ExplicitOperationId` | src/Umbraco.Cms.Api.Management/ManagementApiComposer.cs:69-72 | the ID starts with the verb ignoring case and ends with the name; it equals the name exactly when the name already starts with the verb ignoring case, and is verb + name otherwise |
| `OperationIds.ExplicitOperationIdIdempotent` | src/Umbraco.Cms.Api.Management/ManagementApiComposer.cs:70-72 | using an explicit operation ID as the route name returns it unchanged |
| `OperationIds.StripVersionPrefix` | src/Umbraco.Cms.Api.Management/ManagementApiComposer.cs:84-85 | removes the versioned base path from the relative path; `StripVersionPrefixSpec` states what is cut |
| `OperationIds.EndsInVersionSegmentCorrect` | src/Umbraco.Cms.Api.Management/ManagementApiComposer.cs:83-85 | the backwards scan for "/v" + digits + "/" agrees with the definition "some suffix is a version segment" |
| `OperationIds.VersionPrefixEnd` | src/Umbraco.Cms.Api.Management/ManagementApiComposer.cs:84-85 | the search returns the first end position of a prefix ending in a version segment, or none when no such prefix exists |
| `OperationIds.VersionPrefixEndFinds` | src/Umbraco.Cms.Api.Management/ManagementApiComposer.cs:84-85 | the search returns any position that qualifies when no earlier one does |
| `OperationIds.StripVersionPrefixSpec` | src/Umbraco.Cms.Api.Management/ManagementApiComposer.cs:83-85 | the unprefixed path is a suffix of the path; what is cut is the shortest prefix ending in a version segment; the path is unchanged exactly when no prefix ends in one |
| `OperationIds.StripVersionPrefixOfBase` | src/Umbraco.Cms.Api.Management/ManagementApiComposer.cs:83-85 | a base path with no `v`, then a version segment, then the rest, leaves exactly the rest |
| `OperationIds.StripVersionPrefixExample` | src/Umbraco.Cms.Api.Management/ManagementApiComposer.cs:83 | "/umbraco/management/api/v1/tracked-reference/{id}" becomes "tracked-reference/{id}" |
| `OperationIds.Tokenize` | src/Umbraco.Cms.Api.Management/ManagementApiComposer.cs:88-89 | reads the path left to right into kept characters and `{name}` placeholders; `TokenizeCovers` and `TokenizeUnique` state that the pieces spell the path and are its only well-formed reading |
| `OperationIds.RewritePlaceholders` | src/Umbraco.Cms.Api.Management/ManagementApiComposer.cs:88-89 | turns each placeholder into "By" and its capitalised name and keeps all other text; `RewritePlaceholdersKeepsText` and `RewritePlaceholdersHead` state both halves |
| `OperationIds.ClosingBraceSpec` | src/Umbraco.Cms.Api.Management/ManagementApiComposer.cs:87-89 | the `}` found closes a brace-free placeholder name; when none is found, every later `}` has a brace before it |
| `OperationIds.TokenizeCovers` | src/Umbraco.Cms.Api.Management/ManagementApiComposer.cs:87-89 | the text and placeholder pieces spell the path exactly; names are brace-free, and a `{` stays text only where no placeholder can start |
| `OperationIds.TokenizeUnique` | src/Umbraco.Cms.Api.Management/ManagementApiComposer.cs:87-89 | any well-formed decomposition of a path is the one the scan finds |
| `OperationIds.RewritePlaceholdersKeepsText` | src/Umbraco.Cms.Api.Management/ManagementApiComposer.cs:87-89 | text without `{` passes through the placeholder rewrite unchanged |
| `OperationIds.RewritePlaceholdersHead` | src/Umbraco.Cms.Api.Management/ManagementApiComposer.cs:88-89 | a leading `{name}` becomes "By" + the name with its first letter upper-cased |
| `OperationIds.RewritePlaceholdersExample` | src/Umbraco.Cms.Api.Management/ManagementApiComposer.cs:87 | "tracked-reference/{id}" becomes "tracked-reference/ById" |
| `OperationIds.CamelCase` | src/Umbraco.Cms.Api.Management/ManagementApiComposer.cs:93-94 | the result is never longer than the path; `CamelCaseKeepsWord`, `CamelCaseCapitalizesWord` and `CamelCaseOfWords` state which characters go and which are upper-cased |
| `OperationIds.CamelCaseKeepsWord` | src/Umbraco.Cms.Api.Management/ManagementApiComposer.cs:91-94 | a separator-free stretch passes through camel-casing unchanged |
| `OperationIds.CamelCaseCapitalizesWord` | src/Umbraco.Cms.Api.Management/ManagementApiComposer.cs:91-94 | a separator before a non-empty word is dropped and the word's first letter upper-cased |
| `OperationIds.CamelCaseOfWords` | src/Umbraco.Cms.Api.Management/ManagementApiComposer.cs:91-94 | words joined by single separators come out as the first word followed by the others capitalised |
| `OperationIds.CamelCaseLeavesNoInnerSeparator` | src/Umbraco.Cms.Api.Management/ManagementApiComposer.cs:91-94 | with no two separators adjacent, the result has no separator anywhere but at its very end |
| `OperationIds.CamelCaseExample` | src/Umbraco.Cms.Api.Management/ManagementApiComposer.cs:91-92 | "tracked-reference/ById" becomes "trackedReferenceById" |
| `OperationIds.FormattedPath` | src/Umbraco.Cms.Api.Management/ManagementApiComposer.cs:84-94 | the three rewrites in the source's order: version prefix, placeholders, camel-casing; `FormattedPathExample` follows the worked example through them |
| `OperationIds.OperationId` | src/Umbraco.Cms.Api.Management/ManagementApiComposer.cs:61-98 | the derivation fails exactly when the route name and the relative path are both null or blank; a successful ID starts with the verb ignoring case; a non-blank name gives the explicit-name ID; otherwise the ID is the verb followed by the formatted path with its first letter upper-cased; the failure is the "no relative path" exception whose message ends with the "controller" route value (empty when that value is null), or a missing-key error when the action has no "controller" route value |
| `OperationIds.OperationIdFromPathExample` | src/Umbraco.Cms.Api.Management/ManagementApiComposer.cs:83-97 | GET on "/umbraco/management/api/v1/tracked-reference/{id}" gives "GetTrackedReferenceById" |
| `OperationIds.OperationIdExplicitExample` | src/Umbraco.Cms.Api.Management/ManagementApiComposer.cs:65-72 | GET with the route name "MyCustomRoute" gives "GetMyCustomRoute" |
| `OperationIds.OperationIdPrefixedNameExample` | src/Umbraco.Cms.Api.Management/ManagementApiComposer.cs:70-71 | GET with the route name "getMyCustomRoute" keeps the name as it is |
| `OperationIds.OperationIdBlankNameExample` | src/Umbraco.Cms.Api.Management/ManagementApiComposer.cs:77-81 | a blank route name with no relative path throws "There is no relative path for controller action TrackedReference" |
| `SwaggerSetup.IsDocumentIncluded` | src/Umbraco.Cms.Api.Management/ManagementApiComposer.cs:109 | a description is included exactly when its group name is present and has a non-white-space character |
| `SwaggerSetup.IncludedHasTag` | src/Umbraco.Cms.Api.Management/ManagementApiComposer.cs:109-111 | every included action has a non-empty group name to be tagged with |
| `SwaggerSetup.ActionSortKey` | src/Umbraco.Cms.Api.Management/ManagementApiComposer.cs:114-118 | the key fails exactly when the "action" route value is missing, or when there is no template and no "controller" value; the error names the first missing key in evaluation order; a key starts with the group name and `_` |
| `SwaggerSetup.SortKeyFields` | src/Umbraco.Cms.Api.Management/ManagementApiComposer.cs:116-117 | when no part holds `_`, splitting the key on `_` gives back group, template or controller, action and HTTP method, in that order |
| `SwaggerSetup.IsManagementApiRequest` | src/Umbraco.Cms.Api.Management/ManagementApiComposer.cs:197 | a present request path that starts with officePath + "/management/api/"; a missing path is not a request; `ManagementApiRequestPaths` states which paths qualify |
| `SwaggerSetup.ManagementApiRequestPaths` | src/Umbraco.Cms.Api.Management/ManagementApiComposer.cs:197 | every path that extends officePath + "/management/api/" gets the handler, and every path that gets it has that prefix |
| `SwaggerSetup.OpenApiContractIsManagementApiRequest` | src/Umbraco.Cms.Api.Management/ManagementApiComposer.cs:197 | the OpenAPI contract path (officePath + "/management/api/openapi.json", mapped at line 264) gets the API exception handler |
| `SwaggerSetup.ApiRootIsNotManagementApiRequest` | src/Umbraco.Cms.Api.Management/ManagementApiComposer.cs:197 | officePath + "/management/api" without the trailing slash does not get the handler |
| `SwaggerSetup.SwaggerEndpointIsNotManagementApiRequest` | src/Umbraco.Cms.Api.Management/ManagementApiComposer.cs:240-241 | the Swagger UI's document URL does not get the API exception handler |
| `SwaggerSetup.SwaggerRouteTemplate` | src/Umbraco.Cms.Api.Management/ManagementApiComposer.cs:234-235 | the back-office path without leading `/`, then "/swagger/{documentName}/swagger.json"; `SwaggerRoutesLeadingSlash` and `SwaggerDocumentsUnderUiPrefix` state its shape |
| `SwaggerSetup.SwaggerEndpoint` | src/Umbraco.Cms.Api.Management/ManagementApiComposer.cs:240-241 | the back-office path as it is, then "/swagger/v1/swagger.json"; `SwaggerEndpointIsServed` ties it to the route template |
| `SwaggerSetup.SwaggerUiRoutePrefix` | src/Umbraco.Cms.Api.Management/ManagementApiComposer.cs:243-244 | the back-office path without leading `/`, then "/swagger"; `SwaggerRoutesLeadingSlash` states when it starts with `/` |
| `SwaggerSetup.SwaggerRoutesLeadingSlash` | src/Umbraco.Cms.Api.Management/ManagementApiComposer.cs:234-244 | the route template and the UI prefix start without `/` exactly when the back-office path has a character other than `/` |
| `SwaggerSetup.SwaggerDocumentsUnderUiPrefix` | src/Umbraco.Cms.Api.Management/ManagementApiComposer.cs:234-244 | every document route starts with the UI route prefix followed by `/` |
| `SwaggerSetup.SwaggerEndpointIsServed` | src/Umbraco.Cms.Api.Management/ManagementApiComposer.cs:234-242 | for a back-office path with exactly one leading `/`, the UI's endpoint is `/` followed by the route the "v1" document is served on |
| `Strings.IsNullOrWhiteSpace` | src/Umbraco.Cms.Api.Management/ManagementApiComposer.cs:67 | `string.IsNullOrWhiteSpace`: null, or every character is in the Unicode White_Space set; `SwaggerSetup.IsDocumentIncluded` states its negation as an existential |
| `Strings.StartsWithIgnoreCase` | src/Umbraco.Cms.Api.Management/ManagementApiComposer.cs:70 | `InvariantStartsWith`: the prefix fits and matches character by character ignoring ASCII letter case; `StartsWithIgnoreCaseAppend` and `StartsWithIsIgnoreCase` state its properties |
| `Strings.ToFirstUpper` | src/Umbraco.Cms.Api.Management/ManagementApiComposer.cs:97 | the first character upper-cased and the rest kept, as line 97 and line 89 use it; `RewritePlaceholdersHead` and `OperationIds.OperationId` build on it |
| `Strings.TrimStart` | src/Umbraco.Cms.Api.Management/ManagementApiComposer.cs:235 | the result is a suffix of the input; everything cut is the trimmed character, and the result does not start with it |
| `Strings.TrimStartEmpty` | src/Umbraco.Cms.Api.Management/ManagementApiComposer.cs:244 | trimming leaves nothing exactly when the string holds only the trimmed character |

## Left out

- Case mapping covers ASCII letters only. The source's `ToLower()` (line 63) and
  `ToUpper()` (line 94) use the current culture. `InvariantStartsWith` (line 70) uses
  invariant-culture case folding. Other letters map to themselves in this model.
- The regular expressions in `OperationIdRegexes` are not part of this model. The
  rewrites follow the source's comments, as listed above.
- `StripVersionPrefixSpec`: removes one leading versioned prefix only. The version-prefix
  regex comes from `OperationIdRegexes`, which this model does not cover. If that regex
  matched again later in the path, `Regex.Replace` would strip that part too.
- `CamelCaseLeavesNoInnerSeparator`: assumes no two separators are adjacent. A separator
  followed by another separator consumes it and upper-cases it, which leaves it in place
  (for example, "a-/b" becomes "a/b").
- `ActionSortKey`: the "controller" and "action" route values are looked up by exact key.
  ASP.NET Core's route-value dictionary compares keys ignoring case.
- `OperationIds.OperationId`: the "controller" route value in the exception message is
  looked up by exact key, for the same reason.
- `SwaggerSetup.IsManagementApiRequest` is modelled as an ordinal prefix test. The source
  calls `string.StartsWith(string)`, which compares by culture.
- Service registration and framework wiring (lines 45-57, 161-179), `OpenApiInfo`, the
  OAuth security definition and requirement, and the document and schema filters are
  left out. They are configuration calls into library code with no behaviour of their own.
  `SchemaIdGenerator`, `MimeTypeDocumentFilter` and `EnumSchemaFilter` are not part of
  this model.
- The exception handler's body, `UseSwagger`/`UseSwaggerUI`, the OAuth client settings,
  `MapControllers`, and serving the embedded `OpenApi.json` are HTTP pipeline and I/O.
  They are left out. Only the paths they use are modelled.
- The Swagger UI endpoint's display name (`ApiTitle` and `ApiVersion.ToString()`, line
  242) is left out. `ApiVersion` formatting is library code.
- `GetBackOfficePath` and `IsProduction` read configuration and the hosting environment.
  The back-office path is a parameter here, and the production check is not modelled.
- `PackageInstallController.cs` (file checks, remote fetch, zip import),
  `DictionaryDto.cs` (a database row mapping with no logic) and
  `ApiContentNameProvider.cs` (returns the content's name) are not part of this model.
