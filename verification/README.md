# Fusefy agentic API — a Dafny model of its core

The Fusefy agentic API is a FastAPI service. It puts an LLM agent in front of
the Fusefy REST API and carries the caller's JWT through every step:

- the HTTP routes verify the JWT against a secret kept in AWS Secrets Manager;
- they append the token to the agent's query as an `[AUTH_TOKEN: …]` marker;
- the agent's tool executor refuses calls that carry no token;
- the Fusefy REST calls go through one adapter, `FusefyAPITools.call_fusefy_api`.
  It builds the upstream request, with the JWT under the header key `token`,
  and turns the reply into a result envelope. The two documentation tools,
  `get_api_documentation` and `list_available_endpoints`, open their own
  session and do not use it.

This project models that core in Dafny and proves what it promises:

| file | module | models |
|---|---|---|
| `basics.dfy` | `Basics` | optional values, results, decoded JSON, Python truthiness, `dict.get` on decoded objects |
| `text.dfy` | `Text` | `str.strip`/`lstrip`/`rstrip`, `rstrip('/')`, `startswith`, ASCII `upper`, `str(int)` |
| `adapter.dfy` | `FusefyApi` | `call_fusefy_api`: path, headers, request, envelope |
| `catalog.dfy` | `EndpointCatalog` | `get_api_documentation` and the loops of `list_available_endpoints` |
| `agent.dfy` | `Agent` | `extract_token_from_message` (the regex search and substitution) and `execute_fusefy_tool` |
| `validators.dfy` | `Validators` | the pydantic validator bodies |
| `config.dfy` | `Config` | the constants, `SessionManager`, `get_jwt_secret` and its `lru_cache` |
| `router.dfy` | `Router` | token injection, `verify_jwt_token` and the response shaping of four routes |

Pure Python code is modelled as functions. Code that updates state in place
is modelled imperatively:

- `SessionManager` is a class. So are the secret cache and the tool-argument
  dict.
- The loops of `list_available_endpoints` are methods. Each one is proved
  equal to a functional specification, and the catalog's properties are
  lemmas about that specification.

Some things are parameters of the model, because the model cannot see them:

- the HTTP exchange;
- `json.loads`;
- the secrets store;
- PyJWT's `decode`;
- the agent runtime.

Three facts about the code shape the model:

- No code retries. `MAX_RETRIES`, `RETRY_DELAY` and `JWT_SECRET_CACHE_TTL`
  are never read, and the `lru_cache` never expires.
- The agent declares `manage_*` tools that have no matching methods on
  `FusefyAPITools`, so `execute_fusefy_tool` answers "not found" for them.
- The executor calls a tool only when its arguments hold a truthy `token`,
  and passes every argument as a keyword. The two documentation methods take
  no parameters, and neither does `mro`, which `hasattr` finds on every class.
  Through `execute_fusefy_tool` these always raise a `TypeError` and end in
  "Tool execution error" (Agent.KeywordlessToolsNeverRun).

## Model

| member | source | states |
|---|---|---|
| Basics.Get | api-v1/config.py:60 | `d.get(k)` on a decoded object: a value is found iff the key occurs, and it is the value of the last occurrence, as `json.loads` keeps duplicates |
| Text.LStrip | api-v1/agent/agent.py:22 | `lstrip()` removes exactly the leading whitespace run. The result is a suffix of the input, and it is empty or starts with a non-space |
| Text.RStrip | api-v1/agent/agent.py:23 | `rstrip()` removes exactly the trailing whitespace run. The result is a prefix of the input, and it is empty or ends with a non-space |
| Text.Strip | api-v1/agent/agent.py:22-23 | `strip()` is no longer than its input, neither starts nor ends with whitespace, and is empty exactly when the input is all whitespace |
| Text.TrimTrailing | api-v1/tools_config.py:40 | `rstrip('/')` keeps a prefix, and everything it removes is `/`. The prefix is empty or does not end in `/` |
| Text.StripKeepsOut | api-v1/agent/agent.py:22 | `strip()` only removes characters, so a character absent from the input is absent from the result |
| Text.StripDropsLeadingSpace | api-v1/agent/agent.py:22 | removing part of the leading whitespace first does not change what `strip()` returns |
| Text.LStripOfSpacesThenText | api-v1/agent/agent.py:22 | leading whitespace in front of a string does not change its `lstrip()` |
| Text.RStripOfTextThenSpaces | api-v1/agent/agent.py:23 | trailing whitespace after a string does not change its `rstrip()` |
| Text.LStripAppend | api-v1/agent/agent.py:22-23 | `lstrip()` of `t + w`, with `w` all whitespace, is `lstrip(t) + w`, or empty when `t` is all whitespace |
| Text.StripIgnoresSurroundingSpace | api-v1/agent/agent.py:22-23 | `strip()` of `w1 + t + w2`, with `w1` and `w2` all whitespace, equals `strip()` of `t` |
| Text.Upper | api-v1/tools_config.py:59 | `upper()` keeps the length and maps each character to its upper case (ASCII letters) |
| Text.NatToString | api-v1/tools_config.py:83 | `str(n)` for `n >= 0` is a non-empty string of digits whose decimal value is `n`. It starts with `0` only when it is `"0"` |
| Text.IntToString | api-v1/tools_config.py:83 | `str(n)` starts with `-` exactly for negative `n`, and every other character is a digit. The digits spell `n`, or `-n` after the sign. A non-negative `n` starts with a digit, which is `0` only for `"0"`; after a minus sign the first digit is never `0` |
| Text.IntToStringInjective | api-v1/tools_config.py:83 | different status codes give different texts |
| FusefyApi.NormalizeEndpoint | api-v1/tools_config.py:34-35 | the path starts with `/`. A path that already did is unchanged; otherwise `/` is put in front |
| FusefyApi.ResourcePath | api-v1/tools_config.py:38-41 | for GET/PUT/DELETE (case-sensitive) with a non-empty id, the path is the endpoint without any trailing `/`, followed by `/<id>`. Otherwise the endpoint is unchanged |
| FusefyApi.RequestPath | api-v1/tools_config.py:34-41 | the requested and echoed path always starts with `/`. Without an item operation it is the normalised endpoint |
| FusefyApi.Headers | api-v1/tools_config.py:46-53 | `Content-Type` and `Accept` are `application/json`. A `token` header equal to the token exists iff the token is non-empty. There is never an `Authorization` header |
| FusefyApi.BuildRequest | api-v1/tools_config.py:43-63 | the URL is the base URL followed by the request path. The verb is upper-cased. Body, query parameters and headers are passed through |
| FusefyApi.CallFusefyApi | api-v1/tools_config.py:14-94 | `success` iff the status is 2xx. `error` is present iff the status is >= 400: the fixed text for 401, otherwise `API error: <status>`. An empty body gives `{}`; a body that does not decode is kept under `raw_response`. Any exception gives status 500 with its message. The envelope always echoes the final path and the verb as given |
| EndpointCatalog.GetApiDocumentation | api-v1/tools_config.py:97-106 | the document iff the status is 200 and the body decodes. Otherwise `Failed to fetch API docs: <status>`, or `Error fetching API documentation: <message>` for any exception; it never raises |
| EndpointCatalog.FirstOperationIndex | api-v1/tools_config.py:125-130 | the index of the first get/post/put/delete entry of a path item, or none when there is none |
| EndpointCatalog.CategoryOf | api-v1/tools_config.py:123-130 | the category is "general" or the first tag of one of the item's get/post/put/delete entries |
| EndpointCatalog.CategoryWithoutOperations | api-v1/tools_config.py:124 | a path item with no operation is put in category `general` |
| EndpointCatalog.CategoryIgnoresLaterEntries | api-v1/tools_config.py:125-130 | the category depends only on the entries up to the first operation: anything after it is never read |
| EndpointCatalog.Operations | api-v1/tools_config.py:140-150 | at most one operation per entry, and none exactly when the item has no get/post/put/delete entry |
| EndpointCatalog.OperationsOfItem | api-v1/tools_config.py:140-150 | every verb is GET/POST/PUT/DELETE. Every operation entry's record appears among them: verb upper-cased, `requires_auth` iff `security` is non-empty, `requires_body` iff `requestBody` is truthy |
| EndpointCatalog.ScanCategory | api-v1/tools_config.py:124-130 | the first inner loop computes the category specification: the first tag of the first operation entry, else `general` |
| EndpointCatalog.CollectOperations | api-v1/tools_config.py:140-150 | the second inner loop builds exactly the specified operation list, in document order |
| EndpointCatalog.OperationVerbsUnique | api-v1/tools_config.py:140-150 | when a path item is a dict, no verb appears twice among its operations |
| EndpointCatalog.VerbsAvoidAbsentKey | api-v1/tools_config.py:140-150 | an operation key that is not an entry of the item gives none of its verbs |
| EndpointCatalog.GroupPaths | api-v1/tools_config.py:122-153 | the outer loop over `paths.items()` builds exactly the specified grouping: each iteration adds its path's category when new and appends the endpoint when it lists an operation |
| EndpointCatalog.Group | api-v1/tools_config.py:120-153 | the grouping after the loop over `paths.items()` has at most one category per path |
| EndpointCatalog.GroupKeys | api-v1/tools_config.py:122-133 | a category is a key iff it is the category of some path, including a path that lists no operation |
| EndpointCatalog.CountEndpoints | api-v1/tools_config.py:156 | the total is the sum of the category list lengths |
| EndpointCatalog.ListAvailableEndpoints | api-v1/tools_config.py:109-160 | the loop over the paths builds the specified grouping. A docs dict with an `error` key is returned unchanged |
| EndpointCatalog.ListingOf | api-v1/tools_config.py:109-160 | the documentation result is passed through iff it is an error; the code raises iff an operation entry is not an object; otherwise the catalog holds the grouping, its total, the base URL and the authentication note |
| EndpointCatalog.GroupTotal | api-v1/tools_config.py:152-156 | `total_endpoints` equals the number of paths that have at least one operation |
| EndpointCatalog.GroupDistinctKeys | api-v1/tools_config.py:132-133 | each category appears once in the grouping |
| EndpointCatalog.ListedPathsAreUnique | api-v1/tools_config.py:122-153 | when `paths` is a dict, two listed endpoints with the same path are the same entry under the same category |
| EndpointCatalog.GroupListsExactlyOperationPaths | api-v1/tools_config.py:122-153 | an endpoint is listed under a category iff some path of the document has operations, has that category, and is described by that endpoint |
| EndpointCatalog.CatalogCountsListedPaths | api-v1/tools_config.py:113-160 | a catalog is produced only from an error-free document. Its total counts the listed paths, and its category keys are distinct |
| Agent.CloseOf | api-v1/agent/agent.py:18 | a match's closing `]` is the first `]` after the marker, with at least one character in between |
| Agent.Capture | api-v1/agent/agent.py:18-22 | group 1, `[^\]]+`, is non-empty, holds no `]`, and is no longer than the text between the marker and the closing `]` (Agent.CaptureShape says which part of it) |
| Agent.Search | api-v1/agent/agent.py:19 | `re.search` finds the leftmost position where the pattern matches, or reports that it matches nowhere |
| Agent.RemoveMatches | api-v1/agent/agent.py:23 | `re.sub` never makes the text longer |
| Agent.RemoveMatchesShrinks | api-v1/agent/agent.py:23 | `re.sub` leaves a text without a match unchanged and makes a text with one strictly shorter |
| Agent.RemoveMatchesKeepsCharacters | api-v1/agent/agent.py:23 | what `re.sub` leaves is a sub-multiset of the input: it only removes characters |
| Agent.ExtractToken | api-v1/agent/agent.py:16-26 | no token iff the pattern matches nowhere, and then the message is returned unchanged and unstripped. A token never contains `]`. A cleaned message is already stripped |
| Agent.TokenIsStrippedInterior | api-v1/agent/agent.py:18-22 | the token is the stripped text between the marker and the first `]`, also when regex backtracking leaves a single whitespace character in the group |
| Agent.CaptureShape | api-v1/agent/agent.py:18-22 | the group is the text between the marker and the first `]` minus its leading whitespace, or, when that text is all whitespace, its last character |
| Agent.ExtractAtFirstMatch | api-v1/agent/agent.py:19-24 | with the first match at `i`, the cleaned text is the text before `i` plus the rest with its matches removed, stripped |
| Agent.SearchFinds | api-v1/agent/agent.py:19 | a match with no match before it is what `re.search` returns |
| Agent.ExecuteTool | api-v1/agent/agent.py:29-57 | arguments without a truthy `token` give `{error, status: 401}` before any lookup. A missing name gives the `TypeError` of `hasattr`, in the wording of Python 3.11 and later; an unknown name gives "Function <n> not found in FusefyAPITools". A URL constant is not callable. `mro`, inherited from `type`, is found and called like a tool. A call's exception becomes "Tool execution error: <m>"; it never raises |
| Agent.LookupAttribute | api-v1/agent/agent.py:49-50 | the attribute found carries the name looked up, and nothing is found only when no attribute has that name |
| Agent.InvokedOnlyWhenAuthorizedAndFound | api-v1/agent/agent.py:40-54 | the invoked function can affect the result only when the call has a token and names a callable attribute, and then only through that one invocation |
| Agent.KeywordlessToolsNeverRun | api-v1/agent/agent.py:37-57 | without a token the answer is 401. With one, `get_api_documentation`, `list_available_endpoints` and the inherited `mro` are called with a `token` keyword they cannot bind, so the call raises and the answer is a tool execution error |
| Validators.ValidateEndpoint | api-v1/validators.py:14-18 | the endpoint starts with `/`; one that already did is unchanged |
| Validators.ValidateEndpointIsAdapterNormalisation | api-v1/validators.py:14-18 | the validator and the adapter's first step agree on every endpoint |
| Validators.ItemOperationMethods | api-v1/validators.py:8 | among the admitted methods, the adapter appends a resource id exactly for GET/PUT/DELETE with a non-empty id, never for POST |
| Validators.ValidateResourceId | api-v1/validators.py:27-32 | rejects iff the operation is get/update/delete and the id is falsy, naming the operation. Otherwise it returns the id unchanged; list and create are never rejected |
| Validators.ValidateData | api-v1/validators.py:34-39 | rejects iff the operation is create/update and the data is None or empty. Otherwise it returns the data unchanged; list, get and delete are never rejected |
| Validators.FirstMissing | api-v1/validators.py:50-52 | the first required field, in order, that is not a key, or none when all are present |
| Validators.ValidateEmailData | api-v1/validators.py:47-53 | accepts iff `to`, `subject` and `body` are all keys, and names the first missing one in that order |
| Config.Session.Close | api-v1/config.py:46 | closing marks the session closed |
| Config.SessionManager.GetSession | api-v1/config.py:31-40 | a null or closed slot gets a fresh session with connect timeout 5 and total timeout 30. An open one is returned as is. Afterwards the slot holds the returned session, which is open |
| Config.SessionManager.CloseSession | api-v1/config.py:42-47 | an open session is closed and the slot emptied. A null slot, or a closed session, is left as it is |
| Config.UnwrapSecret | api-v1/config.py:57-62 | a secret string that decodes to an object with `JWT_SECRET` yields that value (the last one if repeated). Any other string is returned raw |
| Config.FetchJwtSecret | api-v1/config.py:54-68 | a store error is re-raised. A `SecretString` is unwrapped. Without one, a present `SecretBinary` is the value returned, and a missing one raises its `KeyError` |
| Config.JwtSecretCache.GetJwtSecret | api-v1/config.py:49-68 | the first success is returned on every later call with no new fetch. A failure is not cached, so the next call fetches again |
| Router.InjectAuthToken | api-v1/routers/router.py:63-64 | with a non-empty token the query gets a blank line and `[AUTH_TOKEN: <t>]` appended. Otherwise it is unchanged |
| Router.NoMarkerBeforeNewlines | api-v1/routers/router.py:64 | a marker-free query followed by the blank line can hold no marker before the appended one |
| Router.InjectedMarkerIsFirstMatch | api-v1/routers/router.py:64 | the appended marker is the first match, and it runs to the end of the injected query |
| Router.InjectThenExtract | api-v1/routers/router.py:63-64 | round trip: for a query with no marker and a token with no `]`, extraction returns the stripped query and the stripped token |
| Router.CloseAtFirstBracket | api-v1/agent/agent.py:18 | the first `]` at or after a position is found when it is the only one up to there |
| Router.WithToken | api-v1/routers/router.py:106-107 | the token is added only when the key is absent and the token is non-empty. An existing `token` is never overwritten, and every other key is untouched |
| Router.ToolArgs.InjectAuthToken | api-v1/routers/router.py:103-107 | the in-place update of a tool call's argument dict follows `WithToken` |
| Router.InjectedCallPassesGuard | api-v1/routers/router.py:106-107 | arguments without a `token` of their own pass the executor's 401 guard once the caller's token is injected |
| Router.FalsyArgumentTokenIsKept | api-v1/routers/router.py:106-107 | a falsy `token` already in the arguments is kept, so the executor answers 401 whatever token the caller sent |
| Router.CleanResponse | api-v1/routers/router.py:172-173 | a response with no marker is unchanged. A cleaned one is already stripped |
| Router.UnterminatedMarkerIsKept | api-v1/routers/router.py:172-173 | a reply with no `]` comes back unchanged, even when it holds an unterminated `[AUTH_TOKEN:` |
| Router.CleanResponseCanLeaveMarker | api-v1/routers/router.py:172-173 | one pass over `[AUTH_` + `[AUTH_TOKEN: u]` + `TOKEN: t]` removes only the inner marker. The reply is then the complete marker `[AUTH_TOKEN: t]`, from which `t` can be extracted again |
| Router.MarkerAloneExtracts | api-v1/agent/agent.py:16-24 | a text that is one marker cleans to the empty string, and its token is the stripped text after the marker |
| Router.VerifyJwtToken | api-v1/routers/router.py:42-48 | valid iff decoding succeeds, with the decoded payload. Otherwise the error is "Token verification failed: " followed by the decoder's message; it never raises |
| Router.Authenticate | api-v1/routers/router.py:295-297 | a store error is passed on, and a reply with neither secret key fails with the `KeyError` text. Otherwise the token is verified against the fetched secret: valid iff it decodes under that secret |
| Router.VerifyToken | api-v1/routers/router.py:364-393 | `user` is the `sub` claim. `expires`/`issued` are null exactly when `exp`/`iat` is absent. An invalid token gives 401 and a secret failure gives 500; every error detail starts with "Token verification failed: " |
| Router.ExecuteAgentSimple | api-v1/routers/router.py:280-362 | without a token: `success: false, authenticated: false` and the fixed message. Otherwise it reports the secret failure, or "Invalid token: …". On success the agent gets the injected query; the message is the cleaned response and the user is `sub` or `user_1`. An agent error stays authenticated |
| Router.NoTokenNeedsNoSecret | api-v1/routers/router.py:316-321 | without a token the answer does not depend on the secrets store, the decoder or the agent |
| Router.ExecuteAgent | api-v1/routers/router.py:193-278 | a secret failure gives 500, an invalid token 401, an unreadable upload 400 and an agent error 500. Otherwise the body holds the cleaned response, the user and the uploaded file's name |
| Router.Report | api-v1/routers/router.py:466-474 | `authenticated` iff the status is not 401. The message is "API connection successful" iff the call succeeded, otherwise "API call failed with status <s>". A data preview exists iff the call succeeded |
| Router.TestApiConnection | api-v1/routers/router.py:428-480 | the token is checked first (401 or 500). Then one GET through the adapter, on `/frameworks` when the form omits the endpoint: the tested endpoint is echoed, the status is the upstream one or 500 when the exchange raised, and the call succeeded iff the status is 2xx |

## Left out

- HTTP I/O (aiohttp), AWS Secrets Manager (boto3), `json.loads`, PyJWT's signature and claim checking, and the agent runtime are parameters of the model:
  - the exchange's outcome, the secrets store's reply and the decoder are given as values or functions;
  - the agent runtime is given as a function from user and query to the final text.
- The event loop of `call_agent_async` is left out: `Runner`, tool-call events, nested runs and escalation. So are the ADK sessions, the MCP toolset, the prompt text, and the whole of the `api-struct` variant. Only the query injection, the argument injection and the final cleanup are modelled.
- The call at `api-v1/routers/router.py:114` passes two arguments to the one-argument `execute_fusefy_tool`. It is not modelled. Router.InjectedCallPassesGuard relates the injected arguments to the executor's guard directly.
- FastAPI and Starlette routing, CORS, the logging middleware, `homepage`, and the `/list-endpoints` route's re-shaping of the catalog are left out.
- Pydantic machinery is left out: `min_length`, `Literal` coercion, and the rule that validators do not run for omitted or None fields. Only the validator bodies are modelled.
- `load_documentation`, the agent test script, and file attachments in `call_agent_async` are left out: base64 encoding and MIME dispatch.
- JSON numbers are integers. Floating-point values are not modelled.
- Date formatting of `exp`/`iat` in `/verify-token` is left out. Router.VerifyToken reports the raw claims, and any error that formatting could raise is not modelled.
- Text.Upper: only ASCII letters are upper-cased. Python's full Unicode case mapping is not modelled.
- Agent.LookupAttribute knows the five attributes the class declares and `mro`, the one attribute inherited from `type` that is not a dunder. The dunder attributes inherited from `object` and `type`, such as `__doc__` or `__init__`, are not modelled; the model answers "not found" for them where `hasattr` finds them.
- Agent.ExecuteTool: every exception raised while calling the tool is folded into the `invoke` parameter, and so is its message. Agent.KeywordlessToolsNeverRun constrains `invoke` by Python's rule for keywords a function cannot bind; the exact `TypeError` text is not modelled. An `arguments` value that is not a dict is not modelled either.
- Agent.ExecuteTool: the text for a missing name is the `TypeError` message of Python 3.11 and later, "attribute name must be string, not 'NoneType'". Python 3.10 and earlier word it "hasattr(): attribute name must be string".
- Router.CleanResponse: does not promise that the reply is free of markers, because the code does not keep that promise. One `re.sub` pass can join two halves into a new marker (Router.CleanResponseCanLeaveMarker), and an unterminated marker is kept (Router.UnterminatedMarkerIsKept).
- EndpointCatalog: the decoded document is a `Document`, whose `paths` and path items have unique keys, as `response.json()` builds them. How `json.loads` collapses repeated keys is part of the decoder and is not modelled. Inside `Json` objects, repeated keys are kept and Basics.Get reads the last one.
- EndpointCatalog: documents that the typed `OperationObject` cannot represent are not modelled:
  - a string `tags`, whose first character the code would take as the category;
  - a `parameters` that is null or holds non-objects, on which the code raises;
  - a `summary` or `description` present as null, which the code returns as None rather than "";
  - a null `paths`, on which the code raises;
  - a `paths` that is a list, on which `paths.items()` raises;
  - a path item that is not an object, such as `"/a": null`, on which `methods.items()` raises;
  - a decoded body that is not an object: `"error" in docs` then tests list membership or a substring, and `docs.get` raises.
- EndpointCatalog.ListingOf: an operation entry that is not an object makes the Python code raise an `AttributeError`. The model gives `Raised` and no message.
- Concurrency is not modelled: `lru_cache` races and concurrent `get_session` calls. Every call is taken to run alone.
- The retry constants and the cache TTL are declared in `Config` but drive nothing, as in the code.
