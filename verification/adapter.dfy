/** `FusefyAPITools.call_fusefy_api`: the one adapter through which every tool
    reaches the upstream REST API. It normalises the endpoint path, appends a
    resource id for item operations, builds the JSON headers with the caller's
    JWT under the non-standard header key `token`, sends the request and turns
    the status and body text into a result envelope. The exchange itself and
    JSON decoding are parameters: `send` answers a request with a status and
    body text or with the exception it raised, and `parse` is `json.loads`
    (None when it raises a decode error). */
module FusefyApi {
  import opened Basics
  import opened Text

  const BaseUrl: string := "https://85tb7na8f9.execute-api.us-east-1.amazonaws.com"
  const JsonMediaType: string := "application/json"
  const AuthFailedMessage: string := "Authentication failed. Please provide a valid JWT token."

  /** Step 1: an endpoint that does not start with `/` gets one in front. */
  function NormalizeEndpoint(endpoint: string): (r: string)
    ensures StartsWith(r, "/")
    ensures StartsWith(endpoint, "/") ==> r == endpoint
    ensures !StartsWith(endpoint, "/") ==> r == "/" + endpoint
  {
    if StartsWith(endpoint, "/") then endpoint else "/" + endpoint
  }

  /** The id is appended only when it is a non-empty string and the verb,
      compared before upper-casing, is exactly GET, PUT or DELETE. */
  predicate SelectsItem(verb: string, resourceId: Option<string>) {
    Present(resourceId) && verb in ["GET", "PUT", "DELETE"]
  }

  /** Step 2: for an item operation the path loses all its trailing `/` and
      gains `/<id>`; otherwise it is left as it is. */
  function ResourcePath(endpoint: string, verb: string, resourceId: Option<string>): (r: string)
    ensures !SelectsItem(verb, resourceId) ==> r == endpoint
    ensures SelectsItem(verb, resourceId) ==>
      var id := resourceId.value;
      |r| > |id| &&
      var base := r[..|r| - |id| - 1];
      && r[|base|..] == "/" + id
      && StartsWith(endpoint, base)
      && (forall k :: |base| <= k < |endpoint| ==> endpoint[k] == '/')
      && (base == [] || base[|base| - 1] != '/')
  {
    if SelectsItem(verb, resourceId) then
      var base := TrimTrailing(endpoint, '/');
      var r := base + "/" + resourceId.value;
      assert r[..|r| - |resourceId.value| - 1] == base;
      r
    else endpoint
  }

  /** Steps 1 and 2 together: the path that is requested and echoed back. */
  function RequestPath(endpoint: string, verb: string, resourceId: Option<string>): (r: string)
    ensures StartsWith(r, "/")
    ensures !SelectsItem(verb, resourceId) ==> r == NormalizeEndpoint(endpoint)
  {
    var n := NormalizeEndpoint(endpoint);
    var r := ResourcePath(n, verb, resourceId);
    if SelectsItem(verb, resourceId) then
      var base := r[..|r| - |resourceId.value| - 1];
      assert base != [] ==> base[0] == n[0] == '/';
      assert r == base + r[|base|..];
      r
    else r
  }

  /** Step 3: the request headers, in insertion order. */
  function Headers(token: Option<string>): (h: seq<(string, string)>)
    ensures Get(h, "Content-Type") == Some(JsonMediaType)
    ensures Get(h, "Accept") == Some(JsonMediaType)
    ensures Get(h, "token") == if Present(token) then Some(token.value) else None
    ensures !HasKey(h, "Authorization")
  {
    var fixed := [("Content-Type", JsonMediaType), ("Accept", JsonMediaType)];
    if Present(token) then
      var h := fixed + [("token", token.value)];
      assert h[..2] == fixed && fixed[..1] == [("Content-Type", JsonMediaType)];
      assert Get(h, "Content-Type") == Get(fixed, "Content-Type") == Get(fixed[..1], "Content-Type");
      h
    else fixed
  }

  /** What `session.request` is called with. */
  datatype Request = Request(
    verb: string,
    url: string,
    json: Option<Json>,
    params: Option<Json>,
    headers: seq<(string, string)>)

  function BuildRequest(endpoint: string, verb: string, data: Option<Json>, params: Option<Json>,
                        token: Option<string>, resourceId: Option<string>): (req: Request)
    ensures StartsWith(req.url, BaseUrl + "/")
    ensures req.url[|BaseUrl|..] == RequestPath(endpoint, verb, resourceId)
    ensures req.verb == Upper(verb)
    ensures req.json == data && req.params == params
    ensures req.headers == Headers(token)
  {
    var path := RequestPath(endpoint, verb, resourceId);
    assert (BaseUrl + path)[..|BaseUrl + "/"|] == BaseUrl + path[..1];
    Request(Upper(verb), BaseUrl + path, data, params, Headers(token))
  }

  /** How the exchange ended: a status with the body text, or the message of
      the exception raised while sending or reading. */
  datatype Exchange = Response(status: int, text: string) | Raised(message: string)

  /** The dict the adapter returns; `data` and `error` are absent keys when
      None. */
  datatype Envelope = Envelope(
    status: int,
    data: Option<Json>,
    success: bool,
    endpoint: string,
    verb: string,
    error: Option<string>)

  /** Body handling: an empty body is `{}`, text that does not decode is kept
      under `raw_response`. */
  function ResponseData(text: string, parse: string -> Option<Json>): Json {
    if text == "" then JObj([])
    else match parse(text)
      case Some(j) => j
      case None => JObj([("raw_response", JStr(text))])
  }

  function StatusError(status: int): Option<string> {
    if status == 401 then Some(AuthFailedMessage)
    else if status >= 400 then Some("API error: " + IntToString(status))
    else None
  }

  function ShapeEnvelope(path: string, verb: string, x: Exchange, parse: string -> Option<Json>): Envelope {
    match x
    case Response(status, text) =>
      Envelope(status, Some(ResponseData(text, parse)), 200 <= status < 300, path, verb, StatusError(status))
    case Raised(message) =>
      Envelope(500, None, false, path, verb, Some(message))
  }

  /** The whole adapter call. */
  function CallFusefyApi(endpoint: string, verb: string, data: Option<Json>, params: Option<Json>,
                         token: Option<string>, resourceId: Option<string>,
                         send: Request -> Exchange, parse: string -> Option<Json>): (env: Envelope)
    ensures env.endpoint == RequestPath(endpoint, verb, resourceId) && env.verb == verb
    ensures env.success <==> 200 <= env.status < 300
    ensures env.error.Some? <==> env.status >= 400
    ensures var x := send(BuildRequest(endpoint, verb, data, params, token, resourceId));
      && (x.Raised? ==> env.status == 500 && env.data.None? && env.error == Some(x.message))
      && (x.Response? ==> env.status == x.status && env.data.Some?)
      && (x.Response? && x.status == 401 ==> env.error == Some(AuthFailedMessage))
      && (x.Response? && x.status >= 400 && x.status != 401 ==> env.error == Some("API error: " + IntToString(x.status)))
      && (x.Response? && x.text == "" ==> env.data == Some(JObj([])))
      && (x.Response? && x.text != "" && parse(x.text).None? ==> env.data == Some(JObj([("raw_response", JStr(x.text))])))
      && (x.Response? && x.text != "" && parse(x.text).Some? ==> env.data == parse(x.text))
  {
    var req := BuildRequest(endpoint, verb, data, params, token, resourceId);
    ShapeEnvelope(RequestPath(endpoint, verb, resourceId), verb, send(req), parse)
  }
}
