/** The two pieces of logic in the agent module: pulling the caller's JWT
    back out of a query that carries an `[AUTH_TOKEN: ...]` marker, and the
    guarded dispatch of a tool call to `FusefyAPITools`. */
module Agent {
  import opened Basics
  import opened Text

  // ---------------------------------------------------------------------
  // extract_token_from_message
  //
  // The pattern is `\[AUTH_TOKEN:\s*([^\]]+)\]`. A match starts with the
  // literal marker. `[^\]]+` cannot cross a `]`, so the closing bracket is
  // the first `]` after the marker, and at least one character must lie
  // between the two. The greedy `\s*` takes the whitespace run after the
  // marker; when that run reaches the closing bracket, the regex engine
  // backtracks one character so that the group is not empty, and the group
  // is then the last whitespace character.

  const Marker: string := "[AUTH_TOKEN:"

  predicate MarkerAt(s: string, i: nat) {
    i + |Marker| <= |s| && s[i..i + |Marker|] == Marker
  }

  /** No occurrence of the marker anywhere in `s`. */
  predicate NoMarker(s: string) {
    forall i :: 0 <= i < |s| ==> !MarkerAt(s, i)
  }

  /** The first `]` at or after position `k`. */
  function CloseFrom(s: string, k: nat): (r: Option<nat>)
    ensures r.Some? ==> k <= r.value < |s| && s[r.value] == ']'
    ensures r.Some? ==> forall m :: k <= m < r.value ==> s[m] != ']'
    ensures r.None? ==> forall m :: k <= m < |s| ==> s[m] != ']'
    decreases |s| - k
  {
    if k >= |s| then None else if s[k] == ']' then Some(k) else CloseFrom(s, k + 1)
  }

  /** The end of the whitespace run that starts at `k`. */
  function SpaceEnd(s: string, k: nat): (r: nat)
    requires k <= |s|
    ensures k <= r <= |s|
    ensures forall m :: k <= m < r ==> IsSpace(s[m])
    ensures r < |s| ==> !IsSpace(s[r])
    decreases |s| - k
  {
    if k < |s| && IsSpace(s[k]) then SpaceEnd(s, k + 1) else k
  }

  /** The pattern matches at position `i`. */
  predicate MatchAt(s: string, i: nat) {
    && MarkerAt(s, i)
    && CloseFrom(s, i + |Marker|).Some?
    && CloseFrom(s, i + |Marker|).value > i + |Marker|
  }

  /** The position of the closing `]` of a match. */
  function CloseOf(s: string, i: nat): (j: nat)
    requires MatchAt(s, i)
    ensures i + |Marker| < j < |s| && s[j] == ']'
    ensures forall m :: i + |Marker| <= m < j ==> s[m] != ']'
  {
    CloseFrom(s, i + |Marker|).value
  }

  /** Group 1 of the match at `i`. */
  function Capture(s: string, i: nat): (r: string)
    requires MatchAt(s, i)
    ensures ']' !in r
    ensures 0 < |r| <= CloseOf(s, i) - (i + |Marker|)
  {
    var k := i + |Marker|;
    var j := CloseOf(s, i);
    var w := SpaceEnd(s, k);
    assert !IsSpace(s[j]);
    if w < j then s[w..j] else s[j - 1..j]
  }

  /** `re.search`: the leftmost match at or after `from`. */
  function Search(s: string, from: nat): (r: Option<nat>)
    ensures r.Some? ==> from <= r.value < |s| && MatchAt(s, r.value)
    ensures r.Some? ==> forall m :: from <= m < r.value ==> !MatchAt(s, m)
    ensures r.None? ==> forall m: nat :: from <= m ==> !MatchAt(s, m)
    decreases |s| - from
  {
    if from >= |s| then None
    else if MatchAt(s, from) then Some(from)
    else Search(s, from + 1)
  }

  /** `re.sub(pattern, '', s)`: every match, leftmost first and without
      overlap, is removed. */
  function RemoveMatches(s: string): (r: string)
    ensures |r| <= |s|
    decreases |s|
  {
    match Search(s, 0)
    case None => s
    case Some(i) => s[..i] + RemoveMatches(s[CloseOf(s, i) + 1..])
  }

  /** Without a match `re.sub` changes nothing; with one it removes at least
      the marker and its closing `]`. */
  lemma RemoveMatchesShrinks(s: string)
    ensures Search(s, 0).None? ==> RemoveMatches(s) == s
    ensures Search(s, 0).Some? ==> |RemoveMatches(s)| < |s|
  {
    if Search(s, 0).Some? {
      RemoveMatchesAt(s, Search(s, 0).value);
    }
  }

  /** Removing matches never introduces a character: what is left is a
      sub-multiset of the input. */
  lemma {:induction false} RemoveMatchesKeepsCharacters(s: string)
    ensures multiset(RemoveMatches(s)) <= multiset(s)
    decreases |s|
  {
    if Search(s, 0).Some? {
      var i := Search(s, 0).value;
      RemoveMatchesKeepsCharacters(s[CloseOf(s, i) + 1..]);
      KeepsCharactersStep(s, i);
    }
  }

  lemma KeepsCharactersStep(s: string, i: nat)
    requires Search(s, 0) == Some(i)
    requires multiset(RemoveMatches(s[CloseOf(s, i) + 1..])) <= multiset(s[CloseOf(s, i) + 1..])
    ensures multiset(RemoveMatches(s)) <= multiset(s)
  {
    RemoveMatchesAt(s, i);
    SubMultisetSplice(s, i, CloseOf(s, i) + 1, RemoveMatches(s[CloseOf(s, i) + 1..]));
  }

  /** Keeping `s[..i]` and a sub-multiset of `s[k..]` keeps a sub-multiset
      of `s`. */
  lemma SubMultisetSplice(s: string, i: nat, k: nat, r: string)
    requires i <= k <= |s| && multiset(r) <= multiset(s[k..])
    ensures multiset(s[..i] + r) <= multiset(s)
  {
    assert s == s[..i] + s[i..k] + s[k..];
  }

  /** `extract_token_from_message`: the cleaned message and the token. */
  function ExtractToken(message: string): (r: (string, Option<string>))
    ensures r.1.None? <==> forall i: nat :: !MatchAt(message, i)
    ensures r.1.None? ==> r.0 == message
    ensures r.1.Some? ==> ']' !in r.1.value
    ensures r.1.Some? ==> r.0 == Strip(r.0)
  {
    match Search(message, 0)
    case None => (message, None)
    case Some(i) =>
      var token := Strip(Capture(message, i));
      StripKeepsOut(Capture(message, i), ']');
      StripTwice(RemoveMatches(message));
      (Strip(RemoveMatches(message)), Some(token))
  }

  lemma StripTwice(s: string)
    ensures Strip(Strip(s)) == Strip(s)
  {
    var r := Strip(s);
    if r != [] {
      assert LStrip(r) == r;
    }
  }

  /** The token is the text between the marker and the first `]`, stripped:
      the backtracking case yields a single whitespace character, which
      strips to the same empty token. */
  lemma TokenIsStrippedInterior(s: string, i: nat)
    requires MatchAt(s, i)
    ensures Strip(Capture(s, i)) == Strip(s[i + |Marker|..CloseOf(s, i)])
  {
    var inner, n := CaptureShape(s, i);
    if n < |inner| {
      StripDropsLeadingSpace(inner, n);
    } else {
      StripAllSpace(inner);
      StripAllSpace(Capture(s, i));
    }
  }

  /** The group is the interior after its leading whitespace run, or, when
      the interior is all whitespace, its last character. */
  lemma CaptureShape(s: string, i: nat) returns (inner: string, n: nat)
    requires MatchAt(s, i)
    ensures inner == s[i + |Marker|..CloseOf(s, i)]
    ensures n <= |inner| && AllSpace(inner[..n])
    ensures n < |inner| ==> Capture(s, i) == inner[n..]
    ensures n == |inner| ==> |inner| > 0 && Capture(s, i) == [inner[|inner| - 1]] && AllSpace(Capture(s, i))
  {
    var k := i + |Marker|;
    var j := CloseOf(s, i);
    var w := SpaceEnd(s, k);
    inner := s[k..j];
    assert !IsSpace(s[j]);
    n := w - k;
    forall m | 0 <= m < n ensures IsSpace(inner[..n][m]) {
      assert inner[..n][m] == s[k + m];
    }
    if n == |inner| {
      assert Capture(s, i)[0] == inner[..n][n - 1];
    }
  }

  lemma StripAllSpace(w: string)
    requires AllSpace(w)
    ensures Strip(w) == []
  {
    LStripOfSpacesThenText(w, []);
    assert w + [] == w;
  }

  /** When the first match is at `i`, the token is the stripped text between
      the marker and the first `]`, and the cleaned text keeps what precedes
      the match. */
  lemma ExtractAtFirstMatch(s: string, i: nat)
    requires Search(s, 0) == Some(i)
    ensures ExtractToken(s) == (Strip(s[..i] + RemoveMatches(s[CloseOf(s, i) + 1..])),
                                Some(Strip(s[i + |Marker|..CloseOf(s, i)])))
  {
    ExtractTokenAt(s, i);
    RemoveMatchesAt(s, i);
    TokenIsStrippedInterior(s, i);
  }

  lemma ExtractTokenAt(s: string, i: nat)
    requires Search(s, 0) == Some(i)
    ensures ExtractToken(s) == (Strip(RemoveMatches(s)), Some(Strip(Capture(s, i))))
  {
  }

  lemma RemoveMatchesAt(s: string, i: nat)
    requires Search(s, 0) == Some(i)
    ensures RemoveMatches(s) == s[..i] + RemoveMatches(s[CloseOf(s, i) + 1..])
  {
  }

  /** A leftmost match found at `i` is what `re.search` returns. */
  lemma {:induction false} SearchFinds(s: string, from: nat, i: nat)
    requires from <= i && MatchAt(s, i)
    requires forall m :: from <= m < i ==> !MatchAt(s, m)
    ensures Search(s, from) == Some(i)
    decreases i - from
  {
    if from < i {
      SearchFinds(s, from + 1, i);
    }
  }

  // ---------------------------------------------------------------------
  // execute_fusefy_tool

  /** The attributes of the `FusefyAPITools` class that are not dunders:
      the five it declares, and `mro`, which every class inherits from its
      metaclass `type`. */
  datatype Attribute =
    | CallFusefyApi
    | GetApiDocumentation
    | ListAvailableEndpoints
    | BaseUrlConstant
    | ApiDocsUrlConstant
    | Mro

  /** The name under which `getattr` finds each attribute. */
  function AttributeName(a: Attribute): string {
    match a
    case CallFusefyApi => "call_fusefy_api"
    case GetApiDocumentation => "get_api_documentation"
    case ListAvailableEndpoints => "list_available_endpoints"
    case BaseUrlConstant => "BASE_URL"
    case ApiDocsUrlConstant => "API_DOCS_URL"
    case Mro => "mro"
  }

  /** `hasattr(FusefyAPITools, name)` and `getattr`: the attribute of that
      name, and none when no attribute has it. */
  function LookupAttribute(name: string): (r: Option<Attribute>)
    ensures r.Some? ==> AttributeName(r.value) == name
    ensures r.None? ==> forall a: Attribute :: AttributeName(a) != name
  {
    if name == "call_fusefy_api" then Some(CallFusefyApi)
    else if name == "get_api_documentation" then Some(GetApiDocumentation)
    else if name == "list_available_endpoints" then Some(ListAvailableEndpoints)
    else if name == "BASE_URL" then Some(BaseUrlConstant)
    else if name == "API_DOCS_URL" then Some(ApiDocsUrlConstant)
    else if name == "mro" then Some(Mro)
    else None
  }

  /** The two URL constants are strings, which cannot be called. */
  predicate IsCallable(a: Attribute) {
    !(a.BaseUrlConstant? || a.ApiDocsUrlConstant?)
  }

  /** What awaiting `func(**args)` did: returned a value or raised. */
  datatype CallOutcome = Returned(value: Json) | Threw(message: string)

  /** The `function_call` dict: its `name` (None when absent) and its
      `arguments` (an absent one reads as `{}`). */
  datatype FunctionCall = FunctionCall(name: Option<string>, arguments: map<string, Json>)

  const TokenRequiredMessage: string :=
    "Authentication token is required. Please provide a valid JWT token."

  function ErrorObject(message: string): Json {
    JObj([("error", JStr(message))])
  }

  const Unauthorized: Json := JObj([("error", JStr(TokenRequiredMessage)), ("status", JNum(401))])

  /** `{"error": "Tool execution error: <m>"}`, the answer to any exception. */
  function ToolError(message: string): Json {
    ErrorObject("Tool execution error: " + message)
  }

  function NotFound(name: string): Json {
    ErrorObject("Function " + name + " not found in FusefyAPITools")
  }

  /** The messages of the TypeErrors raised by `hasattr` with a None name (as
      Python 3.11 and later word it) and by calling a string. */
  const NoneNameMessage: string := "attribute name must be string, not 'NoneType'"
  const NotCallableMessage: string := "'str' object is not callable"

  predicate HasToken(args: map<string, Json>) {
    "token" in args && Truthy(args["token"])
  }

  /** `execute_fusefy_tool`. `invoke` stands for awaiting the looked-up
      static method with the call's arguments as keywords. */
  function ExecuteTool(call: FunctionCall, invoke: (Attribute, map<string, Json>) -> CallOutcome): (r: Json)
    ensures !HasToken(call.arguments) ==> r == Unauthorized
    ensures HasToken(call.arguments) && call.name.None? ==>
              r == ToolError(NoneNameMessage)
    ensures HasToken(call.arguments) && call.name.Some? && LookupAttribute(call.name.value).None? ==>
              r == NotFound(call.name.value)
    ensures HasToken(call.arguments) && call.name.Some? && LookupAttribute(call.name.value).Some? ==>
              var a := LookupAttribute(call.name.value).value;
              && (!IsCallable(a) ==> r == ToolError(NotCallableMessage))
              && (IsCallable(a) && invoke(a, call.arguments).Returned? ==> r == invoke(a, call.arguments).value)
              && (IsCallable(a) && invoke(a, call.arguments).Threw? ==>
                    r == ToolError(invoke(a, call.arguments).message))
  {
    if !HasToken(call.arguments) then Unauthorized
    else match call.name
      case None => ToolError(NoneNameMessage)
      case Some(name) =>
        match LookupAttribute(name)
        case None => NotFound(name)
        case Some(a) =>
          if !IsCallable(a) then ToolError(NotCallableMessage)
          else match invoke(a, call.arguments)
            case Returned(v) => v
            case Threw(message) => ToolError(message)
  }

  /** The keyword arguments each callable attribute binds: `call_fusefy_api`
      needs `endpoint` and takes five optional ones; the two documentation
      methods and the inherited `mro` take none. */
  predicate AcceptsKeywords(a: Attribute, keys: set<string>) {
    match a
    case CallFusefyApi =>
      "endpoint" in keys && keys <= {"endpoint", "method", "data", "params", "token", "resource_id"}
    case GetApiDocumentation => keys == {}
    case ListAvailableEndpoints => keys == {}
    case Mro => keys == {}
    case _ => false
  }

  /** Python refuses, with a TypeError, a call whose keywords the function
      cannot bind, before any of its code runs. */
  ghost predicate RaisesOnUnboundKeywords(invoke: (Attribute, map<string, Json>) -> CallOutcome) {
    forall a: Attribute, args: map<string, Json> :: IsCallable(a) && !AcceptsKeywords(a, args.Keys) ==> invoke(a, args).Threw?
  }

  /** The executor only invokes a function with a `token` keyword, which the
      two documentation methods and `mro` cannot take: through
      `execute_fusefy_tool` they always end in a tool execution error. */
  lemma KeywordlessToolsNeverRun(call: FunctionCall, invoke: (Attribute, map<string, Json>) -> CallOutcome)
    requires RaisesOnUnboundKeywords(invoke)
    requires || call.name == Some("get_api_documentation")
             || call.name == Some("list_available_endpoints")
             || call.name == Some("mro")
    ensures !HasToken(call.arguments) ==> ExecuteTool(call, invoke) == Unauthorized
    ensures HasToken(call.arguments) ==>
              var a := LookupAttribute(call.name.value).value;
              && invoke(a, call.arguments).Threw?
              && ExecuteTool(call, invoke) == ToolError(invoke(a, call.arguments).message)
  {
    if HasToken(call.arguments) {
      var a := LookupAttribute(call.name.value).value;
      assert "token" in call.arguments.Keys;
      assert !AcceptsKeywords(a, call.arguments.Keys);
    }
  }

  /** Nothing is invoked unless the call carries a truthy token and names a
      callable attribute: two invokers that agree on that one call give the
      same result. */
  lemma InvokedOnlyWhenAuthorizedAndFound(call: FunctionCall, f: (Attribute, map<string, Json>) -> CallOutcome,
                                          g: (Attribute, map<string, Json>) -> CallOutcome)
    requires ExecuteTool(call, f) != ExecuteTool(call, g)
    ensures HasToken(call.arguments) && call.name.Some?
    ensures LookupAttribute(call.name.value).Some? && IsCallable(LookupAttribute(call.name.value).value)
    ensures f(LookupAttribute(call.name.value).value, call.arguments)
            != g(LookupAttribute(call.name.value).value, call.arguments)
  {
  }
}
