/** The HTTP routes' own logic: carrying the caller's JWT into the agent's
    query and tool arguments, checking a JWT against the stored secret, and
    shaping the responses of `/verify-token`, `/execute-agent`,
    `/execute-agent-simple` and `/test-api-connection`. The secrets store,
    JSON decoding, PyJWT's `decode`, the agent runtime and the upstream
    exchange are parameters. */
module Router {
  import opened Basics
  import opened Text
  import Agent
  import FusefyApi
  import Config

  // ---------------------------------------------------------------------
  // call_agent_async: the token in the query and in the tool arguments

  /** The query the agent receives: with a non-empty token, the marker line
      is appended after a blank line; otherwise the query is unchanged. */
  function InjectAuthToken(query: string, authToken: Option<string>): (r: string)
    ensures !Present(authToken) ==> r == query
    ensures Present(authToken) ==> r == query + "\n\n" + Agent.Marker + " " + authToken.value + "]"
  {
    if Present(authToken) then query + "\n\n[AUTH_TOKEN: " + authToken.value + "]" else query
  }

  /** No marker can start inside the first `|q| + 2` positions of
      `q + "\n\n" + tail` when `q` holds none: a window that is not inside
      `q` covers one of the two newlines, and the marker has no newline. */
  lemma NoMarkerBeforeNewlines(q: string, tail: string)
    requires Agent.NoMarker(q)
    ensures forall i :: 0 <= i < |q| + 2 ==> !Agent.MarkerAt(q + "\n\n" + tail, i)
  {
    var m := q + "\n\n" + tail;
    forall i | 0 <= i < |q| + 2
      ensures !Agent.MarkerAt(m, i)
    {
      if i + |Agent.Marker| <= |q| {
        assert m[i..i + |Agent.Marker|] == q[i..i + |Agent.Marker|];
        assert !Agent.MarkerAt(q, i);
      } else if i + |Agent.Marker| <= |m| {
        var n := if i <= |q| then |q| else |q| + 1;
        assert m[n] == '\n';
        assert m[i..i + |Agent.Marker|][n - i] == '\n';
        assert '\n' !in Agent.Marker;
      }
    }
  }

  /** The marker the router appends is the first match in the injected
      query, and it runs to the query's last character. */
  lemma InjectedMarkerIsFirstMatch(query: string, token: string)
    requires Agent.NoMarker(query)
    requires token != "" && ']' !in token
    ensures var m := InjectAuthToken(query, Some(token));
      var i := |query| + 2;
      && Agent.Search(m, 0) == Some(i)
      && Agent.CloseOf(m, i) == |m| - 1
      && m[..i] == query + "\n\n"
      && m[i + |Agent.Marker|..|m| - 1] == " " + token
  {
    var m := InjectAuthToken(query, Some(token));
    var tail := "[AUTH_TOKEN: " + token + "]";
    var i := |query| + 2;
    assert m == query + "\n\n" + tail;
    InjectedMarkerMatches(query, token);
    NoMarkerBeforeNewlines(query, tail);
    forall p | 0 <= p < i
      ensures !Agent.MatchAt(m, p)
    {
      assert !Agent.MarkerAt(m, p);
    }
    Agent.SearchFinds(m, 0, i);
  }

  /** The appended marker is a match whose closing bracket is the last
      character and whose interior is a space and the token. */
  lemma InjectedMarkerMatches(query: string, token: string)
    requires token != "" && ']' !in token
    ensures var m := InjectAuthToken(query, Some(token));
      var i := |query| + 2;
      && Agent.MatchAt(m, i)
      && Agent.CloseOf(m, i) == |m| - 1
      && m[..i] == query + "\n\n"
      && m[i + |Agent.Marker|..|m| - 1] == " " + token
  {
    var m := query + "\n\n" + "[AUTH_TOKEN: " + token + "]";
    assert InjectAuthToken(query, Some(token)) == m;
    var i := |query| + 2;
    var k := i + |Agent.Marker|;
    var j := |m| - 1;
    assert m[i..k] == Agent.Marker;
    assert m[k..j] == " " + token;
    assert forall p :: k <= p < j ==> m[p] == m[k..j][p - k];
    CloseAtFirstBracket(m, k, j);
    assert m[..i] == query + "\n\n";
  }

  /** The token the router injects is the token `extract_token_from_message`
      recovers, and the query it recovers is the original one, both stripped,
      provided the query carries no marker of its own and the token no `]`. */
  lemma InjectThenExtract(query: string, token: string)
    requires Agent.NoMarker(query)
    requires token != "" && ']' !in token
    ensures Agent.ExtractToken(InjectAuthToken(query, Some(token))) == (Strip(query), Some(Strip(token)))
  {
    var m := InjectAuthToken(query, Some(token));
    InjectedMarkerIsFirstMatch(query, token);
    InjectedQueryRecovered(query, m);
    TokenOfFirstMatch(m, |query| + 2);
    StripAfterSpace(token);
  }

  /** Removing a first match that runs to the end leaves what precedes it. */
  lemma InjectedQueryRecovered(query: string, m: string)
    requires |query| + 2 <= |m| && Agent.Search(m, 0) == Some(|query| + 2)
    requires Agent.CloseOf(m, |query| + 2) == |m| - 1 && m[..|query| + 2] == query + "\n\n"
    ensures Agent.ExtractToken(m).0 == Strip(query)
  {
    var i := |query| + 2;
    var rest := m[Agent.CloseOf(m, i) + 1..];
    Agent.RemoveMatchesAt(m, i);
    RemoveMatchesEmpty(rest);
    CleanedIsStrippedRemoval(m);
    StripBeforeNewlines(query);
  }

  lemma RemoveMatchesEmpty(s: string)
    requires s == []
    ensures Agent.RemoveMatches(s) == []
  {
    assert Agent.Search(s, 0) == None;
  }

  lemma StripAfterSpace(t: string)
    ensures Strip(" " + t) == Strip(t)
  {
    assert " " + t == " " + t + [];
    StripIgnoresSurroundingSpace(" ", t, []);
    assert t + [] == t;
  }

  lemma StripBeforeNewlines(q: string)
    ensures Strip(q + "\n\n" + []) == Strip(q)
  {
    assert q + "\n\n" + [] == [] + q + "\n\n";
    StripIgnoresSurroundingSpace([], q, "\n\n");
  }

  /** The first `]` at or after `k` is at `j` when `s[j]` is the only `]` in
      `s[k..j+1]`. */
  lemma {:induction false} CloseAtFirstBracket(s: string, k: nat, j: nat)
    requires k <= j < |s| && s[j] == ']'
    requires forall p :: k <= p < j ==> s[p] != ']'
    ensures Agent.CloseFrom(s, k) == Some(j)
    decreases j - k
  {
    if k < j {
      CloseAtFirstBracket(s, k + 1, j);
    }
  }

  /** The tool-call arguments after injection: the caller's token is added
      under `token` only when the key is absent; an existing value, even a
      falsy one, is never replaced. */
  function WithToken(args: map<string, Json>, authToken: Option<string>): (r: map<string, Json>)
    ensures "token" in args ==> r == args
    ensures "token" !in args && Present(authToken) ==> r == args["token" := JStr(authToken.value)]
    ensures !Present(authToken) ==> r == args
    ensures forall key :: key != "token" ==> (key in r <==> key in args)
    ensures forall key :: key in args ==> key in r && r[key] == args[key]
  {
    if Present(authToken) && "token" !in args then args["token" := JStr(authToken.value)] else args
  }

  /** A tool call's argument dict, which the router updates in place. */
  class ToolArgs {
    var entries: map<string, Json>

    constructor(args: map<string, Json>)
      ensures entries == args
    {
      entries := args;
    }

    method InjectAuthToken(authToken: Option<string>)
      modifies this
      ensures entries == WithToken(old(entries), authToken)
    {
      if Present(authToken) && "token" !in entries {
        entries := entries["token" := JStr(authToken.value)];
      }
    }
  }

  /** A call whose arguments had no `token` of their own passes the tool
      executor's 401 guard once the caller's token is injected. */
  lemma InjectedCallPassesGuard(args: map<string, Json>, authToken: Option<string>)
    requires "token" !in args && Present(authToken)
    ensures Agent.HasToken(WithToken(args, authToken))
  {
  }

  /** An argument dict that already holds a falsy `token` keeps it, so the
      executor answers 401 even though the caller sent a valid token. */
  lemma FalsyArgumentTokenIsKept(name: Option<string>, args: map<string, Json>, authToken: Option<string>,
                                 invoke: (Agent.Attribute, map<string, Json>) -> Agent.CallOutcome)
    requires "token" in args && !Truthy(args["token"])
    ensures Agent.ExecuteTool(Agent.FunctionCall(name, WithToken(args, authToken)), invoke) == Agent.Unauthorized
  {
  }

  /** The final response text after one pass that removes every match. */
  function CleanResponse(text: string): (r: string)
    ensures Agent.Search(text, 0).None? ==> r == text
    ensures Agent.Search(text, 0).Some? ==> r == Strip(r)
  {
    Agent.ExtractToken(text).0
  }

  /** A reply without `]` holds no complete marker, so it is returned as it
      is, even when it carries an unterminated `[AUTH_TOKEN: ...`. */
  lemma UnterminatedMarkerIsKept(text: string)
    requires ']' !in text
    ensures CleanResponse(text) == text
  {
    assert forall k :: 0 <= k < |text| ==> text[k] != ']';
  }

  /** A single substitution pass can assemble a new marker: removing a
      marker placed inside a split one, as in `[AUTH_` + `[AUTH_TOKEN: a]` +
      `TOKEN: s]`, joins the outer halves into a complete marker, which then
      reaches the reply with its token. */
  lemma CleanResponseCanLeaveMarker(u: string, t: string)
    requires u != [] && ']' !in u
    requires t != [] && '[' !in t && ']' !in t
    ensures var r := CleanResponse(Agent.Marker[..6] + Agent.Marker + u + "]" + Agent.Marker[6..] + " " + t + "]");
      && r == Agent.Marker + " " + t + "]"
      && Agent.ExtractToken(r).1 == Some(Strip(t))
  {
    var rest := " " + t + "]";
    var s := Agent.Marker[..6] + Agent.Marker + u + "]" + (Agent.Marker[6..] + rest);
    var out := Agent.Marker + rest;
    assert Agent.Marker[..6] + Agent.Marker + u + "]" + Agent.Marker[6..] + " " + t + "]" == s;
    assert Agent.Marker + " " + t + "]" == out;
    JoinedHalvesCleaned(u, rest);
    MarkerAloneExtracts(t);
  }

  lemma JoinedHalvesCleaned(u: string, rest: string)
    requires u != [] && ']' !in u && '[' !in rest
    requires |rest| > 0 && rest[|rest| - 1] == ']'
    ensures CleanResponse(Agent.Marker[..6] + Agent.Marker + u + "]" + (Agent.Marker[6..] + rest)) == Agent.Marker + rest
  {
    var s := Agent.Marker[..6] + Agent.Marker + u + "]" + (Agent.Marker[6..] + rest);
    var out := Agent.Marker + rest;
    JoinedHalvesExtracted(u, rest);
    StripKeepsUnpadded(out);
    CleanedToStripped(s, out);
  }

  lemma CleanedToStripped(s: string, out: string)
    requires Agent.ExtractToken(s).0 == Strip(out) && Strip(out) == out
    ensures CleanResponse(s) == out
  {
  }

  lemma JoinedHalvesExtracted(u: string, rest: string)
    requires u != [] && ']' !in u && '[' !in rest
    ensures Agent.ExtractToken(Agent.Marker[..6] + Agent.Marker + u + "]" + (Agent.Marker[6..] + rest)).0
            == Strip(Agent.Marker + rest)
  {
    var s := Agent.Marker[..6] + Agent.Marker + u + "]" + (Agent.Marker[6..] + rest);
    OnePassJoinsHalves(u, rest);
    MarkerHalves(rest);
    CleanedIsStrippedRemoval(s);
  }

  lemma MarkerHalves(rest: string)
    ensures Agent.Marker[..6] + (Agent.Marker[6..] + rest) == Agent.Marker + rest
  {
    assert Agent.Marker[..6] + Agent.Marker[6..] == Agent.Marker;
  }

  lemma CleanedIsStrippedRemoval(s: string)
    requires Agent.Search(s, 0).Some?
    ensures Agent.ExtractToken(s).0 == Strip(Agent.RemoveMatches(s))
  {
  }

  /** The first match is the inner marker, and removing it joins the halves. */
  lemma OnePassJoinsHalves(u: string, rest: string)
    requires u != [] && ']' !in u && '[' !in rest
    ensures var s := Agent.Marker[..6] + Agent.Marker + u + "]" + (Agent.Marker[6..] + rest);
      && Agent.Search(s, 0) == Some(6)
      && Agent.RemoveMatches(s) == Agent.Marker[..6] + (Agent.Marker[6..] + rest)
  {
    var a, b := Agent.Marker[..6], Agent.Marker[6..] + rest;
    var s := a + Agent.Marker + u + "]" + b;
    forall i | 0 <= i < |a| ensures !Agent.MarkerAt(s, i) {
      if i == 0 {
        assert s[i..i + |Agent.Marker|][6] == s[6] == '[';
      } else {
        assert s[i..i + |Agent.Marker|][0] == a[i];
      }
    }
    assert forall k :: 0 <= k < |b| ==> b[k] != '[' by {
      forall k | 0 <= k < |b| ensures b[k] != '[' {
        if k >= 6 { assert b[k] == rest[k - 6]; }
      }
    }
    SplicedMarkerMatches(a, u, b);
    Agent.SearchFinds(s, 0, |a|);
    RemoveFirstMarker(a, u, b);
  }

  /** A marker spliced between `a` and `b` matches right after `a`, and its
      closing bracket is the one that ends it. */
  lemma SplicedMarkerMatches(a: string, t: string, b: string)
    requires t != [] && ']' !in t
    ensures var s := a + Agent.Marker + t + "]" + b;
      && Agent.MatchAt(s, |a|)
      && Agent.CloseOf(s, |a|) == |a| + |Agent.Marker| + |t|
      && s[..|a|] == a
      && s[|a| + |Agent.Marker|..Agent.CloseOf(s, |a|)] == t
      && s[Agent.CloseOf(s, |a|) + 1..] == b
  {
    var s := a + Agent.Marker + t + "]" + b;
    var k := |a| + |Agent.Marker|;
    var j := k + |t|;
    assert s[|a|..k] == Agent.Marker;
    assert s[k..j] == t;
    assert forall p :: k <= p < j ==> s[p] == t[p - k];
    CloseAtFirstBracket(s, k, j);
    assert s[..|a|] == a;
    assert s[j + 1..] == b;
  }

  /** When the leftmost match in `a + marker + b` is the marker right after
      `a`, and `b` holds no `[`, one pass leaves `a + b`. */
  lemma RemoveFirstMarker(a: string, t: string, b: string)
    requires t != [] && ']' !in t && '[' !in b
    requires forall i :: 0 <= i < |a| ==> !Agent.MarkerAt(a + Agent.Marker + t + "]" + b, i)
    ensures Agent.RemoveMatches(a + Agent.Marker + t + "]" + b) == a + b
  {
    var s := a + Agent.Marker + t + "]" + b;
    SplicedMarkerMatches(a, t, b);
    Agent.SearchFinds(s, 0, |a|);
    Agent.RemoveMatchesAt(s, |a|);
    NoBracketNoMatch(b);
  }

  /** A lone marker yields its stripped token and leaves nothing. */
  lemma MarkerAloneExtracts(t: string)
    requires t != [] && ']' !in t
    ensures Agent.ExtractToken(Agent.Marker + " " + t + "]") == ([], Some(Strip(t)))
  {
    var s := Agent.Marker + " " + t + "]";
    LoneMarkerIsFirstMatch(t);
    MatchToEndLeavesNothing(s);
    LoneMarkerToken(t);
  }

  lemma LoneMarkerIsFirstMatch(t: string)
    requires t != [] && ']' !in t
    ensures var s := Agent.Marker + " " + t + "]";
              Agent.Search(s, 0) == Some(0) && Agent.CloseOf(s, 0) == |s| - 1
  {
    var s := Agent.Marker + " " + t + "]";
    var empty: string := [];
    assert empty + Agent.Marker + (" " + t) + "]" + empty == s;
    SplicedMarkerMatches(empty, " " + t, empty);
    Agent.SearchFinds(s, 0, 0);
  }

  lemma LoneMarkerToken(t: string)
    requires t != [] && ']' !in t
    requires Agent.Search(Agent.Marker + " " + t + "]", 0) == Some(0)
    requires Agent.CloseOf(Agent.Marker + " " + t + "]", 0) == |Agent.Marker + " " + t + "]"| - 1
    ensures Agent.ExtractToken(Agent.Marker + " " + t + "]").1 == Some(Strip(t))
  {
    var s := Agent.Marker + " " + t + "]";
    InteriorAfterPrefix(Agent.Marker, t);
    TokenOfWholeMatch(s, " " + t);
    StripAfterSpace(t);
  }

  lemma TokenOfWholeMatch(s: string, x: string)
    requires Agent.Search(s, 0) == Some(0) && Agent.CloseOf(s, 0) == |s| - 1
    requires s[|Agent.Marker|..|s| - 1] == x
    ensures Agent.ExtractToken(s).1 == Some(Strip(x))
  {
    Agent.ExtractTokenAt(s, 0);
    Agent.TokenIsStrippedInterior(s, 0);
  }

  lemma InteriorAfterPrefix(m: string, t: string)
    ensures (m + " " + t + "]")[|m|..|m + " " + t + "]"| - 1] == " " + t
  {
  }

  /** A match that spans the whole text leaves nothing after cleaning. */
  lemma MatchToEndLeavesNothing(s: string)
    requires Agent.Search(s, 0) == Some(0) && Agent.CloseOf(s, 0) == |s| - 1
    ensures Agent.ExtractToken(s).0 == []
  {
    var rest := s[Agent.CloseOf(s, 0) + 1..];
    RemoveMatchesEmpty(rest);
    Agent.ExtractAtFirstMatch(s, 0);
    assert s[..0] + Agent.RemoveMatches(rest) == [];
    assert Strip([]) == [];
  }

  lemma TokenOfFirstMatch(s: string, i: nat)
    requires Agent.Search(s, 0) == Some(i)
    ensures Agent.ExtractToken(s).1 == Some(Strip(s[i + |Agent.Marker|..Agent.CloseOf(s, i)]))
  {
    Agent.ExtractAtFirstMatch(s, i);
  }

  lemma NoBracketNoMatch(t: string)
    requires '[' !in t
    ensures Agent.RemoveMatches(t) == t
  {
    forall i | 0 <= i < |t| ensures !Agent.MarkerAt(t, i) {
      if i + |Agent.Marker| <= |t| {
        assert t[i..i + |Agent.Marker|][0] == t[i];
      }
    }
  }

  /** A string that neither starts nor ends with whitespace is its own
      `strip()`. */
  lemma StripKeepsUnpadded(t: string)
    requires t != [] && !IsSpace(t[0]) && !IsSpace(t[|t| - 1])
    ensures Strip(t) == t
  {
    assert LStrip(t) == t;
  }

  // ---------------------------------------------------------------------
  // verify_jwt_token

  /** Decoded JWT claims, in document order. */
  type Claims = seq<(string, Json)>

  /** The `verify_jwt_token` dict. */
  datatype Verification = Valid(payload: Claims) | Invalid(error: string)

  const VerificationFailedPrefix: string := "Token verification failed: "

  /** `decode` is `jwt.decode(token, secret, algorithms='HS256')`, with the
      text of the exception it raised. */
  function VerifyJwtToken(token: string, secret: Config.Secret,
                          decode: (string, Config.Secret) -> Result<Claims, string>): (r: Verification)
    ensures r.Valid? <==> decode(token, secret).Success?
    ensures r.Valid? ==> r.payload == decode(token, secret).value
    ensures r.Invalid? ==> StartsWith(r.error, VerificationFailedPrefix)
                           && r.error[|VerificationFailedPrefix|..] == decode(token, secret).error
  {
    match decode(token, secret)
    case Success(claims) => Valid(claims)
    case Failure(e) =>
      var msg := VerificationFailedPrefix + e;
      assert msg[..|VerificationFailedPrefix|] == VerificationFailedPrefix;
      Invalid(msg)
  }

  /** Fetching the secret (the router's own, uncached `get_jwt_secret`) and
      verifying the token: a Failure is the text of the error the fetch
      raised. */
  function Authenticate(token: string, reply: Result<Config.StoreReply, string>, parse: string -> Option<Json>,
                        decode: (string, Config.Secret) -> Result<Claims, string>): (r: Result<Verification, string>)
    ensures reply.Failure? ==> r == Failure(reply.error)
    ensures r.Failure? <==> Config.FetchJwtSecret(reply, parse).Failure?
    ensures r.Success? ==> r.value == VerifyJwtToken(token, Config.FetchJwtSecret(reply, parse).value, decode)
    ensures reply.Success? && reply.value.secretString.None? && reply.value.secretBinary.None? ==>
              r == Failure(Config.MissingBinaryError)
    ensures r.Success? ==>
              (r.value.Valid? <==> decode(token, Config.FetchJwtSecret(reply, parse).value).Success?)
  {
    match Config.FetchJwtSecret(reply, parse)
    case Failure(e) => Failure(e)
    case Success(secret) => Success(VerifyJwtToken(token, secret, decode))
  }

  /** What an endpoint answers: a response body, or the `HTTPException` it
      raised. */
  datatype Routed<T> = Ok(body: T) | HttpError(status: int, detail: string)

  // ---------------------------------------------------------------------
  // GET /verify-token

  /** The `/verify-token` body; `expires` and `issued` are the raw claims,
      whose date formatting is not modelled. */
  datatype TokenReport = TokenReport(user: Option<Json>, expires: Option<Json>, issued: Option<Json>)

  function VerifyToken(token: string, reply: Result<Config.StoreReply, string>, parse: string -> Option<Json>,
                       decode: (string, Config.Secret) -> Result<Claims, string>): (r: Routed<TokenReport>)
    ensures var a := Authenticate(token, reply, parse, decode);
      && (r.Ok? <==> a.Success? && a.value.Valid?)
      && (a.Failure? ==> r == HttpError(500, VerificationFailedPrefix + a.error))
      && (a.Success? && a.value.Invalid? ==> r == HttpError(401, a.value.error))
      && (r.Ok? ==> r.body.user == Get(a.value.payload, "sub")
                    && (r.body.expires.None? <==> !HasKey(a.value.payload, "exp"))
                    && (r.body.issued.None? <==> !HasKey(a.value.payload, "iat")))
    ensures r.HttpError? ==> StartsWith(r.detail, VerificationFailedPrefix)
  {
    match Authenticate(token, reply, parse, decode)
    case Failure(e) =>
      assert (VerificationFailedPrefix + e)[..|VerificationFailedPrefix|] == VerificationFailedPrefix;
      HttpError(500, VerificationFailedPrefix + e)
    case Success(Invalid(e)) => HttpError(401, e)
    case Success(Valid(p)) => Ok(TokenReport(Get(p, "sub"), Get(p, "exp"), Get(p, "iat")))
  }

  // ---------------------------------------------------------------------
  // GET /execute-agent-simple and POST /execute-agent

  /** The agent runtime: for a user id and the query it is sent, the text of
      the final response before cleaning, or the text of the exception. */
  type AgentRun = (Json, string) -> Result<string, string>

  const DefaultUserId: Json := JStr("user_1")

  /** `payload.get('sub', 'user_1')`. */
  function UserId(payload: Claims): Json {
    Get(payload, "sub").GetOr(DefaultUserId)
  }

  const TokenRequiredMessage: string :=
    "Authentication token required. Please provide a valid JWT token in the 'token' header."
  const InvalidTokenPrefix: string := "Invalid token: "
  const AgentErrorPrefix: string := "Agent execution error: "

  /** The `/execute-agent-simple` body; absent keys are None. */
  datatype SimpleReply = SimpleReply(success: bool, message: Option<string>, error: Option<string>,
                                     authenticated: bool, user: Option<Json>)

  function ExecuteAgentSimple(query: string, token: Option<string>, reply: Result<Config.StoreReply, string>,
                              parse: string -> Option<Json>, decode: (string, Config.Secret) -> Result<Claims, string>,
                              agent: AgentRun): (r: SimpleReply)
    ensures !Present(token) ==> r == SimpleReply(false, None, Some(TokenRequiredMessage), false, None)
    ensures r.success <==> r.error.None?
    ensures r.authenticated <==> Present(token) && Authenticate(token.value, reply, parse, decode).Success?
                                 && Authenticate(token.value, reply, parse, decode).value.Valid?
    ensures Present(token) && Authenticate(token.value, reply, parse, decode).Failure? ==>
              r.error == Some(VerificationFailedPrefix + Authenticate(token.value, reply, parse, decode).error)
    ensures Present(token) && Authenticate(token.value, reply, parse, decode).Success?
            && Authenticate(token.value, reply, parse, decode).value.Invalid? ==>
              r.error == Some(InvalidTokenPrefix + Authenticate(token.value, reply, parse, decode).value.error)
    ensures r.authenticated ==>
              var user := UserId(Authenticate(token.value, reply, parse, decode).value.payload);
              var run := agent(user, InjectAuthToken(query, token));
              && (run.Success? ==> r == SimpleReply(true, Some(CleanResponse(run.value)), None, true, Some(user)))
              && (run.Failure? ==> r == SimpleReply(false, None, Some(AgentErrorPrefix + run.error), true, None))
  {
    if !Present(token) then SimpleReply(false, None, Some(TokenRequiredMessage), false, None)
    else match Authenticate(token.value, reply, parse, decode)
      case Failure(e) => SimpleReply(false, None, Some(VerificationFailedPrefix + e), false, None)
      case Success(Invalid(e)) => SimpleReply(false, None, Some(InvalidTokenPrefix + e), false, None)
      case Success(Valid(p)) =>
        var user := UserId(p);
        match agent(user, InjectAuthToken(query, token))
        case Success(text) => SimpleReply(true, Some(CleanResponse(text)), None, true, Some(user))
        case Failure(e) => SimpleReply(false, None, Some(AgentErrorPrefix + e), true, None)
  }

  /** Without a token, the answer depends on nothing but its absence: the
      secret is not fetched, and neither the decoder nor the agent is used. */
  lemma NoTokenNeedsNoSecret(query: string, token: Option<string>,
                             reply1: Result<Config.StoreReply, string>, reply2: Result<Config.StoreReply, string>,
                             parse1: string -> Option<Json>, parse2: string -> Option<Json>,
                             decode1: (string, Config.Secret) -> Result<Claims, string>,
                             decode2: (string, Config.Secret) -> Result<Claims, string>,
                             agent1: AgentRun, agent2: AgentRun)
    requires !Present(token)
    ensures ExecuteAgentSimple(query, token, reply1, parse1, decode1, agent1)
         == ExecuteAgentSimple(query, token, reply2, parse2, decode2, agent2)
    ensures !ExecuteAgentSimple(query, token, reply1, parse1, decode1, agent1).authenticated
  {
  }

  /** An uploaded file: its name, and the error reading it raised, if any. */
  datatype Upload = Upload(filename: string, readError: Option<string>)

  predicate UploadFails(file: Option<Upload>) {
    file.Some? && file.value.readError.Some?
  }

  /** The `/execute-agent` body. */
  datatype AgentReply = AgentReply(message: string, user: Json, fileProcessed: Option<string>)

  const SecretErrorPrefix: string := "Failed to retrieve JWT secret: "
  const FileErrorPrefix: string := "Error processing file: "

  function ExecuteAgent(token: string, query: string, file: Option<Upload>, reply: Result<Config.StoreReply, string>,
                        parse: string -> Option<Json>, decode: (string, Config.Secret) -> Result<Claims, string>,
                        agent: AgentRun): (r: Routed<AgentReply>)
    ensures var a := Authenticate(token, reply, parse, decode);
      && (a.Failure? ==> r == HttpError(500, SecretErrorPrefix + a.error))
      && (a.Success? && a.value.Invalid? ==> r == HttpError(401, InvalidTokenPrefix + a.value.error))
      && (r.Ok? ==> a.Success? && a.value.Valid?)
      && (a.Success? && a.value.Valid? ==>
            var user := UserId(a.value.payload);
            var run := agent(user, InjectAuthToken(query, Some(token)));
            && (UploadFails(file) ==> r == HttpError(400, FileErrorPrefix + file.value.readError.value))
            && (!UploadFails(file) && run.Failure? ==> r == HttpError(500, AgentErrorPrefix + run.error))
            && (!UploadFails(file) && run.Success? ==>
                  r == Ok(AgentReply(CleanResponse(run.value), user, if file.Some? then Some(file.value.filename) else None))))
  {
    match Config.FetchJwtSecret(reply, parse)
    case Failure(e) => HttpError(500, SecretErrorPrefix + e)
    case Success(secret) =>
      match VerifyJwtToken(token, secret, decode)
      case Invalid(e) => HttpError(401, InvalidTokenPrefix + e)
      case Valid(p) =>
        var user := UserId(p);
        if UploadFails(file) then HttpError(400, FileErrorPrefix + file.value.readError.value)
        else match agent(user, InjectAuthToken(query, Some(token)))
          case Failure(e) => HttpError(500, AgentErrorPrefix + e)
          case Success(text) =>
            Ok(AgentReply(CleanResponse(text), user, if file.Some? then Some(file.value.filename) else None))
  }

  // ---------------------------------------------------------------------
  // POST /test-api-connection

  const DefaultTestEndpoint: string := "/frameworks"
  const ConnectionSuccessMessage: string := "API connection successful"
  const ConnectionFailedPrefix: string := "API call failed with status "

  /** The `/test-api-connection` body (its constant `success: true` is left
      implicit). */
  datatype ConnectionReport = ConnectionReport(endpointTested: string, apiCallSuccess: bool, statusCode: int,
                                               authenticated: bool, message: string, dataPreview: Option<Json>)

  /** The report built from the adapter's envelope. */
  function Report(endpoint: string, env: FusefyApi.Envelope): (b: ConnectionReport)
    ensures b.endpointTested == endpoint && b.statusCode == env.status
    ensures b.apiCallSuccess == env.success
    ensures b.authenticated <==> env.status != 401
    ensures b.apiCallSuccess <==> b.message == ConnectionSuccessMessage
    ensures !b.apiCallSuccess ==> b.message == ConnectionFailedPrefix + IntToString(env.status)
    ensures b.dataPreview.Some? <==> b.apiCallSuccess
    ensures env.success && env.data.Some? ==> b.dataPreview == env.data
  {
    var message := if env.success then ConnectionSuccessMessage
                   else ConnectionFailedPrefix + IntToString(env.status);
    // "API connection successful" and "API call failed ..." first differ at index 5
    assert message[5] == if env.success then 'o' else 'a';
    ConnectionReport(endpoint, env.success, env.status, env.status != 401, message,
                     if env.success then Some(env.data.GetOr(JObj([]))) else None)
  }

  /** `send` and `parseBody` are the adapter's exchange and body decoder;
      `endpoint` is None when the form omits the field. */
  function TestApiConnection(token: string, endpoint: Option<string>, reply: Result<Config.StoreReply, string>,
                             parse: string -> Option<Json>, decode: (string, Config.Secret) -> Result<Claims, string>,
                             send: FusefyApi.Request -> FusefyApi.Exchange, parseBody: string -> Option<Json>): (r: Routed<ConnectionReport>)
    ensures var a := Authenticate(token, reply, parse, decode);
      && (a.Failure? ==> r == HttpError(500, VerificationFailedPrefix + a.error))
      && (a.Success? && a.value.Invalid? ==> r == HttpError(401, InvalidTokenPrefix + a.value.error))
      && (r.Ok? <==> a.Success? && a.value.Valid?)
    ensures r.Ok? && endpoint.None? ==> r.body.endpointTested == DefaultTestEndpoint
    ensures r.Ok? ==>
      var tested := endpoint.GetOr(DefaultTestEndpoint);
      var x := send(FusefyApi.BuildRequest(tested, "GET", None, None, Some(token), None));
      && r.body.endpointTested == tested
      && (x.Raised? ==> r.body.statusCode == 500 && !r.body.apiCallSuccess && r.body.dataPreview.None?)
      && (x.Response? ==> r.body.statusCode == x.status)
      && (r.body.apiCallSuccess <==> 200 <= r.body.statusCode < 300)
  {
    var tested := endpoint.GetOr(DefaultTestEndpoint);
    match Authenticate(token, reply, parse, decode)
    case Failure(e) => HttpError(500, VerificationFailedPrefix + e)
    case Success(Invalid(e)) => HttpError(401, InvalidTokenPrefix + e)
    case Success(Valid(_)) =>
      Ok(Report(tested, FusefyApi.CallFusefyApi(tested, "GET", None, None, Some(token), None, send, parseBody)))
  }
}
