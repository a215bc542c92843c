/** Application configuration and the two pieces of shared state: the lazily
    created HTTP session and the memoised JWT signing secret. */
module Config {
  import opened Basics

  const BaseUrl: string := "https://85tb7na8f9.execute-api.us-east-1.amazonaws.com"
  const ApiDocsUrl: string := BaseUrl + "/api-docs"

  /** Seconds. */
  const ConnectTimeout: nat := 5
  const ReadTimeout: nat := 30

  /** Declared but read by nothing in the core: there is no retry loop. */
  const MaxRetries: nat := 3
  const RetryDelay: nat := 1

  /** Declared but read by nothing: the secret cache never expires. */
  const JwtSecretCacheTtl: nat := 3600

  // ---------------------------------------------------------------------
  // SessionManager

  /** A client session: its timeouts are fixed when it is created, and
      closing it is the only change it undergoes. */
  class Session {
    var closed: bool
    const connectTimeout: nat
    const totalTimeout: nat

    constructor(connect: nat, total: nat)
      ensures !closed && connectTimeout == connect && totalTimeout == total
    {
      closed := false;
      connectTimeout := connect;
      totalTimeout := total;
    }

    method Close()
      modifies this
      ensures closed
    {
      closed := true;
    }
  }

  /** The class-level `_session` slot and its two operations. */
  class SessionManager {
    var session: Session?

    constructor()
      ensures session == null
    {
      session := null;
    }

    /** `get_session`: a null or closed session is replaced by a fresh one
        with the configured timeouts; an open one is handed back as it is. */
    method GetSession() returns (s: Session)
      modifies this
      ensures session == s && !s.closed
      ensures old(session == null || session.closed) ==>
                fresh(s) && s.connectTimeout == ConnectTimeout && s.totalTimeout == ReadTimeout
      ensures old(session != null && !session.closed) ==> s == old(session)
    {
      if session == null || session.closed {
        session := new Session(ConnectTimeout, ReadTimeout);
      }
      s := session;
    }

    /** `close_session`: only an open session is closed, and then the slot is
        emptied; a null slot or a closed session is left as it is. */
    method CloseSession()
      modifies this, session
      ensures old(session != null && !session.closed) ==> session == null && old(session).closed
      ensures old(session == null || session.closed) ==> session == old(session)
      ensures old(session) != null && old(session.closed) ==> unchanged(old(session))
    {
      if session != null && !session.closed {
        session.Close();
        session := null;
      }
    }
  }

  // ---------------------------------------------------------------------
  // get_jwt_secret

  /** The parts of the `get_secret_value` response the unwrap reads: each key
      may be absent. */
  datatype StoreReply = StoreReply(secretString: Option<string>, secretBinary: Option<seq<bv8>>)

  /** What `get_jwt_secret` can return: a string, any other JSON value found
      under `JWT_SECRET`, or the raw binary secret. */
  datatype Secret = Text(text: string) | Value(value: Json) | Binary(bytes: seq<bv8>)

  function SecretOf(j: Json): Secret {
    if j.JStr? then Text(j.s) else Value(j)
  }

  /** The secret string parses to a JSON object holding a `JWT_SECRET` key. */
  predicate HoldsJwtSecret(parsed: Option<Json>) {
    parsed.Some? && parsed.value.JObj? && HasKey(parsed.value.fields, "JWT_SECRET")
  }

  /** `json.loads(secret).get('JWT_SECRET', secret)`, where a decode error or
      a parsed value that is not a dict (no `.get`) falls back to `secret`. */
  function UnwrapSecret(secret: string, parse: string -> Option<Json>): (r: Secret)
    ensures HoldsJwtSecret(parse(secret)) ==>
              r == SecretOf(Get(parse(secret).value.fields, "JWT_SECRET").value)
    ensures !HoldsJwtSecret(parse(secret)) ==> r == Text(secret)
    ensures !r.Binary?
  {
    match parse(secret)
    case Some(JObj(fields)) =>
      (match Get(fields, "JWT_SECRET")
       case Some(j) => SecretOf(j)
       case None => Text(secret))
    case _ => Text(secret)
  }

  /** The error text of the `KeyError` raised when the reply has neither key. */
  const MissingBinaryError: string := "'SecretBinary'"

  /** One uncached run of `get_jwt_secret`: `reply` is what the secrets store
      answered, or the text of the exception it raised. */
  function FetchJwtSecret(reply: Result<StoreReply, string>, parse: string -> Option<Json>): (r: Result<Secret, string>)
    ensures reply.Failure? ==> r == Failure(reply.error)
    ensures reply.Success? && reply.value.secretString.Some? ==>
              r == Success(UnwrapSecret(reply.value.secretString.value, parse))
    ensures reply.Success? && reply.value.secretString.None? ==>
              (r.Success? <==> reply.value.secretBinary.Some?)
    ensures r.Success? && r.value.Binary? ==>
              reply.Success? && reply.value.secretString.None? && reply.value.secretBinary == Some(r.value.bytes)
    ensures r.Failure? && reply.Success? ==> r.error == MissingBinaryError
    ensures reply.Success? && reply.value.secretString.None? && reply.value.secretBinary.Some? ==>
              r == Success(Binary(reply.value.secretBinary.value))
  {
    match reply
    case Failure(e) => Failure(e)
    case Success(rep) =>
      if rep.secretString.Some? then Success(UnwrapSecret(rep.secretString.value, parse))
      else if rep.secretBinary.Some? then Success(Binary(rep.secretBinary.value))
      else Failure(MissingBinaryError)
  }

  /** The `lru_cache(maxsize=1)` around `get_jwt_secret`: the first successful
      result is kept for good; a raised error is not cached. */
  class JwtSecretCache {
    var cached: Option<Secret>
    ghost var fetches: nat

    constructor()
      ensures cached.None? && fetches == 0
    {
      cached := None;
      fetches := 0;
    }

    /** `reply` stands for what the store would answer if it were asked now. */
    method GetJwtSecret(reply: Result<StoreReply, string>, parse: string -> Option<Json>) returns (r: Result<Secret, string>)
      modifies this
      ensures old(cached).Some? ==> r == Success(old(cached).value) && cached == old(cached) && fetches == old(fetches)
      ensures old(cached).None? ==> r == FetchJwtSecret(reply, parse) && fetches == old(fetches) + 1
      ensures old(cached).None? ==> cached == if r.Success? then Some(r.value) else None
      ensures cached.Some? && r.Success? ==> r.value == cached.value
    {
      if cached.Some? {
        return Success(cached.value);
      }
      fetches := fetches + 1;
      r := FetchJwtSecret(reply, parse);
      if r.Success? {
        cached := Some(r.value);
      }
    }
  }
}
