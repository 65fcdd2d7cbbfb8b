/**
 * The agent daemon's per-connection request pipeline
 * (`AgentRequestHandler.handle_one_request` and `send_error`) and its startup
 * key selection (`Agent._init_gpg`).
 *
 * A connection is driven through a small state machine whose stages are the
 * phases of `handle_one_request`. Every check short-circuits to a terminal
 * `Done` stage carrying the verdict; a request that passes them all ends in an
 * `Invoke` verdict naming the handler to run and the key pair to answer with.
 * The network reads, the HTTP header parser, GPG and the JSON decoder are
 * inputs: the request records what the reads returned, and `Env` supplies the
 * decoder functions and the module registry.
 */
module Agent {
  import opened Wrappers
  import opened Json
  import opened Protocol
  import Text

  /** `readline(65537)` followed by the length check: longer lines are refused. */
  const MaxRequestLine: nat := 65536

  /**
   * 2^63: a C `ssize_t` holds exactly the `n` with `-SsizeLimit <= n < SsizeLimit`.
   * `rfile.read(n)` on the handler's buffered reader first converts `n` to a
   * `ssize_t`, raising OverflowError when it does not fit, and then raises
   * ValueError for any `n < -1`; `n == -1` reads to the end. Both errors come
   * before anything is read.
   */
  const SsizeLimit: int := 0x8000_0000_0000_0000

  /** What a socket read produced: data, or the configured timeout expired. */
  datatype Read<T> = Got(value: T) | TimedOut

  /**
   * The outcome of the HTTP library's `parse_request`, which is not part of
   * this model: accepted, or refused after (optionally) sending an error with
   * the given code and message.
   */
  datatype HeaderParse = HeadersAccepted | HeadersRejected(error: Option<(int, string)>)

  /** One request as read from the connection. */
  datatype Request = Request(
    requestLine: Read<nat>,          // length in bytes of the request line
    headers: HeaderParse,
    contentLength: Option<string>,   // the Content-Length header, when present
    body: Read<string>)              // the body as read with that length

  /**
   * The agent's environment. `registry` maps each module name under
   * `hypernova.modules` that has an `AgentRequestHandler` to the names of its
   * `do_` methods; `secretKey` is the fingerprint chosen at startup;
   * `parseInt`, `decrypt` and `loads` are Python's `int`, GPG's decrypt and
   * `json.loads`, each `None` where the Python call raises; `encrypts` says
   * whether GPG's encrypt call succeeds on the given data, recipient and signer.
   *
   * `secretKey` is the fingerprint of the key `SelectSecretKey` chose, which
   * by that method's contract is the configured fingerprint.
   */
  datatype Env = Env(
    registry: map<string, set<string>>,
    secretKey: Fingerprint,
    parseInt: string -> Option<int>,
    decrypt: string -> Decryption,
    loads: string -> Option<Value>,
    encrypts: (Wire, Fingerprint, Fingerprint) -> bool)

  /** A resolved action: call `moduleName`'s `handler` with `params`, then encrypt
      the serialised result to `recipient`, signed by `signer`. */
  datatype Call = Call(moduleName: string, handler: string, params: Value, recipient: Fingerprint, signer: Fingerprint)

  datatype Verdict =
    | CloseSilently               // mark the connection to close, write nothing
    | SendError(code: int, message: string)
    | Uncaught(error: Exception)  // an exception escapes handle_one_request
    | Invoke(call: Call)

  /** The phases of handle_one_request; `Done` is terminal. */
  datatype Stage =
    | Start
    | LineRead
    | HeadersParsed
    | BodyRead(body: string)
    | Authenticated(plaintext: string, signer: Fingerprint)
    | Decoded(params: Value, signer: Fingerprint)
    | Addressed(fields: map<string, Value>, moduleName: string, action: string, signer: Fingerprint)
    | Done(verdict: Verdict)

  /** Stages are totally ordered: each step moves strictly forward. */
  function Rank(s: Stage): nat {
    match s
    case Start => 7
    case LineRead => 6
    case HeadersParsed => 5
    case BodyRead(_) => 4
    case Authenticated(_, _) => 3
    case Decoded(_, _) => 2
    case Addressed(_, _, _, _) => 1
    case Done(_) => 0
  }

  /** The handler method an action names: `'do_' + action.lower()`. */
  function MethodName(action: string): string {
    "do_" + Text.Lower(action)
  }

  /** `params['parameters']`, or `{}` when the key is absent. */
  function HandlerParams(fields: map<string, Value>): (p: Value)
    ensures "parameters" in fields ==> p == fields["parameters"]
    ensures "parameters" !in fields ==> p == Empty
  {
    if "parameters" in fields then fields["parameters"] else Empty
  }

  /** One phase of handle_one_request. */
  function Step(env: Env, req: Request, s: Stage): (r: Stage)
    requires !s.Done?
    ensures Rank(r) < Rank(s)
    ensures r.Done? && r.verdict.Invoke? ==>
      var c := r.verdict.call;
      c.moduleName in env.registry && c.handler in env.registry[c.moduleName] && c.signer == env.secretKey
    ensures r.Done? && r.verdict.SendError? && s.Start? ==> r.verdict.code == 414
    ensures r.Done? && r.verdict.SendError? && !s.Start? && !s.LineRead? ==> r.verdict.code in {400, 403, 405, 501}
    ensures r.BodyRead? ==>
      && req.contentLength.Some? && env.parseInt(req.contentLength.value).Some?
      && -1 <= env.parseInt(req.contentLength.value).value < SsizeLimit
      && req.body == Got(r.body)
  {
    match s
    case Start =>
      (match req.requestLine
       case TimedOut => Done(CloseSilently)
       case Got(n) =>
         if n > MaxRequestLine then Done(SendError(414, "Request entity too large"))
         else if n == 0 then Done(CloseSilently)
         else LineRead)
    case LineRead =>
      (match req.headers
       case HeadersAccepted => HeadersParsed
       case HeadersRejected(None) => Done(CloseSilently)
       case HeadersRejected(Some(e)) => Done(SendError(e.0, e.1)))
    case HeadersParsed =>
      (match req.contentLength
       case None => Done(SendError(400, "No parameters"))
       case Some(text) =>
         if env.parseInt(text).None? then Done(Uncaught(ValueError))
         else if !(-SsizeLimit <= env.parseInt(text).value < SsizeLimit) then Done(Uncaught(OverflowError))
         else if env.parseInt(text).value < -1 then Done(Uncaught(ValueError))
         else if req.body.TimedOut? then Done(CloseSilently)
         else BodyRead(req.body.value))
    case BodyRead(b) =>
      var clear := env.decrypt(b);
      if clear.plaintext == "" then Done(SendError(403, "Access denied"))
      else if clear.signer.None? then Done(SendError(403, "Access denied"))
      else Authenticated(clear.plaintext, clear.signer.value)
    case Authenticated(plain, fp) =>
      (match env.loads(plain)
       case None => Done(SendError(400, "Invalid parameters"))
       case Some(v) => Decoded(v, fp))
    case Decoded(v, fp) =>
      if !v.JObject? then Done(Uncaught(TypeError))
      else if "action" !in v.fields then Done(Uncaught(KeyError))
      else if !v.fields["action"].JStr? then Done(Uncaught(AttributeError))
      else
        (match Text.RSplitOnce(v.fields["action"].s, '.')
         case None => Done(Uncaught(ValueError))
         case Some(parts) => Addressed(v.fields, parts.0, parts.1, fp))
    case Addressed(fields, m, action, fp) =>
      if m !in env.registry then Done(SendError(501, "Unsupported module"))
      else if MethodName(action) !in env.registry[m] then Done(SendError(405, "Unsupported method"))
      else Done(Invoke(Call(m, MethodName(action), HandlerParams(fields), fp, env.secretKey)))
  }

  /** The stages a connection passes through from `s` on, ending at the first `Done`. */
  function Run(env: Env, req: Request, s: Stage): (t: seq<Stage>)
    decreases Rank(s)
    ensures 1 <= |t| <= Rank(s) + 1
    ensures t[0] == s && t[|t| - 1].Done?
    ensures forall i :: 0 <= i < |t| - 1 ==> !t[i].Done? && t[i + 1] == Step(env, req, t[i])
  {
    if s.Done? then [s] else [s] + Run(env, req, Step(env, req, s))
  }

  /** The stages of one request, from the start. */
  function Trace(env: Env, req: Request): seq<Stage> {
    Run(env, req, Start)
  }

  /** The verdict a connection at stage `s` ends with. */
  function Outcome(env: Env, req: Request, s: Stage): (v: Verdict)
    requires !s.Done?
    decreases Rank(s)
    ensures v.Invoke? ==>
      v.call.moduleName in env.registry && v.call.handler in env.registry[v.call.moduleName]
      && v.call.signer == env.secretKey
    ensures v.SendError? && !s.Start? && !s.LineRead? ==> v.code in {400, 403, 405, 501}
  {
    var next := Step(env, req, s);
    if next.Done? then next.verdict else Outcome(env, req, next)
  }

  /** `handle_one_request`: what the agent decides to do with one request. */
  function HandleOneRequest(env: Env, req: Request): (v: Verdict)
    ensures v.Invoke? ==>
      v.call.moduleName in env.registry && v.call.handler in env.registry[v.call.moduleName]
      && v.call.signer == env.secretKey
    ensures v.SendError? && req.headers.HeadersAccepted? ==> v.code in {400, 403, 405, 414, 501}
  {
    Outcome(env, req, Start)
  }

  /** The trace of a request ends in the verdict the pipeline returns. */
  lemma {:induction false} TraceEndsInOutcome(env: Env, req: Request, s: Stage)
    requires !s.Done?
    decreases Rank(s)
    ensures var t := Run(env, req, s); t[|t| - 1] == Done(Outcome(env, req, s))
  {
    var next := Step(env, req, s);
    assert Run(env, req, s) == [s] + Run(env, req, next);
    if !next.Done? {
      TraceEndsInOutcome(env, req, next);
    }
  }

  /** The headers `send_error` sets (`error_content_type` is the HTTP library's default). */
  const ErrorContentType: string := "text/html;charset=utf-8"

  /**
   * `send_error(code, message)`: the status line carries `code` and `message`,
   * the connection is closed, and the body is the serialisation of an empty,
   * failed result with the same code, neither encrypted nor signed.
   */
  function ErrorResponse(code: int, message: string): (r: HttpResponse)
    ensures r.status == code && r.reason == message
    ensures ("Connection", "close") in r.headers
    ensures r.body.Plain?
    ensures r.body.text.result.code == r.status
    ensures !r.body.text.result.success && r.body.text.result.payload == Empty
  {
    HttpResponse(code, message, [("Content-Type", ErrorContentType), ("Connection", "close")],
                 Plain(Serialised(ActionResult(Empty, false, code, ""))))
  }

  /**
   * The reply to an invoked call: status 200 (sent before the handler runs)
   * and the handler's serialised result, encrypted to the request's signer and
   * signed with the agent's key. The encryption is not checked: when it fails
   * the 200 goes out with an empty body.
   */
  function SuccessResponse(env: Env, call: Call, result: ActionResult): (r: HttpResponse)
    ensures r.status == 200
    ensures env.encrypts(Serialised(result), call.recipient, call.signer) ==>
      r.body == Sealed(Serialised(result), call.recipient, call.signer)
    ensures !env.encrypts(Serialised(result), call.recipient, call.signer) ==> r.body == Blank
  {
    var body := if env.encrypts(Serialised(result), call.recipient, call.signer)
                then Sealed(Serialised(result), call.recipient, call.signer)
                else Blank;
    HttpResponse(200, "OK", [("Content-Type", "application/json")], body)
  }

  /** A secret key as `list_keys(True)` describes it: several keys may share
      a fingerprint in the listing, and they differ in the other fields. */
  datatype Key = Key(fingerprint: Fingerprint, keyid: string, uids: seq<string>)

  /** `sys.exit(78)` when no secret key matches the configured fingerprint. */
  const ConfigErrorStatus: int := 78

  /**
   * `_init_gpg`: the first secret key whose fingerprint is the configured one,
   * or exit status 78 when there is none.
   */
  method SelectSecretKey(secrets: seq<Key>, configured: Fingerprint) returns (r: Result<Key, int>)
    ensures r.Success? <==> exists i :: 0 <= i < |secrets| && secrets[i].fingerprint == configured
    ensures r.Success? ==> r.value.fingerprint == configured
    ensures r.Success? ==>
      exists i :: 0 <= i < |secrets| && secrets[i] == r.value
                  && forall j :: 0 <= j < i ==> secrets[j].fingerprint != configured
    ensures r.Failure? ==> r.error == ConfigErrorStatus
  {
    var i := 0;
    while i < |secrets|
      invariant 0 <= i <= |secrets|
      invariant forall j :: 0 <= j < i ==> secrets[j].fingerprint != configured
    {
      if secrets[i].fingerprint == configured {
        return Success(secrets[i]);
      }
      i := i + 1;
    }
    return Failure(ConfigErrorStatus);
  }
}
