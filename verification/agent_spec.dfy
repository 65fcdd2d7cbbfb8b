/**
 * A flat reference for the agent's request pipeline: eighteen independent
 * checks on the raw request, in the order the agent applies them. The verdict
 * is the refusal of the first check that fails, or the invocation of the
 * addressed handler when none does. `HandleOneRequestMatchesChecks` proves the
 * staged pipeline of module `Agent` equal to this reference; the remaining
 * lemmas state the individual promises of the pipeline in terms of the stages
 * a request passes through.
 */
module AgentSpec {
  import opened Wrappers
  import opened Json
  import opened Protocol
  import opened Agent
  import Text

  datatype Check =
    | LineArrives       // the request line was read before the timeout
    | LineWithinCap     // it is at most 65536 bytes long
    | LineNonEmpty      // the peer did not disconnect
    | HeadersValid      // parse_request accepted the request
    | LengthPresent     // a Content-Length header is present
    | LengthNumeric     // int() accepts it
    | LengthFitsSsize   // which fits a ssize_t, so rfile.read does not raise OverflowError
    | LengthNotBelowEof // and is at least -1, so rfile.read does not raise ValueError
    | BodyArrives       // the body was read before the timeout
    | PlaintextNonEmpty // GPG decrypted the body to a non-empty text
    | Signed            // by a key in the local key store
    | ParamsAreJson     // json.loads accepts the plaintext
    | ParamsAreObject   // which is a JSON object
    | ActionPresent     // with an 'action' key
    | ActionIsString    // whose value is a string
    | ActionHasDot      // containing a '.'
    | ModuleKnown       // the text before the last '.' names a module
    | MethodKnown       // which has 'do_' + the lower-cased rest

  const Checks: seq<Check> := [
    LineArrives, LineWithinCap, LineNonEmpty, HeadersValid, LengthPresent, LengthNumeric,
    LengthFitsSsize, LengthNotBelowEof, BodyArrives, PlaintextNonEmpty, Signed, ParamsAreJson, ParamsAreObject, ActionPresent,
    ActionIsString, ActionHasDot, ModuleKnown, MethodKnown]

  // What the request yields at each phase, with a neutral default where an
  // earlier check already failed.

  function BodyText(req: Request): string {
    if req.body.Got? then req.body.value else ""
  }

  function Clear(env: Env, req: Request): Decryption {
    env.decrypt(BodyText(req))
  }

  function Params(env: Env, req: Request): Value {
    env.loads(Clear(env, req).plaintext).GetOr(JNull)
  }

  function Fields(env: Env, req: Request): map<string, Value> {
    var p := Params(env, req);
    if p.JObject? then p.fields else map[]
  }

  function ActionText(env: Env, req: Request): string {
    var f := Fields(env, req);
    if "action" in f && f["action"].JStr? then f["action"].s else ""
  }

  function Address(env: Env, req: Request): (string, string) {
    Text.RSplitOnce(ActionText(env, req), '.').GetOr(("", ""))
  }

  predicate Holds(env: Env, req: Request, c: Check) {
    match c
    case LineArrives => req.requestLine.Got?
    case LineWithinCap => !(req.requestLine.Got? && req.requestLine.value > MaxRequestLine)
    case LineNonEmpty => req.requestLine != Got(0)
    case HeadersValid => req.headers.HeadersAccepted?
    case LengthPresent => req.contentLength.Some?
    case LengthNumeric => req.contentLength.None? || env.parseInt(req.contentLength.value).Some?
    case LengthFitsSsize =>
      req.contentLength.None? || env.parseInt(req.contentLength.value).None?
      || -SsizeLimit <= env.parseInt(req.contentLength.value).value < SsizeLimit
    case LengthNotBelowEof =>
      req.contentLength.None? || env.parseInt(req.contentLength.value).None?
      || env.parseInt(req.contentLength.value).value >= -1
    case BodyArrives => req.body.Got?
    case PlaintextNonEmpty => Clear(env, req).plaintext != ""
    case Signed => Clear(env, req).signer.Some?
    case ParamsAreJson => env.loads(Clear(env, req).plaintext).Some?
    case ParamsAreObject => Params(env, req).JObject?
    case ActionPresent => "action" in Fields(env, req)
    case ActionIsString => "action" !in Fields(env, req) || Fields(env, req)["action"].JStr?
    case ActionHasDot => '.' in ActionText(env, req)
    case ModuleKnown => Address(env, req).0 in env.registry
    case MethodKnown =>
      Address(env, req).0 !in env.registry
      || MethodName(Address(env, req).1) in env.registry[Address(env, req).0]
  }

  /** What the agent does when check `c` is the first to fail. */
  function Refusal(req: Request, c: Check): Verdict {
    match c
    case LineArrives => CloseSilently
    case LineWithinCap => SendError(414, "Request entity too large")
    case LineNonEmpty => CloseSilently
    case HeadersValid =>
      if req.headers.HeadersRejected? && req.headers.error.Some?
      then SendError(req.headers.error.value.0, req.headers.error.value.1)
      else CloseSilently
    case LengthPresent => SendError(400, "No parameters")
    case LengthNumeric => Uncaught(ValueError)
    case LengthFitsSsize => Uncaught(OverflowError)
    case LengthNotBelowEof => Uncaught(ValueError)
    case BodyArrives => CloseSilently
    case PlaintextNonEmpty => SendError(403, "Access denied")
    case Signed => SendError(403, "Access denied")
    case ParamsAreJson => SendError(400, "Invalid parameters")
    case ParamsAreObject => Uncaught(TypeError)
    case ActionPresent => Uncaught(KeyError)
    case ActionIsString => Uncaught(AttributeError)
    case ActionHasDot => Uncaught(ValueError)
    case ModuleKnown => SendError(501, "Unsupported module")
    case MethodKnown => SendError(405, "Unsupported method")
  }

  /** The position of each check in `Checks`. */
  function Index(c: Check): nat {
    match c
    case LineArrives => 0
    case LineWithinCap => 1
    case LineNonEmpty => 2
    case HeadersValid => 3
    case LengthPresent => 4
    case LengthNumeric => 5
    case LengthFitsSsize => 6
    case LengthNotBelowEof => 7
    case BodyArrives => 8
    case PlaintextNonEmpty => 9
    case Signed => 10
    case ParamsAreJson => 11
    case ParamsAreObject => 12
    case ActionPresent => 13
    case ActionIsString => 14
    case ActionHasDot => 15
    case ModuleKnown => 16
    case MethodKnown => 17
  }

  /** The first check from index `k` on that fails. */
  function FirstFailure(env: Env, req: Request, k: nat): (r: Option<Check>)
    decreases |Checks| - k
    ensures r.Some? ==> k <= Index(r.value) < |Checks| && Checks[Index(r.value)] == r.value
    ensures r.Some? ==> !Holds(env, req, r.value)
  {
    if k >= |Checks| then None
    else if !Holds(env, req, Checks[k]) then Some(Checks[k])
    else FirstFailure(env, req, k + 1)
  }

  /** Every check before index `k` holds. */
  predicate Reaches(env: Env, req: Request, k: nat) {
    forall i :: 0 <= i < k && i < |Checks| ==> Holds(env, req, Checks[i])
  }

  /** The call the agent makes when every check holds. */
  function AdmittedCall(env: Env, req: Request): Call {
    var addr := Address(env, req);
    Call(addr.0, MethodName(addr.1), HandlerParams(Fields(env, req)),
         Clear(env, req).signer.GetOr(""), env.secretKey)
  }

  function ExpectedFrom(env: Env, req: Request, k: nat): Verdict {
    match FirstFailure(env, req, k)
    case Some(c) => Refusal(req, c)
    case None => Invoke(AdmittedCall(env, req))
  }

  /** The reference verdict for a request. */
  function Expected(env: Env, req: Request): Verdict {
    ExpectedFrom(env, req, 0)
  }

  /** The first failing check is `Checks[k]` exactly when the checks before it
      hold and it does not. */
  lemma {:induction false} FirstFailureIsFirst(env: Env, req: Request, j: nat, k: nat)
    requires j <= k < |Checks|
    requires Reaches(env, req, j)
    ensures FirstFailure(env, req, j) == Some(Checks[k]) <==>
              Reaches(env, req, k) && !Holds(env, req, Checks[k])
    decreases k - j
  {
    if j < k && Holds(env, req, Checks[j]) {
      FirstFailureIsFirst(env, req, j + 1, k);
    } else if j < k {
      EarlierFailureIsFirst(env, req, j, k);
    } else {
      FirstFailureAt(env, req, k);
    }
  }

  /** A failure before `k` is found first, so `Checks[k]` is not the first failure. */
  lemma EarlierFailureIsFirst(env: Env, req: Request, j: nat, k: nat)
    requires j < k < |Checks| && !Holds(env, req, Checks[j])
    ensures FirstFailure(env, req, j) == Some(Checks[j]) != Some(Checks[k])
    ensures !Reaches(env, req, k)
  {
    IndexOfCheck(j);
    IndexOfCheck(k);
  }

  /** From `k` on, the first failure is `Checks[k]` iff that check fails. */
  lemma FirstFailureAt(env: Env, req: Request, k: nat)
    requires k < |Checks|
    ensures FirstFailure(env, req, k) == Some(Checks[k]) <==> !Holds(env, req, Checks[k])
  {
    if Holds(env, req, Checks[k]) {
      IndexOfCheck(k);
      var r := FirstFailure(env, req, k + 1);
      assert r.Some? ==> Index(r.value) > k;
    }
  }

  lemma IndexOfCheck(i: nat)
    requires i < |Checks|
    ensures Index(Checks[i]) == i
  {
  }

  /** No check fails exactly when all of them hold. */
  lemma {:induction false} NoFailureIffAllHold(env: Env, req: Request, j: nat)
    requires j <= |Checks|
    requires Reaches(env, req, j)
    ensures FirstFailure(env, req, j).None? <==> Reaches(env, req, |Checks|)
    decreases |Checks| - j
  {
    if j < |Checks| && Holds(env, req, Checks[j]) {
      NoFailureIffAllHold(env, req, j + 1);
    }
  }

  // ---- The staged pipeline agrees with the reference --------------------

  lemma PassCheck(env: Env, req: Request, k: nat)
    requires k < |Checks| && Holds(env, req, Checks[k])
    ensures ExpectedFrom(env, req, k) == ExpectedFrom(env, req, k + 1)
  {
  }

  lemma FailCheck(env: Env, req: Request, k: nat)
    requires k < |Checks| && !Holds(env, req, Checks[k])
    ensures ExpectedFrom(env, req, k) == Refusal(req, Checks[k])
  {
  }

  /** Check `c` sits at position `Index(c)`. */
  lemma CheckAtIndex(c: Check)
    ensures Index(c) < |Checks| && Checks[Index(c)] == c
  {
  }

  lemma Pass(env: Env, req: Request, c: Check)
    requires Holds(env, req, c)
    ensures ExpectedFrom(env, req, Index(c)) == ExpectedFrom(env, req, Index(c) + 1)
  {
    CheckAtIndex(c);
    PassCheck(env, req, Index(c));
  }

  lemma Fail(env: Env, req: Request, c: Check)
    requires !Holds(env, req, c)
    ensures ExpectedFrom(env, req, Index(c)) == Refusal(req, c)
  {
    CheckAtIndex(c);
    FailCheck(env, req, Index(c));
  }

  lemma FromAddressed(env: Env, req: Request, s: Stage)
    requires Holds(env, req, ParamsAreJson) && Holds(env, req, ParamsAreObject)
    requires Holds(env, req, Signed)
    requires s == Addressed(Fields(env, req), Address(env, req).0, Address(env, req).1,
                            Clear(env, req).signer.value)
    ensures Outcome(env, req, s) == ExpectedFrom(env, req, 16)
  {
    if !Holds(env, req, Checks[16]) {
      Fail(env, req, ModuleKnown);
    } else {
      Pass(env, req, ModuleKnown);
      FromModuleKnown(env, req, s);
    }
  }

  lemma FromModuleKnown(env: Env, req: Request, s: Stage)
    requires Holds(env, req, ParamsAreJson) && Holds(env, req, ParamsAreObject)
    requires Holds(env, req, Signed) && Holds(env, req, ModuleKnown)
    requires s == Addressed(Fields(env, req), Address(env, req).0, Address(env, req).1,
                            Clear(env, req).signer.value)
    ensures Outcome(env, req, s) == ExpectedFrom(env, req, 17)
  {
    if !Holds(env, req, Checks[17]) {
      Fail(env, req, MethodKnown);
    } else {
      Pass(env, req, MethodKnown);
    }
  }


  lemma FromDecoded(env: Env, req: Request, s: Stage)
    requires Holds(env, req, ParamsAreJson) && Holds(env, req, Signed)
    requires s == Decoded(Params(env, req), Clear(env, req).signer.value)
    ensures Outcome(env, req, s) == ExpectedFrom(env, req, 12)
  {
    var p := Params(env, req);
    if !p.JObject? {
      Fail(env, req, ParamsAreObject);
    } else {
      Pass(env, req, ParamsAreObject);
      if "action" !in p.fields {
        Fail(env, req, ActionPresent);
      } else {
        Pass(env, req, ActionPresent);
        FromAction(env, req, s);
      }
    }
  }

  lemma FromAction(env: Env, req: Request, s: Stage)
    requires Holds(env, req, ParamsAreJson) && Holds(env, req, Signed)
    requires Params(env, req).JObject? && "action" in Params(env, req).fields
    requires s == Decoded(Params(env, req), Clear(env, req).signer.value)
    ensures Outcome(env, req, s) == ExpectedFrom(env, req, 14)
  {
    if !Params(env, req).fields["action"].JStr? {
      Fail(env, req, ActionIsString);
    } else {
      Pass(env, req, ActionIsString);
      FromActionText(env, req, s);
    }
  }

  lemma FromActionText(env: Env, req: Request, s: Stage)
    requires Holds(env, req, ParamsAreJson) && Holds(env, req, Signed)
    requires Params(env, req).JObject? && "action" in Params(env, req).fields
    requires Params(env, req).fields["action"].JStr?
    requires s == Decoded(Params(env, req), Clear(env, req).signer.value)
    ensures Outcome(env, req, s) == ExpectedFrom(env, req, 15)
  {
    var f := Params(env, req).fields;
    var a := f["action"].s;
    assert ActionText(env, req) == a;
    if Text.RSplitOnce(a, '.').None? {
      Fail(env, req, ActionHasDot);
    } else {
      Pass(env, req, ActionHasDot);
      var next := Addressed(f, Address(env, req).0, Address(env, req).1, Clear(env, req).signer.value);
      assert Step(env, req, s) == next;
      FromAddressed(env, req, next);
    }
  }


  lemma FromBody(env: Env, req: Request)
    requires req.body.Got?
    ensures Outcome(env, req, BodyRead(req.body.value)) == ExpectedFrom(env, req, 9)
  {
    var s := BodyRead(req.body.value);
    var clear := Clear(env, req);
    if clear.plaintext == "" {
      Fail(env, req, PlaintextNonEmpty);
    } else if clear.signer.None? {
      Pass(env, req, PlaintextNonEmpty);
      Fail(env, req, Signed);
    } else {
      Pass(env, req, PlaintextNonEmpty);
      Pass(env, req, Signed);
      var next := Step(env, req, s);
      assert next == Authenticated(clear.plaintext, clear.signer.value);
      if env.loads(clear.plaintext).None? {
        Fail(env, req, ParamsAreJson);
      } else {
        Pass(env, req, ParamsAreJson);
        FromDecoded(env, req, Step(env, req, next));
      }
    }
  }

  lemma FromLineRead(env: Env, req: Request)
    ensures Outcome(env, req, LineRead) == ExpectedFrom(env, req, 3)
  {
    if !req.headers.HeadersAccepted? {
      Fail(env, req, HeadersValid);
    } else {
      Pass(env, req, HeadersValid);
      assert Step(env, req, LineRead) == HeadersParsed;
      FromHeadersParsed(env, req);
    }
  }

  lemma FromHeadersParsed(env: Env, req: Request)
    ensures Outcome(env, req, HeadersParsed) == ExpectedFrom(env, req, 4)
  {
    if req.contentLength.None? {
      Fail(env, req, LengthPresent);
    } else {
      Pass(env, req, LengthPresent);
      FromLengthPresent(env, req);
    }
  }

  lemma FromLengthPresent(env: Env, req: Request)
    requires req.contentLength.Some?
    ensures Outcome(env, req, HeadersParsed) == ExpectedFrom(env, req, 5)
  {
    if env.parseInt(req.contentLength.value).None? {
      Fail(env, req, LengthNumeric);
    } else {
      Pass(env, req, LengthNumeric);
      FromLengthParsed(env, req);
    }
  }

  lemma FromLengthParsed(env: Env, req: Request)
    requires req.contentLength.Some? && env.parseInt(req.contentLength.value).Some?
    ensures Outcome(env, req, HeadersParsed) == ExpectedFrom(env, req, 6)
  {
    var n := env.parseInt(req.contentLength.value).value;
    if !(-SsizeLimit <= n < SsizeLimit) {
      Fail(env, req, LengthFitsSsize);
    } else {
      Pass(env, req, LengthFitsSsize);
      if n < -1 {
        Fail(env, req, LengthNotBelowEof);
      } else {
        Pass(env, req, LengthNotBelowEof);
        FromLengthReadable(env, req);
      }
    }
  }

  lemma FromLengthReadable(env: Env, req: Request)
    requires req.contentLength.Some? && env.parseInt(req.contentLength.value).Some?
    requires -1 <= env.parseInt(req.contentLength.value).value < SsizeLimit
    ensures Outcome(env, req, HeadersParsed) == ExpectedFrom(env, req, 8)
  {
    if req.body.TimedOut? {
      Fail(env, req, BodyArrives);
    } else {
      Pass(env, req, BodyArrives);
      assert Step(env, req, HeadersParsed) == BodyRead(req.body.value);
      FromBody(env, req);
    }
  }

  /** The staged pipeline and the flat list of checks decide alike on every request. */
  lemma HandleOneRequestMatchesChecks(env: Env, req: Request)
    ensures HandleOneRequest(env, req) == Expected(env, req)
  {
    assert HandleOneRequest(env, req) == Outcome(env, req, Start);
    FromStart(env, req);
  }

  lemma FromStart(env: Env, req: Request)
    ensures Outcome(env, req, Start) == ExpectedFrom(env, req, 0)
  {
    if req.requestLine.TimedOut? {
      Fail(env, req, LineArrives);
    } else {
      Pass(env, req, LineArrives);
      if req.requestLine.value > MaxRequestLine {
        Fail(env, req, LineWithinCap);
      } else {
        Pass(env, req, LineWithinCap);
        if req.requestLine.value == 0 {
          Fail(env, req, LineNonEmpty);
        } else {
          Pass(env, req, LineNonEmpty);
          FromLineRead(env, req);
        }
      }
    }
  }
}
