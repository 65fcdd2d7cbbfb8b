/**
 * The promises of the agent's request pipeline, one lemma each: which check
 * produces which verdict, and which stages a refused request never reaches.
 */
module AgentProperties {
  import opened Wrappers
  import opened Json
  import opened Protocol
  import opened Agent
  import opened AgentSpec
  import Text

  /** The verdict is the refusal of the first failing check. */
  lemma RefusedByFirstFailingCheck(env: Env, req: Request, k: nat)
    requires k < |Checks| && Reaches(env, req, k) && !Holds(env, req, Checks[k])
    ensures HandleOneRequest(env, req) == Refusal(req, Checks[k])
  {
    HandleOneRequestMatchesChecks(env, req);
    FirstFailureIsFirst(env, req, 0, k);
  }

  /** A request line over 65536 bytes is answered with 414 and nothing else happens. */
  lemma OversizedLineRefused(env: Env, req: Request)
    requires req.requestLine.Got? && req.requestLine.value > MaxRequestLine
    ensures Trace(env, req) == [Start, Done(SendError(414, "Request entity too large"))]
  {
    assert Run(env, req, Start) == [Start] + Run(env, req, Step(env, req, Start));
  }

  /** An empty request line closes the connection without any response. */
  lemma EmptyLineClosesSilently(env: Env, req: Request)
    requires req.requestLine == Got(0)
    ensures Trace(env, req) == [Start, Done(CloseSilently)]
  {
    assert Run(env, req, Start) == [Start] + Run(env, req, Step(env, req, Start));
  }

  /** Without Content-Length the answer is 400 and the body is never read or decrypted. */
  lemma MissingLengthRefusedBeforeDecrypt(env: Env, req: Request)
    requires Reaches(env, req, 4) && req.contentLength.None?
    ensures Trace(env, req) == [Start, LineRead, HeadersParsed, Done(SendError(400, "No parameters"))]
  {
    assert Holds(env, req, Checks[0]) && Holds(env, req, Checks[1]) && Holds(env, req, Checks[2]);
    assert Holds(env, req, Checks[3]);
    assert Run(env, req, Start) == [Start] + Run(env, req, LineRead);
    assert Run(env, req, LineRead) == [LineRead] + Run(env, req, HeadersParsed);
  }

  /** What the framing checks say about the request itself. */
  lemma {:induction false} FramingFacts(env: Env, req: Request)
    requires Reaches(env, req, 9)
    ensures req.requestLine.Got? && 0 < req.requestLine.value <= MaxRequestLine
    ensures req.headers.HeadersAccepted?
    ensures req.contentLength.Some? && env.parseInt(req.contentLength.value).Some?
    ensures -1 <= env.parseInt(req.contentLength.value).value < SsizeLimit
    ensures req.body.Got?
  {
    assert Holds(env, req, Checks[0]) && Holds(env, req, Checks[1]) && Holds(env, req, Checks[2]);
    assert Holds(env, req, Checks[3]) && Holds(env, req, Checks[4]) && Holds(env, req, Checks[5]);
    assert Holds(env, req, Checks[6]) && Holds(env, req, Checks[7]) && Holds(env, req, Checks[8]);
  }

  /** A well-framed request reaches the decryption of its body. */
  lemma {:induction false} FramedRunsToBody(env: Env, req: Request)
    requires req.requestLine.Got? && 0 < req.requestLine.value <= MaxRequestLine
    requires req.headers.HeadersAccepted?
    requires req.contentLength.Some? && env.parseInt(req.contentLength.value).Some?
    requires -1 <= env.parseInt(req.contentLength.value).value < SsizeLimit
    requires req.body.Got?
    ensures Trace(env, req) == [Start, LineRead, HeadersParsed] + Run(env, req, BodyRead(req.body.value))
  {
    var rest := Run(env, req, BodyRead(req.body.value));
    FramedSteps(env, req);
    RunUnfolds(env, req, HeadersParsed);
    RunUnfolds(env, req, LineRead);
    RunUnfolds(env, req, Start);
    assert Run(env, req, Start) == [Start] + ([LineRead] + ([HeadersParsed] + rest));
  }

  /** A stage that is not final is followed by the run from its successor. */
  lemma RunUnfolds(env: Env, req: Request, s: Stage)
    requires !s.Done?
    ensures Run(env, req, s) == [s] + Run(env, req, Step(env, req, s))
  {
  }

  lemma {:induction false} FramedSteps(env: Env, req: Request)
    requires req.requestLine.Got? && 0 < req.requestLine.value <= MaxRequestLine
    requires req.headers.HeadersAccepted?
    requires req.contentLength.Some? && env.parseInt(req.contentLength.value).Some?
    requires -1 <= env.parseInt(req.contentLength.value).value < SsizeLimit
    requires req.body.Got?
    ensures Step(env, req, Start) == LineRead
    ensures Step(env, req, LineRead) == HeadersParsed
    ensures Step(env, req, HeadersParsed) == BodyRead(req.body.value)
  {
  }

  /**
   * An empty plaintext or a missing signer is answered with 403: the JSON
   * decoder and the dispatcher are never reached.
   */
  lemma UnauthenticatedRefused(env: Env, req: Request)
    requires Reaches(env, req, 9)
    requires Clear(env, req).plaintext == "" || Clear(env, req).signer.None?
    ensures Trace(env, req) ==
      [Start, LineRead, HeadersParsed, BodyRead(BodyText(req)), Done(SendError(403, "Access denied"))]
  {
    FramingFacts(env, req);
    FramedRunsToBody(env, req);
    var body := BodyRead(BodyText(req));
    assert Step(env, req, body) == Done(SendError(403, "Access denied"));
    assert Run(env, req, body) == [body, Done(SendError(403, "Access denied"))];
  }

  /** A signed plaintext that is not JSON is answered with 400 and no handler is looked up. */
  lemma InvalidJsonRefused(env: Env, req: Request)
    requires Reaches(env, req, 11) && !Holds(env, req, ParamsAreJson)
    ensures Trace(env, req) ==
      [Start, LineRead, HeadersParsed, BodyRead(BodyText(req)),
       Authenticated(Clear(env, req).plaintext, Clear(env, req).signer.GetOr("")),
       Done(SendError(400, "Invalid parameters"))]
  {
    FramingFacts(env, req);
    SignedFacts(env, req);
    FramedRunsToBody(env, req);
    var b := req.body.value;
    assert BodyText(req) == b && Clear(env, req) == env.decrypt(b);
    UnparsableBodyRun(env, req, b);
  }

  /** What the authentication checks say about the decrypted body. */
  lemma {:induction false} SignedFacts(env: Env, req: Request)
    requires Reaches(env, req, 11)
    ensures Clear(env, req).plaintext != "" && Clear(env, req).signer.Some?
  {
    assert Holds(env, req, Checks[9]) && Holds(env, req, Checks[10]);
  }

  /** A body that decrypts to signed text that is not JSON stops at the decoder. */
  lemma {:induction false} UnparsableBodyRun(env: Env, req: Request, b: string)
    requires env.decrypt(b).plaintext != "" && env.decrypt(b).signer.Some?
    requires env.loads(env.decrypt(b).plaintext).None?
    ensures Run(env, req, BodyRead(b)) ==
      [BodyRead(b), Authenticated(env.decrypt(b).plaintext, env.decrypt(b).signer.value),
       Done(SendError(400, "Invalid parameters"))]
  {
    var auth := Authenticated(env.decrypt(b).plaintext, env.decrypt(b).signer.value);
    var done := Done(SendError(400, "Invalid parameters"));
    assert Step(env, req, auth) == done;
    assert Run(env, req, auth) == [auth, done];
    assert Step(env, req, BodyRead(b)) == auth;
  }

  /**
   * A Content-Length that `rfile.read` refuses escapes as an exception before
   * anything is read: OverflowError outside the `ssize_t` range, ValueError
   * below -1 within it.
   */
  lemma UnreadableLengthEscapes(env: Env, req: Request)
    requires Reaches(env, req, 6)
    requires req.contentLength.Some? && env.parseInt(req.contentLength.value).Some?
    requires var n := env.parseInt(req.contentLength.value).value; n < -1 || n >= SsizeLimit
    ensures var n := env.parseInt(req.contentLength.value).value;
      HandleOneRequest(env, req) == Uncaught(if -SsizeLimit <= n < -1 then ValueError else OverflowError)
  {
    var n := env.parseInt(req.contentLength.value).value;
    if -SsizeLimit <= n < -1 {
      assert Holds(env, req, Checks[6]);
      RefusedByFirstFailingCheck(env, req, 7);
    } else {
      RefusedByFirstFailingCheck(env, req, 6);
    }
  }

  /** An action without a '.' makes the unpacking of rsplit raise: no status is sent. */
  lemma ActionWithoutDotEscapes(env: Env, req: Request)
    requires Reaches(env, req, 15) && '.' !in ActionText(env, req)
    ensures HandleOneRequest(env, req) == Uncaught(ValueError)
  {
    RefusedByFirstFailingCheck(env, req, 15);
  }

  /** A JSON object without an 'action' key raises KeyError: no status is sent. */
  lemma MissingActionEscapes(env: Env, req: Request)
    requires Reaches(env, req, 13) && "action" !in Fields(env, req)
    ensures HandleOneRequest(env, req) == Uncaught(KeyError)
  {
    RefusedByFirstFailingCheck(env, req, 13);
  }

  lemma {:induction false} RefusalIsInvokeNever(req: Request, c: Check)
    ensures !Refusal(req, c).Invoke?
  {
  }

  /** The verdict is some check's refusal or, when none fails, the admitted call. */
  lemma VerdictOfFirstFailure(env: Env, req: Request)
    ensures var f := FirstFailure(env, req, 0);
      && (f.Some? ==> HandleOneRequest(env, req) == Refusal(req, f.value))
      && (f.None? ==> HandleOneRequest(env, req) == Invoke(AdmittedCall(env, req)))
  {
    HandleOneRequestMatchesChecks(env, req);
  }

  /** Status 501 is sent exactly when every earlier check holds and the module is unknown. */
  lemma UnknownModuleIff501(env: Env, req: Request)
    requires req.headers.HeadersAccepted?
    ensures HandleOneRequest(env, req) == SendError(501, "Unsupported module") <==>
              Reaches(env, req, 16) && Address(env, req).0 !in env.registry
  {
    VerdictOfFirstFailure(env, req);
    FirstFailureIsFirst(env, req, 0, 16);
    var f := FirstFailure(env, req, 0);
    if HandleOneRequest(env, req) == SendError(501, "Unsupported module") {
      assert f.Some?;
      assert f.value == ModuleKnown;
    }
  }

  /** Status 405 is sent exactly when the module is known but has no such `do_` method. */
  lemma UnknownMethodIff405(env: Env, req: Request)
    requires req.headers.HeadersAccepted?
    ensures HandleOneRequest(env, req) == SendError(405, "Unsupported method") <==>
              Reaches(env, req, 17) && !Holds(env, req, MethodKnown)
  {
    VerdictOfFirstFailure(env, req);
    FirstFailureIsFirst(env, req, 0, 17);
    var f := FirstFailure(env, req, 0);
    if HandleOneRequest(env, req) == SendError(405, "Unsupported method") {
      assert f.Some?;
      assert f.value == MethodKnown;
    }
  }

  /**
   * A handler is invoked exactly when every check holds. It is then the
   * `do_` method of the lower-cased text after the last '.' of the action, in
   * the module named by the text before it; it receives `params['parameters']`
   * or `{}`; and its reply goes to the request's signer, signed with the
   * agent's own key.
   */
  lemma InvokedIffAdmitted(env: Env, req: Request)
    ensures HandleOneRequest(env, req).Invoke? <==> Reaches(env, req, |Checks|)
    ensures HandleOneRequest(env, req).Invoke? ==>
      var c := HandleOneRequest(env, req).call;
      && c == AdmittedCall(env, req)
      && (exists action ::
            && ActionText(env, req) == c.moduleName + "." + action
            && '.' !in action
            && c.handler == "do_" + Text.Lower(action))
      && c.params == (if "parameters" in Fields(env, req) then Fields(env, req)["parameters"] else Empty)
      && Some(c.recipient) == Clear(env, req).signer
      && c.signer == env.secretKey
  {
    HandleOneRequestMatchesChecks(env, req);
    NoFailureIffAllHold(env, req, 0);
    if HandleOneRequest(env, req).Invoke? {
      var f := FirstFailure(env, req, 0);
      if f.Some? {
        RefusalIsInvokeNever(req, f.value);
      }
      assert HandleOneRequest(env, req).call == AdmittedCall(env, req);
      AdmittedCallShape(env, req);
    }
  }

  /** The call a request that passes every check is admitted to. */
  lemma AdmittedCallShape(env: Env, req: Request)
    requires Reaches(env, req, |Checks|)
    ensures var c := AdmittedCall(env, req);
      && (exists action ::
            && ActionText(env, req) == c.moduleName + "." + action
            && '.' !in action
            && c.handler == "do_" + Text.Lower(action))
      && c.params == (if "parameters" in Fields(env, req) then Fields(env, req)["parameters"] else Empty)
      && Some(c.recipient) == Clear(env, req).signer
      && c.signer == env.secretKey
  {
    assert Holds(env, req, Checks[10]) && Holds(env, req, Checks[15]);
    var a := Address(env, req);
    assert ActionText(env, req) == a.0 + "." + a.1;
  }

  /** The handler name is `do_` followed by the action with every upper-case
      ASCII letter lowered, so actions differing only in case name the same
      handler. */
  lemma MethodNameShape(action: string)
    ensures var r := MethodName(action);
      && |r| == 3 + |action| && r[..3] == "do_"
      && (forall i :: 0 <= i < |action| ==> r[3 + i] == Text.LowerChar(action[i]))
      && (forall i :: 3 <= i < |r| ==> !('A' <= r[i] <= 'Z'))
    ensures MethodName(Text.Lower(action)) == MethodName(action)
  {
    var low := Text.Lower(action);
    assert Text.Lower(low) == low by {
      forall i | 0 <= i < |low| ensures Text.Lower(low)[i] == low[i] {
        assert Text.LowerChar(Text.LowerChar(action[i])) == Text.LowerChar(action[i]);
      }
    }
  }
}
