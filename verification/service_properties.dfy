/**
 * End-to-end promises of an agent serving package-management requests.
 */
module ServiceProperties {
  import opened Wrappers
  import opened Json
  import opened Protocol
  import opened Agent
  import opened PackageManagement
  import opened Service
  import AgentSpec
  import AgentProperties
  import Text

  /** The package manager is touched only by a request that passes every check. */
  lemma PackageManagerOnlyForAdmitted(env: Env, pm: Manager, req: Request)
    requires env.registry == Registry
    ensures Serve(env, pm, req).calls != [] <==> AgentSpec.Reaches(env, req, |AgentSpec.Checks|)
  {
    AgentProperties.InvokedIffAdmitted(env, req);
  }

  /** A request arriving well formed, signed, and asking for
      `packagemanagement.refresh` without parameters. */
  predicate RefreshRequest(env: Env, req: Request, fp: Fingerprint) {
    && req.requestLine.Got? && 0 < req.requestLine.value <= MaxRequestLine
    && req.headers == HeadersAccepted
    && req.contentLength.Some? && env.parseInt(req.contentLength.value).Some?
    && -1 <= env.parseInt(req.contentLength.value).value < SsizeLimit
    && req.body.Got?
    && env.decrypt(req.body.value).plaintext != ""
    && env.decrypt(req.body.value).signer == Some(fp)
    && env.loads(env.decrypt(req.body.value).plaintext)
       == Some(JObject(map["action" := JStr("packagemanagement.refresh")]))
  }

  /** `packagemanagement.refresh` splits into this module's name and `refresh`. */
  lemma RefreshSplit()
    ensures Text.RSplitOnce("packagemanagement.refresh", '.') == Some((ModuleName, "refresh"))
  {
    Text.RSplitOnceJoin(ModuleName, '.', "refresh");
    assert "packagemanagement.refresh" == ModuleName + ['.'] + "refresh";
  }

  /** The action `refresh` names the handler `do_refresh`. */
  lemma RefreshMethod()
    ensures MethodName("refresh") == "do_refresh"
  {
    assert Text.Lower("refresh") == "refresh";
  }

  /** A signed, well-framed request naming a known module and method, without
      `parameters`, invokes that method with `{}`. */
  lemma {:induction false} AddressedRequestInvoked(env: Env, req: Request, fp: Fingerprint,
                                                   fields: map<string, Value>, m: string, a: string)
    requires req.requestLine.Got? && 0 < req.requestLine.value <= MaxRequestLine
    requires req.headers == HeadersAccepted
    requires req.contentLength.Some? && env.parseInt(req.contentLength.value).Some?
    requires -1 <= env.parseInt(req.contentLength.value).value < SsizeLimit
    requires req.body.Got?
    requires env.decrypt(req.body.value) == Decryption(env.decrypt(req.body.value).plaintext, Some(fp))
    requires env.decrypt(req.body.value).plaintext != ""
    requires env.loads(env.decrypt(req.body.value).plaintext) == Some(JObject(fields))
    requires "action" in fields && fields["action"].JStr? && "parameters" !in fields
    requires Text.RSplitOnce(fields["action"].s, '.') == Some((m, a))
    requires m in env.registry && MethodName(a) in env.registry[m]
    ensures HandleOneRequest(env, req) == Invoke(Call(m, MethodName(a), Empty, fp, env.secretKey))
  {
    var plain := env.decrypt(req.body.value).plaintext;
    var call := Call(m, MethodName(a), Empty, fp, env.secretKey);
    var addressed := Addressed(fields, m, a, fp);
    assert Step(env, req, addressed) == Done(Invoke(call));
    assert Step(env, req, Decoded(JObject(fields), fp)) == addressed;
    assert Step(env, req, Authenticated(plain, fp)) == Decoded(JObject(fields), fp);
    assert Step(env, req, BodyRead(req.body.value)) == Authenticated(plain, fp);
    assert Step(env, req, HeadersParsed) == BodyRead(req.body.value);
    assert Step(env, req, LineRead) == HeadersParsed;
    assert Step(env, req, Start) == LineRead;
    assert Outcome(env, req, addressed) == Invoke(call);
    assert Outcome(env, req, Decoded(JObject(fields), fp)) == Invoke(call);
    assert Outcome(env, req, Authenticated(plain, fp)) == Invoke(call);
    assert Outcome(env, req, BodyRead(req.body.value)) == Invoke(call);
    assert Outcome(env, req, HeadersParsed) == Invoke(call);
    assert Outcome(env, req, LineRead) == Invoke(call);
    assert Outcome(env, req, Start) == Invoke(call);
  }

  /** Such a request passes every check and invokes `do_refresh` with `{}`. */
  lemma RefreshInvoked(env: Env, req: Request, fp: Fingerprint)
    requires env.registry == Registry
    requires RefreshRequest(env, req, fp)
    ensures HandleOneRequest(env, req) == Invoke(Call(ModuleName, "do_refresh", Empty, fp, env.secretKey))
  {
    var fields := map["action" := JStr("packagemanagement.refresh")];
    RefreshSplit();
    RefreshMethod();
    assert "parameters" !in fields;
    assert "do_refresh" in env.registry[ModuleName];
    AddressedRequestInvoked(env, req, fp, fields, ModuleName, "refresh");
  }

  /**
   * Such a request refreshes the package lists once and is answered with
   * status 200. The body is the refresh result, encrypted to the requester and
   * signed by the agent, or empty when that encryption fails.
   */
  lemma RefreshEndToEnd(env: Env, pm: Manager, req: Request, fp: Fingerprint)
    requires env.registry == Registry
    requires RefreshRequest(env, req, fp)
    ensures var result := ActionResult(JObject(map[NeedsUpdate := JBool(pm.refresh.1)]), pm.refresh.0, StatusOf(pm.refresh.0), "");
      var s := Serve(env, pm, req);
      && s.calls == [Refresh]
      && s.transmission.Replied? && s.transmission.response.status == 200
      && (env.encrypts(Serialised(result), fp, env.secretKey) ==>
            s.transmission.response.body == Sealed(Serialised(result), fp, env.secretKey))
      && (!env.encrypts(Serialised(result), fp, env.secretKey) ==> s.transmission.response.body == Blank)
  {
    RefreshInvoked(env, req, fp);
  }
}
