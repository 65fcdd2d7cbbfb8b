/**
 * One request served end to end by an agent whose only module is package
 * management: the pipeline's verdict, the handler it runs and the bytes that
 * go back on the connection.
 */
module Service {
  import opened Wrappers
  import opened Json
  import opened Protocol
  import opened Agent
  import opened PackageManagement
  import AgentSpec
  import AgentProperties

  /** `hypernova.modules` as this model installs it. */
  const ModuleName: string := "packagemanagement"
  const Registry: map<string, set<string>> := map[ModuleName := Handlers]

  /** What is written back on the connection. */
  datatype Transmission =
    | Silent                                            // nothing is written
    | Replied(response: HttpResponse)
    | Aborted(statusSent: Option<int>, error: Exception) // an exception ends the connection

  /** The package-manager calls a request caused and what it wrote back. */
  datatype Served = Served(calls: seq<PmCall>, transmission: Transmission)

  /** Serve one request. */
  function Serve(env: Env, pm: Manager, req: Request): (s: Served)
    requires env.registry == Registry
    ensures s.transmission.Replied? && s.transmission.response.body.Plain? ==>
      var resp := s.transmission.response;
      && ("Connection", "close") in resp.headers
      && resp.body.text.result.code == resp.status
      && !resp.body.text.result.success
      && s.calls == []
    ensures s.transmission.Replied? && s.transmission.response.body.Sealed? ==>
      var resp := s.transmission.response;
      && resp.status == 200
      && resp.body.signer == env.secretKey
      && Some(resp.body.recipient) == AgentSpec.Clear(env, req).signer
    ensures s.transmission.Replied? && s.transmission.response.body.Blank? ==>
      && s.transmission.response.status == 200
      && HandleOneRequest(env, req).Invoke?
      && var call := HandleOneRequest(env, req).call;
         var h := Dispatch(pm, call.handler, call.params);
         h.outcome.Success? && !env.encrypts(Serialised(h.outcome.value), call.recipient, call.signer)
    ensures s.calls != [] <==> HandleOneRequest(env, req).Invoke?
    ensures s.calls != [] ==> s.calls[0] == Refresh
  {
    match HandleOneRequest(env, req)
    case CloseSilently => Served([], Silent)
    case SendError(code, message) => Served([], Replied(ErrorResponse(code, message)))
    case Uncaught(e) => Served([], Aborted(None, e))
    case Invoke(call) =>
      AgentProperties.InvokedIffAdmitted(env, req);
      var h := Dispatch(pm, call.handler, call.params);
      match h.outcome
      case Success(r) => Served(h.calls, Replied(SuccessResponse(env, call, r)))
      case Failure(e) => Served(h.calls, Aborted(Some(200), e))
  }
}
