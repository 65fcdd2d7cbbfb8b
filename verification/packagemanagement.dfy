/**
 * The package-management module's request handlers, `do_refresh` and
 * `do_update`. The package manager is an oracle: `refresh` yields its
 * `(success, needs_update)` pair and `update(upgrade)` its success. Each
 * handler's run records the package-manager calls it made, in order, and the
 * result it returns or the exception that escapes it.
 */
module PackageManagement {
  import opened Wrappers
  import opened Json
  import opened Protocol
  import Text

  /** A call into the package manager. */
  datatype PmCall = Refresh | Update(upgrade: bool)

  /** What the platform's package manager answers. */
  datatype Manager = Manager(refresh: (bool, bool), update: bool -> bool)

  /** The calls a handler made and what it returned or raised. */
  datatype Handled = Handled(calls: seq<PmCall>, outcome: Result<ActionResult, Exception>)

  /** The name of the refresh payload's only field. */
  const NeedsUpdate: string := "needs_update"

  /** `do_refresh`: refresh the package lists and report whether updates are pending. */
  function DoRefresh(pm: Manager, params: Value): (h: Handled)
    ensures h.calls == [Refresh]
    ensures h.outcome.Success?
    ensures var r := h.outcome.value;
      && r.payload.JObject? && r.payload.fields.Keys == {NeedsUpdate}
      && r.payload.fields[NeedsUpdate] == JBool(pm.refresh.1)
      && r.success == pm.refresh.0
      && (r.code == 1 <==> r.success) && (r.code == 0 <==> !r.success)
  {
    var (success, needsUpdate) := pm.refresh;
    Handled([Refresh], Success(ActionResult(JObject(map[NeedsUpdate := JBool(needsUpdate)]), success, StatusOf(success), "")))
  }

  /**
   * `'upgrade' in params and params['upgrade']`. On an object this asks for a
   * truthy `upgrade` member. On a list or a string `in` looks for an element or
   * a substring, and the subscript that follows a hit raises `TypeError`; on
   * any other value `in` itself raises it.
   */
  function UpgradeFlag(params: Value): (r: Result<bool, Exception>)
    ensures r.Failure? ==> r.error == TypeError
    ensures params.JObject? ==> r.Success?
    ensures r == Success(true) <==>
      params.JObject? && "upgrade" in params.fields && Truthy(params.fields["upgrade"])
  {
    match params
    case JObject(fields) => Success("upgrade" in fields && Truthy(fields["upgrade"]))
    case JArray(items) => if JStr("upgrade") in items then Failure(TypeError) else Success(false)
    case JStr(s) => if Text.Contains(s, "upgrade") then Failure(TypeError) else Success(false)
    case _ => Failure(TypeError)
  }

  /** `do_update`: refresh, then update (upgrading installed packages when asked). */
  function DoUpdate(pm: Manager, params: Value): (h: Handled)
    ensures |h.calls| >= 1 && h.calls[0] == Refresh
    ensures h.outcome.Success? <==> UpgradeFlag(params).Success?
    ensures h.outcome.Failure? ==> h.calls == [Refresh] && h.outcome.error == TypeError
    ensures h.outcome.Success? ==>
      var flag := UpgradeFlag(params).value;
      var r := h.outcome.value;
      && h.calls == [Refresh, Update(flag)]
      && r.payload == JStr("")
      && r.success == pm.update(flag)
      && (r.code == 1 <==> r.success) && (r.code == 0 <==> !r.success)
  {
    match UpgradeFlag(params)
    case Failure(e) => Handled([Refresh], Failure(e))
    case Success(flag) =>
      var success := pm.update(flag);
      Handled([Refresh, Update(flag)], Success(ActionResult(JStr(""), success, StatusOf(success), "")))
  }

  /** The handler names the module offers. */
  const Handlers: set<string> := {"do_refresh", "do_update"}

  /** Run the handler `name` of this module with `params`. */
  function Dispatch(pm: Manager, name: string, params: Value): (h: Handled)
    requires name in Handlers
    ensures name == "do_refresh" ==> h == DoRefresh(pm, params)
    ensures name == "do_update" ==> h == DoUpdate(pm, params)
  {
    if name == "do_refresh" then DoRefresh(pm, params) else DoUpdate(pm, params)
  }
}
