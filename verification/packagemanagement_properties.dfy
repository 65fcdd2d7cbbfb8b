/**
 * Promises of the package-management handlers that relate several calls or
 * several inputs.
 */
module PackageManagementProperties {
  import opened Wrappers
  import opened Json
  import opened Protocol
  import opened PackageManagement

  /** Without an `upgrade` member an object of parameters asks for a plain update. */
  lemma AbsentUpgradeIsPlainUpdate(pm: Manager, fields: map<string, Value>)
    requires "upgrade" !in fields
    ensures DoUpdate(pm, JObject(fields)).calls == [Refresh, Update(false)]
    ensures DoUpdate(pm, JObject(fields)).outcome == Success(ActionResult(JStr(""), pm.update(false), StatusOf(pm.update(false)), ""))
  {
  }

  /** The default `{}` parameters that the agent passes never crash `do_update`. */
  lemma EmptyParametersUpdate(pm: Manager)
    ensures DoUpdate(pm, Empty).calls == [Refresh, Update(false)]
    ensures DoUpdate(pm, Empty).outcome.Success?
  {
  }

  /**
   * Whatever the parameters, `do_update` refreshes first; it reaches the update
   * exactly when the parameters are an object, a list without the string
   * `upgrade`, or a string without the substring `upgrade`.
   */
  lemma UpdateReachedIff(pm: Manager, params: Value)
    ensures Update(false) in DoUpdate(pm, params).calls || Update(true) in DoUpdate(pm, params).calls
      <==> match params
           case JObject(_) => true
           case JArray(items) => JStr("upgrade") !in items
           case JStr(s) => !Text.Contains(s, "upgrade")
           case _ => false
  {
  }

  /** Both handlers report `int(success)` as the status code. */
  lemma CodeIsIntOfSuccess(pm: Manager, name: string, params: Value)
    requires name in Handlers
    ensures Dispatch(pm, name, params).outcome.Success? ==>
      var r := Dispatch(pm, name, params).outcome.value;
      r.code == StatusOf(r.success)
  {
  }
}
