/**
 * The command-line client: `Client.query`, which encrypts a request to an
 * agent and accepts only a reply signed by that agent, and the node registry
 * edits of `ClientConfigAction` (`config node add` and `config node rm`).
 *
 * GPG, `json.dumps`/`json.loads` and the HTTP exchange are oracles in
 * `ClientEnv`; the node registry is the map of section names to options that
 * the configuration parser holds.
 */
module Client {
  import opened Wrappers
  import opened Json
  import opened Protocol

  /** The `params` argument of `query`: already a string, or an object to serialise. */
  datatype QueryParams = Raw(text: string) | Structured(value: Value)

  /** What GPG's encrypt call yields; a result that is not `ok` is falsy. */
  datatype Encryption = Encryption(ok: bool, text: string)

  /** The HTTP request the client sends. */
  datatype OutRequest = OutRequest(verb: string, path: string, contentLength: int, body: string)

  /**
   * What sending a request yields: the reply body decoded as UTF-8, a body that
   * is not UTF-8 (`str(…, 'UTF-8')` raises UnicodeDecodeError, a ValueError),
   * or an exception from `request`, `getresponse` or `read`, such as a refused
   * connection or a status line that never arrives.
   */
  datatype Exchange = Delivered(text: string) | NotUtf8 | ConnectionFailed

  datatype ClientEnv = ClientEnv(
    dumps: Value -> string,
    encrypt: (string, Fingerprint, Fingerprint) -> Encryption,  // (data, recipient, signer)
    exchange: OutRequest -> Exchange,
    decrypt: string -> Decryption,
    loads: string -> Option<Value>)

  /** What one query did: the request it sent, if any, and its value or exception. */
  datatype QueryOutcome = QueryOutcome(sent: Option<OutRequest>, result: Result<Value, Exception>)

  /** The text that is encrypted: strings as they are, anything else as JSON. */
  function Plaintext(env: ClientEnv, params: QueryParams): (t: string)
    ensures params.Raw? ==> t == params.text
    ensures params.Structured? ==> t == env.dumps(params.value)
  {
    match params
    case Raw(text) => text
    case Structured(v) => env.dumps(v)
  }

  /** The request carrying an encrypted body. */
  function RequestFor(body: string): (r: OutRequest)
    ensures r.verb == "GET" && r.path == "/"
    ensures r.body == body && r.contentLength == |r.body|
  {
    OutRequest("GET", "/", |body|, body)
  }

  /**
   * `Client.query(params, client_fp, server_fp)`. A decryption result carries
   * a `fingerprint` attribute only when the reply was signed by a known key
   * (the premise the agent's `hasattr` test rests on), so comparing it on an
   * unsigned reply raises `AttributeError`. The exchange may raise instead of
   * delivering a reply; that exception escapes too.
   */
  function Query(env: ClientEnv, params: QueryParams, clientFp: Fingerprint, serverFp: Fingerprint): (q: QueryOutcome)
    ensures var enc := env.encrypt(Plaintext(env, params), serverFp, clientFp);
      && (q.sent.Some? <==> enc.ok)
      && (q.sent.None? ==> q.result == Failure(ValueError))
      && (q.sent.Some? ==> q.sent.value == RequestFor(enc.text))
    ensures q.result.Success? ==>
      && q.sent.Some? && env.exchange(q.sent.value).Delivered?
      && env.decrypt(env.exchange(q.sent.value).text).signer == Some(serverFp)
      && env.loads(env.decrypt(env.exchange(q.sent.value).text).plaintext) == Some(q.result.value)
    ensures q.result.Failure? ==> q.result.error in {ValueError, AttributeError, TransportError}
    ensures q.result == Failure(TransportError) <==>
      q.sent.Some? && env.exchange(q.sent.value).ConnectionFailed?
    ensures q.result == Failure(AttributeError) <==>
      && q.sent.Some? && env.exchange(q.sent.value).Delivered?
      && env.decrypt(env.exchange(q.sent.value).text).signer.None?
  {
    var enc := env.encrypt(Plaintext(env, params), serverFp, clientFp);
    if !enc.ok then QueryOutcome(None, Failure(ValueError))
    else
      var request := RequestFor(enc.text);
      match env.exchange(request)
      case ConnectionFailed => QueryOutcome(Some(request), Failure(TransportError))
      case NotUtf8 => QueryOutcome(Some(request), Failure(ValueError))
      case Delivered(body) =>
        var reply := env.decrypt(body);
        // An unsigned reply has no `fingerprint` attribute to compare.
        if reply.signer.None? then QueryOutcome(Some(request), Failure(AttributeError))
        else if reply.signer != Some(serverFp) then QueryOutcome(Some(request), Failure(ValueError))
        else match env.loads(reply.plaintext)
             case None => QueryOutcome(Some(request), Failure(ValueError))
             case Some(v) => QueryOutcome(Some(request), Success(v))
  }

  // ---- The node registry ---------------------------------------------------

  /** The sections of the client configuration: name to options. */
  type Sections = map<string, map<string, string>>

  /**
   * What the configuration parser holds: the options of its `[DEFAULT]`
   * section, which every section inherits when read, and the sections.
   */
  datatype Registry = Registry(defaults: map<string, string>, sections: Sections)

  /** configparser's reserved section name, which `add_section` refuses. */
  const DefaultSection: string := "DEFAULT"

  /** The status `config node` exits with on a usage error. */
  const UsageError: int := 64

  /**
   * A `config` invocation. `keyFile` is the fingerprints that importing the
   * public-key file yielded, or `None` when the file could not be read.
   */
  datatype ConfigCommand =
    | AddNode(name: string, addr: string, keyFile: Option<seq<Fingerprint>>)
    | RemoveNode(name: string)
    | NoNodeChange           // another config action, or `node` without add/rm

  /** The outcome: the sections written back, an exit status, or an escaping exception. */
  datatype ConfigOutcome = Saved(registry: Registry) | Exited(status: int) | Raised(error: Exception)

  /**
   * How the configuration parser treats `%` in option values. `configparser`'s
   * `ConfigParser` uses `BasicInterpolation`, whose `set` refuses a value with
   * a `%` that is neither part of `%%` nor of a `%(name)s` reference;
   * `RawConfigParser` does not interpolate.
   */
  datatype Interpolation = NoInterpolation | BasicInterpolation

  /** `value.replace('%%', '')`: escaped percent signs, left to right. */
  function DropEscapedPercents(v: string): (r: string)
    ensures |r| <= |v|
  {
    if v == [] then []
    else if |v| >= 2 && v[0] == '%' && v[1] == '%' then DropEscapedPercents(v[2..])
    else [v[0]] + DropEscapedPercents(v[1..])
  }

  /** The position of the first `)` in `v` at or after `i`. */
  function CloseParen(v: string, i: nat): (r: Option<nat>)
    decreases |v| - i
    ensures r.Some? ==> i <= r.value < |v| && v[r.value] == ')'
    ensures r.None? ==> forall k :: i <= k < |v| ==> v[k] != ')'
  {
    if i >= |v| then None
    else if v[i] == ')' then Some(i)
    else CloseParen(v, i + 1)
  }

  /** The length of the `%(name)s` reference (`%\(([^)]+)\)s`) that `v` starts with, or 0. */
  function ReferenceLength(v: string): (n: nat)
    ensures n == 0 || (4 < n <= |v| && v[0] == '%' && v[n - 1] == 's')
  {
    if |v| >= 2 && v[0] == '%' && v[1] == '(' then
      match CloseParen(v, 2)
      case Some(j) => if j > 2 && j + 1 < |v| && v[j + 1] == 's' then j + 2 else 0
      case None => 0
    else 0
  }

  /** `_KEYCRE.sub('', value)`: every `%(name)s` reference removed, left to right. */
  function DropReferences(v: string): (r: string)
    decreases |v|
    ensures |r| <= |v|
  {
    if v == [] then []
    else
      var n := ReferenceLength(v);
      if n > 0 then DropReferences(v[n..]) else [v[0]] + DropReferences(v[1..])
  }

  /** Whether the parser's `set` accepts `value` (`BasicInterpolation.before_set`). */
  predicate AcceptedBySet(mode: Interpolation, value: string) {
    mode.NoInterpolation? || '%' !in DropReferences(DropEscapedPercents(value))
  }

  /** The options a node added by the client has. */
  function NodeOptions(addr: string, fingerprint: Fingerprint): (o: map<string, string>)
    ensures o.Keys == {"addr", "pubkey"}
    ensures o["addr"] == addr && o["pubkey"] == fingerprint
  {
    map["addr" := addr, "pubkey" := fingerprint]
  }

  /** `add_section(name)` for a name that is neither reserved nor taken. */
  function AddSection(reg: Registry, name: string): Registry
    requires name != DefaultSection && name !in reg.sections
  {
    reg.(sections := reg.sections[name := map[]])
  }

  /**
   * `set(section, option, value)`. An empty section name selects the
   * defaults, as `DEFAULT` does; any other name must be a section.
   */
  function Set(reg: Registry, section: string, option: string, value: string): Registry
    requires section == "" || section == DefaultSection || section in reg.sections
  {
    if section == "" || section == DefaultSection then reg.(defaults := reg.defaults[option := value])
    else reg.(sections := reg.sections[section := reg.sections[section][option := value]])
  }

  /**
   * `ClientConfigAction.__init__` applied to the parser's current contents, on
   * a parser whose `set` treats `%` as `mode` says. The section is added
   * before the two `set` calls, but an exception they raise escapes before
   * anything is written back, so a refused value leaves no trace. For the
   * empty name, `add_section` creates an empty section and both `set` calls
   * write into the defaults.
   */
  function Configure(reg: Registry, cmd: ConfigCommand, mode: Interpolation): (o: ConfigOutcome)
    ensures o.Exited? ==> o.status == UsageError
    ensures o.Raised? ==> o.error == ValueError
    ensures o.Raised? <==>
      && cmd.AddNode? && cmd.keyFile.Some? && cmd.keyFile.value != []
      && (|| cmd.name == DefaultSection
          || (&& cmd.name !in reg.sections
              && !(AcceptedBySet(mode, cmd.addr) && AcceptedBySet(mode, cmd.keyFile.value[0]))))
    ensures cmd.AddNode? && (cmd.keyFile.None? || cmd.keyFile.value == []) ==> o == Exited(UsageError)
    ensures cmd.AddNode? && o.Saved? ==>
      && cmd.name !in reg.sections
      && AcceptedBySet(mode, cmd.addr) && AcceptedBySet(mode, cmd.keyFile.value[0])
      && o.registry.sections.Keys == reg.sections.Keys + {cmd.name}
      && (forall n :: n in reg.sections ==> o.registry.sections[n] == reg.sections[n])
      && (cmd.name != "" ==>
            && o.registry.sections[cmd.name] == NodeOptions(cmd.addr, cmd.keyFile.value[0])
            && o.registry.defaults == reg.defaults)
      && (cmd.name == "" ==>
            && o.registry.sections[cmd.name] == map[]
            && o.registry.defaults.Keys == reg.defaults.Keys + {"addr", "pubkey"}
            && o.registry.defaults["addr"] == cmd.addr
            && o.registry.defaults["pubkey"] == cmd.keyFile.value[0]
            && forall k :: k in reg.defaults && k !in {"addr", "pubkey"} ==> o.registry.defaults[k] == reg.defaults[k])
    ensures cmd.AddNode? && cmd.name in reg.sections ==> o.Exited? || o.Raised?
    ensures cmd.RemoveNode? ==>
      if cmd.name in reg.sections then o == Saved(Registry(reg.defaults, reg.sections - {cmd.name}))
      else o == Exited(UsageError)
    ensures cmd.NoNodeChange? ==> o == Saved(reg)
  {
    match cmd
    case AddNode(name, addr, keyFile) =>
      if keyFile.None? then Exited(UsageError)
      else if keyFile.value == [] then Exited(UsageError)
      else if name == DefaultSection then Raised(ValueError)
      else if name in reg.sections then Exited(UsageError)
      else if !AcceptedBySet(mode, addr) || !AcceptedBySet(mode, keyFile.value[0]) then Raised(ValueError)
      else Saved(Set(Set(AddSection(reg, name), name, "addr", addr), name, "pubkey", keyFile.value[0]))
    case RemoveNode(name) =>
      if name in reg.sections then Saved(reg.(sections := reg.sections - {name})) else Exited(UsageError)
    case NoNodeChange => Saved(reg)
  }
}
