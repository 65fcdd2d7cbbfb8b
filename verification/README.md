# HyperNova core, modelled in Dafny

HyperNova is a small server-management framework. A client sends an agent a
GPG-encrypted, signed JSON request over HTTP. The agent checks the request,
dispatches `module.action` to a module's `do_<action>` handler, and sends
back the handler's result, encrypted to the requester and signed with its own
key. This project models four parts of it as pure functions and proves what
each one promises:

- **The agent's request pipeline** (`agent.dfy`, `agent_spec.dfy`,
  `agent_properties.dfy`). `handle_one_request` is a small-step state machine
  (`Agent.Step`, `Agent.Run`, `Agent.Outcome`). Its reference is a flat list of
  eighteen checks (`AgentSpec.Checks`): the verdict is the refusal of the first
  check that fails, or the admitted call when none fails. Both decide alike on
  every request. The model also covers `send_error`'s reply and the startup
  choice of the agent's secret key.
- **The WordPress `wp-config.php` renderer** (`wordpress.dfy`,
  `wordpress_properties.dfy`, `php.dfy`). It covers:
  - the mapping from attributes to constants;
  - the boolean and reversed-boolean lists;
  - the rule that falsy values are skipped;
  - `__php_str` escaping, checked against how PHP reads a single-quoted literal;
  - the file layout;
  - the provisioner's choice of source URL.
- **The client** (`client.dfy`, `client_properties.dfy`). It covers the
  acceptance rule of `Client.query` and the `config node add`/`rm` edits of the
  node registry. The registry is the parser's sections plus its `[DEFAULT]`
  options (`Client.Registry`).
- **The package-management handlers** (`packagemanagement.dfy`,
  `packagemanagement_properties.dfy`), `do_refresh` and `do_update`. The
  package manager is an oracle. `service.dfy` and `service_properties.dfy`
  connect these handlers to the agent pipeline, giving one request served end
  to end.

Some collaborators are not part of this model, so they become inputs:

- GPG, `json.loads`/`json.dumps`, Python's `int` and the package manager are
  oracle fields of an environment (`Agent.Env`, `Client.ClientEnv`,
  `PackageManagement.Manager`): functions, or for a call without arguments its
  fixed result;
- what the socket reads return is a field of the request (`Agent.Request`);
- the module registry is a map from module names to their `do_` method names.

`_serialise_response` is a free constructor (`Protocol.Wire`), so it is
injective and has no fixed syntax. Whether the agent's encryption of a reply
succeeds is an oracle (`Agent.Env.encrypts`). A successful encryption is a
constructor too (`Protocol.Body.Sealed`), recording the recipient and the
signer. A failed one is the empty body (`Protocol.Body.Blank`). That `str` of
a failed encryption is `''` is an assumption about the GPG wrapper
(`hypernova.GPG`), which is not part of this model.

Paths below are relative to the repository root.

## Model

| member | source | states |
|---|---|---|
| Agent.Step | python-src/hypernova/agent/__init__.py:229-314 | Each phase ends the connection or moves strictly forward. A handler is invoked only if its module is registered and has that `do_` method, and the reply is always signed with the agent's key. The first phase can only send 414. Once the headers are parsed, the only statuses sent are 400, 403, 405 and 501. The body is read only when Content-Length is present, an integer, at least -1 and below 2^63. Otherwise `rfile.read` is never reached or raises: OverflowError for a length outside the C `ssize_t` range (below -2^63 or from 2^63 on), ValueError for one between -2^63 and -2. |
| Agent.Run | python-src/hypernova/agent/__init__.py:229-314 | The trace of a connection starts at the given stage. Each later stage is one step from the one before, and no stage before the last is terminal. The trace ends in exactly one terminal stage, after at most eight stages. |
| Agent.Outcome | python-src/hypernova/agent/__init__.py:243-314 | From any stage, an invoked handler is registered and answered with the agent's key. Past the headers, every error sent is 400, 403, 405 or 501. |
| Agent.HandleOneRequest | python-src/hypernova/agent/__init__.py:219-336 | Only a registered handler is ever invoked, and its reply is signed with the selected key. When the headers were accepted, every error status is 400, 403, 405, 414 or 501. |
| Agent.TraceEndsInOutcome | python-src/hypernova/agent/__init__.py:219-336 | The last stage of the trace carries the verdict that the pipeline returns. |
| Agent.HandlerParams | python-src/hypernova/agent/__init__.py:317-318 | The handler receives `params['parameters']`, or `{}` when that key is absent. |
| Agent.ErrorResponse | python-src/hypernova/agent/__init__.py:353-381 | An error reply has the code and message as its status line and carries `Connection: close`. Its body is sent plain, never encrypted: the serialised empty, failed result, whose code equals the status. |
| Agent.SuccessResponse | python-src/hypernova/agent/__init__.py:320-328 | A handled request is answered with 200, whatever follows. When the encryption succeeds, the body is the serialised handler result, encrypted to the requester and signed by the agent. When it fails, the body is empty. |
| AgentProperties.MethodNameShape | python-src/hypernova/agent/__init__.py:311 | The handler name is `do_` followed by the action, one character for one, with every upper-case ASCII letter lowered. Actions that differ only in case name the same handler. |
| Agent.SelectSecretKey | python-src/hypernova/agent/__init__.py:123-132 | A key is selected iff some secret key has the configured fingerprint, and then it is the first such key. Otherwise the agent exits with status 78. |
| AgentSpec.FirstFailureIsFirst | python-src/hypernova/agent/__init__.py:229-314 | The first failing check is `Checks[k]` iff every earlier check holds and `Checks[k]` does not. |
| AgentSpec.NoFailureIffAllHold | python-src/hypernova/agent/__init__.py:229-314 | No check fails iff every check holds. |
| AgentSpec.HandleOneRequestMatchesChecks | python-src/hypernova/agent/__init__.py:229-314 | The staged pipeline and the ordered list of checks give the same verdict on every request. The list includes the two conditions `rfile.read` puts on the length, in the order it tests them: first that it fits a `ssize_t` (else OverflowError), then that it is at least -1 (else ValueError). |
| AgentProperties.RefusedByFirstFailingCheck | python-src/hypernova/agent/__init__.py:229-314 | If the checks before `k` hold and check `k` fails, the verdict is check `k`'s refusal, whatever comes later. |
| AgentProperties.OversizedLineRefused | python-src/hypernova/agent/__init__.py:230-237 | A request line over 65536 bytes is answered with 414 and the connection goes no further: no headers, no body, no decryption, no handler. |
| AgentProperties.EmptyLineClosesSilently | python-src/hypernova/agent/__init__.py:239-241 | An empty request line ends the connection with nothing written. |
| AgentProperties.MissingLengthRefusedBeforeDecrypt | python-src/hypernova/agent/__init__.py:254-260 | Without Content-Length the answer is 400 "No parameters", and the pipeline stops before the body is read or decrypted. |
| AgentProperties.UnauthenticatedRefused | python-src/hypernova/agent/__init__.py:273-282 | An empty plaintext or a missing signer is answered with 403, and the pipeline stops before JSON decoding. |
| AgentProperties.InvalidJsonRefused | python-src/hypernova/agent/__init__.py:285-290 | Authenticated plaintext that is not JSON is answered with 400 "Invalid parameters", and no module is looked up. |
| AgentProperties.UnreadableLengthEscapes | python-src/hypernova/agent/__init__.py:254-260 | Once Content-Length parses, a length outside the `ssize_t` range (below -2^63, or 2^63 and above) escapes as OverflowError, and one from -2^63 to -2 as ValueError, with no status sent: only TypeError is caught there. `read` converts its argument to `ssize_t` before it tests for `n < -1`. |
| AgentProperties.ActionWithoutDotEscapes | python-src/hypernova/agent/__init__.py:301 | An action with no `.` makes the tuple unpacking raise ValueError, which escapes with no status sent. |
| AgentProperties.MissingActionEscapes | python-src/hypernova/agent/__init__.py:301 | A JSON object without `action` raises KeyError, which escapes with no status sent. |
| AgentProperties.VerdictOfFirstFailure | python-src/hypernova/agent/__init__.py:229-314 | The verdict is the first failing check's refusal, or the admitted call when no check fails. |
| AgentProperties.UnknownModuleIff501 | python-src/hypernova/agent/__init__.py:303-308 | With the headers accepted, 501 is sent iff every check up to the address holds and the module prefix is not registered. |
| AgentProperties.UnknownMethodIff405 | python-src/hypernova/agent/__init__.py:310-314 | With the headers accepted, 405 is sent iff the module is known and lacks `do_` plus the lower-cased action. |
| AgentProperties.InvokedIffAdmitted | python-src/hypernova/agent/__init__.py:301-329 | A handler is invoked iff every check holds, including that the Content-Length is one `rfile.read` accepts. The action is split at its last `.` into the module and the action. The handler is `do_` plus the lower-cased action, and it gets `parameters` or `{}`. The reply goes to the request's signer and is signed with the agent's key. |
| AgentProperties.AdmittedCallShape | python-src/hypernova/agent/__init__.py:301-323 | For a request that passes every check, the call splits the action at its last `.` into the module and a dot-free action. The handler is `do_` plus the lowered action, and the parameters are `parameters` or `{}`. The reply goes to the signer and is signed with the agent's key. |
| Text.RSplitOnce | python-src/hypernova/agent/__init__.py:301 | `rsplit('.', 1)` yields two parts iff the text contains a `.`. The text is then the first part, `.` and the second part, and the second part has no `.`. |
| Text.RSplitOnceJoin | python-src/hypernova/agent/__init__.py:301 | Splitting `m + "." + a` at the last `.`, where `a` has no `.`, gives back `m` and `a`. |
| Protocol.StatusOf | src/hypernova/modules/packagemanagement.py:27 | `int(success)` is 1 exactly on success and 0 exactly on failure. |
| WordPress.PhpBoolean | src/hypernova/libraries/siteconfig/wordpress.py:279-287 | The result is `true` exactly for a truthy value and `false` exactly otherwise. |
| WordPress.Quote | src/hypernova/libraries/siteconfig/wordpress.py:289-294 | `__php_str`'s output starts and ends with a single quote. |
| WordPress.EscapeAsWritten | src/hypernova/libraries/siteconfig/wordpress.py:294 | The escaped text grows by three characters for each backslash or quote, and text without either is unchanged. |
| WordPress.EscapeIntended | src/hypernova/libraries/siteconfig/wordpress.py:294 | With the corrected escaping, the text grows by one character for each backslash or quote, and text without either is unchanged. |
| WordPressProperties.EscapeAsWrittenDistributes | src/hypernova/libraries/siteconfig/wordpress.py:294 | The substitution works character by character: escaping a concatenation concatenates the escaped parts. |
| WordPressProperties.EscapeAsWrittenOneChar | src/hypernova/libraries/siteconfig/wordpress.py:294 | A backslash or a quote becomes the fixed replacement text `\\\'`. Every other character is kept. |
| WordPressProperties.PlainTextUnchanged | src/hypernova/libraries/siteconfig/wordpress.py:294 | Text without a backslash or a quote passes through either escaping unchanged and in order. |
| WordPressProperties.DecodeEscapedAsWritten | src/hypernova/libraries/siteconfig/wordpress.py:294 | PHP reads the escaped text back with each backslash or quote turned into `\'`. |
| WordPressProperties.PhpReadsAsWrittenGarbled | src/hypernova/libraries/siteconfig/wordpress.py:289-294 | PHP reads the literal `__php_str` writes as the value with each backslash or quote turned into `\'`. |
| WordPressProperties.ReadBackPreservesOnlyPlain | src/hypernova/libraries/siteconfig/wordpress.py:289-294 | The value PHP reads back equals the original iff the original has no backslash or quote. |
| WordPressProperties.ReadBackLength | src/hypernova/libraries/siteconfig/wordpress.py:289-294 | The value PHP reads back is never shorter than the original. |
| WordPressProperties.AsWrittenRoundTripIff | src/hypernova/libraries/siteconfig/wordpress.py:289-294 | PHP reads back exactly the Python value iff the value has no backslash or quote. |
| WordPressProperties.QuoteIsGarbled | src/hypernova/libraries/siteconfig/wordpress.py:294 | A lone quote is written so that PHP reads it as `\'`, not as `'`. |
| WordPressProperties.DecodeEscapedIntended | src/hypernova/libraries/siteconfig/wordpress.py:289-294 | With a backslash before each backslash or quote, PHP decodes the body back to the original text. |
| WordPressProperties.IntendedRoundTrip | src/hypernova/libraries/siteconfig/wordpress.py:289-294 | With the corrected escaping, PHP reads back every value unchanged. |
| WordPress.ValueText | src/hypernova/libraries/siteconfig/wordpress.py:301-315 | A falsy value produces no text. A truthy boolean-list key gives `true`. A truthy reversed-list key gives `false`. Any other truthy key gives the quoted `str` of its value. |
| WordPressProperties.OnlyBoolsEmitTrue | src/hypernova/libraries/siteconfig/wordpress.py:306-311 | A value renders as `true` iff its key is in the boolean list and the value is truthy. |
| WordPressProperties.OnlyReverseBoolsEmitFalse | src/hypernova/libraries/siteconfig/wordpress.py:306-311 | A value renders as `false` iff its key is in the reversed list and the value is truthy. |
| WordPressProperties.CronAlternateRenderedAsString | src/hypernova/libraries/siteconfig/wordpress.py:254-264 | `cron_alternate` set to `True` renders as the string `'True'`, because the boolean list spells it `cron_alternative`. |
| WordPressProperties.IntegerRenderedQuoted | src/hypernova/libraries/siteconfig/wordpress.py:312-315 | A non-zero integer attribute outside both lists renders as its decimal digits between quotes. |
| WordPressProperties.EmittedAreTheTruthy | src/hypernova/libraries/siteconfig/wordpress.py:303-307 | An attribute produces a line iff it is in the iteration order and its value is truthy. |
| WordPressProperties.EmittedOnce | src/hypernova/libraries/siteconfig/wordpress.py:303-317 | No attribute produces two lines. |
| WordPressProperties.LinesFollowEmitted | src/hypernova/libraries/siteconfig/wordpress.py:159 | There is one line per emitted attribute. Each line is `define('<CONST>', <value>);`, where CONST is the mapping's image of the attribute. |
| WordPressProperties.RenderedStringsReadBack | src/hypernova/libraries/siteconfig/wordpress.py:312-317 | In the file rendered with the corrected escaping, every quoted attribute's line is `define('<CONST>', '<escaped>')`, and PHP reads the literal back as the attribute's `str` value. |
| WordPressProperties.FalsyProducesNoLine | src/hypernova/libraries/siteconfig/wordpress.py:306-307 | An attribute with a falsy value produces no `define` line. |
| WordPress.Lines | src/hypernova/libraries/siteconfig/wordpress.py:302-317 | There are at most as many option lines as attributes, and every line starts with `define('`. |
| WordPress.RenderWith | src/hypernova/libraries/siteconfig/wordpress.py:301-323 | With either escaping, the file is the prefix, a newline, the option lines joined by newlines, a newline, then the suffix. |
| WordPress.Render | src/hypernova/libraries/siteconfig/wordpress.py:301-323 | The file as rendered with the corrected escaping has the same layout: prefix, the option lines joined by newlines, suffix, separated by newlines. |
| WordPressProperties.NoLinesIffNoneEmitted | src/hypernova/libraries/siteconfig/wordpress.py:302-317 | No option line is written iff no attribute in the order has a truthy value. |
| WordPressProperties.RenderLayout | src/hypernova/libraries/siteconfig/wordpress.py:319-323 | The middle of the file is empty, leaving the prefix, two newlines and the suffix, iff no attribute is emitted. |
| WordPress.ProvisionTarget | src/hypernova/libraries/siteconfig/wordpress.py:337-345 | The domain is the first parameter, and IndexError escapes when there is none. The source is the versioned tarball URL when a second parameter exists, and the latest one otherwise. |
| WordPress.VersionOf | src/hypernova/libraries/siteconfig/wordpress.py:332 | Reads the version back out of a URL built from the `wordpress-%s.tar.gz` template; the URL it accepts is exactly that template filled with the version. |
| WordPressProperties.VersionOfVersionedUrl | src/hypernova/libraries/siteconfig/wordpress.py:332 | Filling the template with a version and reading it back gives that version. |
| WordPressProperties.SourceUrlRecordsVersion | src/hypernova/libraries/siteconfig/wordpress.py:341-345 | The chosen URL names the second parameter as its version when there is one. With only a domain, it is the latest URL and names no version. |
| Client.RequestFor | src/hypernova/client.py:60-62 | The request is `GET /` with the encrypted text as its body and a Content-Length equal to that text's length. |
| Client.Plaintext | src/hypernova/client.py:50-51 | A string parameter is encrypted as it is; anything else is encrypted as its `json.dumps` text. |
| Client.Query | src/hypernova/client.py:48-73 | A request is sent iff encryption succeeds, and then its body is the ciphertext. A failed encryption raises ValueError with nothing sent. A value is returned only when a UTF-8 reply arrives signed by `server_fp`, and it is the JSON decoding of the reply's plaintext. A failure is the connection's own exception (`TransportError`) exactly when `request`, `getresponse` or `read` raises. It is AttributeError exactly when a reply arrives with no signer, and ValueError in every other case. |
| ClientProperties.QueryAcceptedIff | src/hypernova/client.py:53-73 | A query returns a value iff encryption succeeded, a UTF-8 reply arrived, its signer is `server_fp` and its plaintext is JSON. |
| ClientProperties.ExchangeFailureRaises | src/hypernova/client.py:61-65 | When the connection raises, that exception escapes after the request was sent. A reply body that is not UTF-8 raises ValueError (UnicodeDecodeError). |
| ClientProperties.ForeignSignatureRefused | src/hypernova/client.py:67-69 | A delivered reply signed by any other key raises ValueError even though the request was sent and the reply decrypted. |
| ClientProperties.UnsignedReplyRaises | src/hypernova/client.py:67-68 | A delivered reply with no signer makes the `fingerprint` comparison raise AttributeError after the request was sent. |
| ClientProperties.StructuredIsItsSerialisation | src/hypernova/client.py:50-51 | A non-string parameter makes exactly the query that its JSON text would make, and a string is used as it is. |
| Client.NodeOptions | src/hypernova/client.py:131-134 | A new node's section holds exactly `addr` and `pubkey`, with the given address and fingerprint. |
| Client.Configure | src/hypernova/client.py:113-142 | An add with an unreadable key file or no imported fingerprint exits 64 before the registry is touched. The name `DEFAULT` raises ValueError. An existing name exits 64. An address or fingerprint the parser's `set` refuses raises ValueError, and nothing is saved. Otherwise exactly the new section is added, and other sections are unchanged. Under a non-empty name it holds the address and the first fingerprint, and the defaults are unchanged. Under the empty name the section stays empty, and `set` writes both options into the defaults. An rm deletes an existing section and nothing else, and exits 64 for an unknown name. |
| ClientProperties.ConfigurePreservesShape | src/hypernova/client.py:113-142 | Suppose every section is a node with exactly `addr` and `pubkey`, holding values the parser accepts, and neither `DEFAULT` nor "" is a section. Then that stays so after every edit except an add named "". |
| ClientProperties.EmptyNameWritesDefaults | src/hypernova/client.py:131-134 | An add named "" creates an empty section "". It writes the address and fingerprint into the defaults, which every node inherits, and the registry is no longer well formed. |
| ClientProperties.AddWritesNode | src/hypernova/client.py:131-134 | An accepted add under a fresh, non-empty name adds exactly that node and leaves the defaults alone. |
| ClientProperties.AddThenRemoveRestores | src/hypernova/client.py:131-142 | Removing a node that was just added gives back the original registry, except after an add named "": its address and fingerprint stay in the defaults. |
| ClientProperties.RemoveThenAddRestores | src/hypernova/client.py:131-142 | In a well-formed registry, adding back a removed node with its address and key gives back the original registry, defaults included. |
| ClientProperties.AddTwiceRefused | src/hypernova/client.py:131-137 | A second add under the same name exits 64. |
| ClientProperties.PercentFreeIgnoresInterpolation | src/hypernova/client.py:131-134 | For an address and fingerprint without `%`, the edit is the same whether or not the parser interpolates. |
| ClientProperties.ZoneIndexAddressRaises | src/hypernova/client.py:131-136 | With an interpolating parser, adding a fresh node at `fe80::1%eth0` raises ValueError from `set`, which the `DuplicateSectionError` handler does not catch. |
| ClientProperties.LonePercentRefused | src/hypernova/client.py:133 | A value whose first `%` is not doubled and does not start a `%(name)s` reference is refused by the interpolating parser's `set`. |
| ClientProperties.EscapedPercentAccepted | src/hypernova/client.py:133 | A doubled `%%` is an escape that the interpolating parser's `set` accepts. |
| PackageManagement.DoRefresh | src/hypernova/modules/packagemanagement.py:17-28 | `do_refresh` calls the package manager's refresh once and nothing else. The payload is exactly `{'needs_update': needs_update}`, `success` is the refresh's success, and the code is 1 exactly on success. |
| PackageManagement.UpgradeFlag | src/hypernova/modules/packagemanagement.py:35-38 | The flag is true iff the parameters are an object with a truthy `upgrade` member. On an object the flag is always computed. Anything that raises, raises TypeError. |
| PackageManagement.DoUpdate | src/hypernova/modules/packagemanagement.py:30-45 | `do_update` always refreshes first. It then updates with the upgrade flag iff the flag could be computed, and otherwise stops with TypeError. The payload is `''`, `success` is the update's result, and the code is 1 exactly on success. |
| PackageManagementProperties.AbsentUpgradeIsPlainUpdate | src/hypernova/modules/packagemanagement.py:35-39 | With no `upgrade` member, the handler refreshes and then runs a plain update. |
| PackageManagementProperties.EmptyParametersUpdate | src/hypernova/modules/packagemanagement.py:35-39 | The default `{}` parameters lead to a plain update and a result. |
| PackageManagementProperties.UpdateReachedIff | src/hypernova/modules/packagemanagement.py:32-39 | The update is reached iff the parameters are an object, a list without the string `upgrade`, or a string without the substring `upgrade`. |
| PackageManagementProperties.CodeIsIntOfSuccess | src/hypernova/modules/packagemanagement.py:17-45 | Both handlers report `int(success)` as the code. |
| PackageManagement.Dispatch | python-src/hypernova/agent/__init__.py:311 | The handler that `getattr` finds for `do_refresh` or `do_update` is that method. |
| Service.Serve | python-src/hypernova/agent/__init__.py:219-381 | Every plain reply carries `Connection: close`, reports its status as the code, and follows no package-manager call. Every encrypted reply is a 200 sealed to the request's signer and signed with the agent's key. An empty reply is a 200 whose handler succeeded and whose encryption failed. The package manager is called iff a handler is invoked, and refresh comes first. |
| ServiceProperties.PackageManagerOnlyForAdmitted | python-src/hypernova/agent/__init__.py:317-323 | The package manager is touched iff the request passes every check, including that the Content-Length is one `rfile.read` accepts. |
| ServiceProperties.RefreshSplit | python-src/hypernova/agent/__init__.py:301 | `packagemanagement.refresh` splits into the module name and `refresh`. |
| ServiceProperties.RefreshMethod | python-src/hypernova/agent/__init__.py:311 | The action `refresh` names the handler `do_refresh`. |
| ServiceProperties.AddressedRequestInvoked | python-src/hypernova/agent/__init__.py:229-323 | A well-framed, signed request naming a known module and method, without `parameters`, invokes that method with `{}`, answered to the signer with the agent's key. |
| ServiceProperties.RefreshInvoked | python-src/hypernova/agent/__init__.py:301-323 | A signed request for `packagemanagement.refresh` invokes `do_refresh` with `{}`. |
| ServiceProperties.RefreshEndToEnd | src/hypernova/modules/packagemanagement.py:17-28 | That request refreshes once and is answered with 200. The body is `{'needs_update': …}` encrypted to the requester and signed by the agent, or empty when that encryption fails. |

## Left out

- GPG encryption, decryption and signing are oracles. Cryptographic correctness is not modelled. A decryption yields a plaintext and an optional signer fingerprint. The GPG wrapper (`hypernova.GPG`) is not part of this model, so two things about it are assumptions: `str` of a failed encryption is `''`, and a decryption without a known signer has no `fingerprint` attribute. The second is the premise of the agent's `hasattr` test at python-src/hypernova/agent/__init__.py:279, and it makes the client's comparison at src/hypernova/client.py:68 raise AttributeError. A wrapper that set `fingerprint` to `None` instead would let an unsigned request past line 279 and make the client raise ValueError; the model does not cover such a wrapper.
- HTTP parsing (`parse_request`) is an input that accepts a request or refuses it, optionally with an error. Its refusal goes through the same `send_error`.
- Socket reads are inputs that return data or time out. A Content-Length that `rfile.read` refuses raises before any read, and that is modelled. A length outside the C `ssize_t` range raises OverflowError (`AgentSpec.LengthFitsSsize`). A length that fits but is below -1 raises ValueError (`AgentSpec.LengthNotBelowEof`). Other read errors are not. The `socket.timeout` handler is modelled as closing with nothing written.
- The `Content-Type: application/json` header is buffered before a possible later `send_error`. Exact header framing, and the HTTP library's `Server`/`Date` headers, are not modelled.
- Once 200 has been sent, an exception in a handler escapes the connection (`Service.Aborted` with status 200). What the HTTP library then writes is not modelled.
- `ThreadingMixIn`, the keep-alive loop, logging, configuration loading, argparse, `sys.exit` plumbing and the `servers.ini` write are left out: they are I/O and process control.
- `_format_response` and `_serialise_response` live in base modules that are not part of this model. The result is a record of payload, success, code and message. The package-management handlers pass no message, so `""` is assumed.
- JSON numbers are integers. Floats are not modelled.
- `Agent.SelectSecretKey` chooses among keys by fingerprint. `Agent.Env.secretKey` is taken to be the fingerprint of the key it selected, which by its contract is the configured fingerprint. The agent's startup sequence that connects the two is not modelled.
- `Text.Lower` lower-cases ASCII letters only. Python's `str.lower` also maps other Unicode letters.
- `WordPress.Render` uses the corrected `__php_str` (see Findings). `WordPress.RenderWith(AsWritten, …)` is the renderer as written.
- The WordPress renderer's iteration order over the mapping is a parameter (`IsOrder`), because Python 3.2 dict order is not fixed. No particular line order is asserted.
- The `__ints` list in wordpress.py is never read by the renderer, so it is not modelled.
- `SiteProvisioner._provision` is left out: downloads, tarballs, users, MySQL, vhosts and random salts are all I/O.
- `Client.Configure` takes the parser's interpolation as a parameter (`Client.Interpolation`), because the configuration factory that builds it is not part of this model. With `BasicInterpolation`, a value with a lone `%` makes `set` raise ValueError. `set` writes into the defaults when the section name is empty, and that is modelled. The option-name transform is not modelled, because `addr` and `pubkey` are already lower case. That an empty section cannot be read back from the written file is not modelled either.
- The `config node add` import writes the key into the local keyring before the duplicate-name check. The keyring is not modelled.
- The appconfig HTTP server library and the provisioner package are not part of this model. They hold dynamic imports and stub methods only.
- `Client.Query` sees the HTTP exchange as an oracle (`Client.Exchange`) that delivers a decoded body, reports a body that is not UTF-8, or raises. Which exception the connection raises is not distinguished (`TransportError`), and closing the connection is not modelled.

## Findings

| source | as written | input that shows it | evidently intended | confidence | as-written member | corrected member |
|---|---|---|---|---|---|---|
| src/hypernova/libraries/siteconfig/wordpress.py:294 | The `re.sub` template `\\\\\'` yields `\\\'`, three backslashes and a quote, for each backslash or quote. PHP reads that as `\'`, so every such character comes back from `wp-config.php` as a backslash and a quote. | The value `'` (a lone quote) is written as `'\\\''`, which PHP reads as `\'`. | One backslash before each backslash or quote, so that PHP reads the value back unchanged. | not executed | WordPressProperties.QuoteIsGarbled | WordPressProperties.IntendedRoundTrip |
