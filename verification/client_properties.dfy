/**
 * Promises of the client: when a query's answer is accepted, and how the node
 * registry edits compose.
 */
module ClientProperties {
  import opened Wrappers
  import opened Json
  import opened Protocol
  import opened Client

  /** What the exchange of a query's request yields. */
  function Exchanged(env: ClientEnv, params: QueryParams, clientFp: Fingerprint, serverFp: Fingerprint): Exchange {
    env.exchange(RequestFor(env.encrypt(Plaintext(env, params), serverFp, clientFp).text))
  }

  /** A query returns a value exactly when the request could be encrypted, a
      UTF-8 reply came back, it is signed by the agent's key and its plaintext
      is JSON. */
  lemma QueryAcceptedIff(env: ClientEnv, params: QueryParams, clientFp: Fingerprint, serverFp: Fingerprint)
    ensures var enc := env.encrypt(Plaintext(env, params), serverFp, clientFp);
      var got := env.exchange(RequestFor(enc.text));
      Query(env, params, clientFp, serverFp).result.Success? <==>
        && enc.ok && got.Delivered?
        && env.decrypt(got.text).signer == Some(serverFp)
        && env.loads(env.decrypt(got.text).plaintext).Some?
  {
  }

  /** When the exchange itself fails, the query raises after sending: the
      connection's own exception, or ValueError for a body that is not UTF-8. */
  lemma {:induction false} ExchangeFailureRaises(env: ClientEnv, params: QueryParams, clientFp: Fingerprint, serverFp: Fingerprint)
    requires env.encrypt(Plaintext(env, params), serverFp, clientFp).ok
    requires !Exchanged(env, params, clientFp, serverFp).Delivered?
    ensures Query(env, params, clientFp, serverFp).sent.Some?
    ensures Query(env, params, clientFp, serverFp).result ==
      Failure(if Exchanged(env, params, clientFp, serverFp).ConnectionFailed? then TransportError else ValueError)
  {
    var q := Query(env, params, clientFp, serverFp);
    assert q.sent.Some?;
  }

  /** A reply that decrypts but is signed by another key is refused with ValueError. */
  lemma {:induction false} ForeignSignatureRefused(env: ClientEnv, params: QueryParams, clientFp: Fingerprint, serverFp: Fingerprint)
    requires env.encrypt(Plaintext(env, params), serverFp, clientFp).ok
    requires Exchanged(env, params, clientFp, serverFp).Delivered?
    requires var signer := env.decrypt(Exchanged(env, params, clientFp, serverFp).text).signer;
      signer.Some? && signer != Some(serverFp)
    ensures Query(env, params, clientFp, serverFp).sent.Some?
    ensures Query(env, params, clientFp, serverFp).result == Failure(ValueError)
  {
    var q := Query(env, params, clientFp, serverFp);
    assert q.sent.Some?;
    assert q.result.Failure?;
  }

  /** A reply that is not signed at all makes the comparison raise AttributeError. */
  lemma {:induction false} UnsignedReplyRaises(env: ClientEnv, params: QueryParams, clientFp: Fingerprint, serverFp: Fingerprint)
    requires env.encrypt(Plaintext(env, params), serverFp, clientFp).ok
    requires Exchanged(env, params, clientFp, serverFp).Delivered?
    requires env.decrypt(Exchanged(env, params, clientFp, serverFp).text).signer.None?
    ensures Query(env, params, clientFp, serverFp).sent.Some?
    ensures Query(env, params, clientFp, serverFp).result == Failure(AttributeError)
  {
    var q := Query(env, params, clientFp, serverFp);
    assert q.sent.Some?;
  }

  /** Passing an object or its JSON text makes the same query. */
  lemma StructuredIsItsSerialisation(env: ClientEnv, v: Value, clientFp: Fingerprint, serverFp: Fingerprint)
    ensures Query(env, Structured(v), clientFp, serverFp) == Query(env, Raw(env.dumps(v)), clientFp, serverFp)
  {
  }

  // ---- The node registry ---------------------------------------------------

  /**
   * Every section holds exactly the options `config node add` writes, with
   * values the parser's `set` accepts. No section is named `DEFAULT` or "":
   * a section header in the file needs at least one character, and the add
   * of "" is the one edit that creates such a section, empty.
   */
  predicate NodesWellFormed(reg: Registry, mode: Interpolation) {
    && DefaultSection !in reg.sections
    && "" !in reg.sections
    && forall n :: n in reg.sections ==>
         && reg.sections[n].Keys == {"addr", "pubkey"}
         && AcceptedBySet(mode, reg.sections[n]["addr"])
         && AcceptedBySet(mode, reg.sections[n]["pubkey"])
  }

  /** Every edit except an add named "" keeps the registry well formed. */
  lemma ConfigurePreservesShape(reg: Registry, cmd: ConfigCommand, mode: Interpolation)
    requires NodesWellFormed(reg, mode)
    ensures Configure(reg, cmd, mode).Saved? && !(cmd.AddNode? && cmd.name == "") ==>
      NodesWellFormed(Configure(reg, cmd, mode).registry, mode)
  {
  }

  /**
   * An add named "" leaves an empty section "" and writes the address and
   * fingerprint into the defaults, which every node inherits: the registry is
   * no longer well formed.
   */
  lemma EmptyNameWritesDefaults(reg: Registry, addr: string, fps: seq<Fingerprint>, mode: Interpolation)
    requires Configure(reg, AddNode("", addr, Some(fps)), mode).Saved?
    ensures var added := Configure(reg, AddNode("", addr, Some(fps)), mode).registry;
      && added.sections == reg.sections["" := map[]]
      && added.defaults == reg.defaults["addr" := addr]["pubkey" := fps[0]]
      && !NodesWellFormed(added, mode)
  {
    var added := Configure(reg, AddNode("", addr, Some(fps)), mode).registry;
    assert "" in added.sections;
  }

  /**
   * Removing a node that was just added restores the sections. The defaults
   * are restored too, except after an add named "": its options stay there.
   */
  lemma {:induction false} AddThenRemoveRestores(reg: Registry, name: string, addr: string, fps: seq<Fingerprint>, mode: Interpolation)
    requires Configure(reg, AddNode(name, addr, Some(fps)), mode).Saved?
    ensures Configure(Configure(reg, AddNode(name, addr, Some(fps)), mode).registry, RemoveNode(name), mode)
      == Saved(if name == "" then reg.(defaults := reg.defaults["addr" := addr]["pubkey" := fps[0]]) else reg)
  {
    var added := Configure(reg, AddNode(name, addr, Some(fps)), mode).registry;
    assert name in added.sections;
    assert added.sections - {name} == reg.sections;
    if name == "" {
      assert added.defaults == reg.defaults["addr" := addr]["pubkey" := fps[0]];
    }
  }

  /** Adding back a removed node, with the same address and key, restores the registry. */
  lemma {:induction false} RemoveThenAddRestores(reg: Registry, name: string, fps: seq<Fingerprint>, mode: Interpolation)
    requires NodesWellFormed(reg, mode) && name in reg.sections
    requires fps != [] && fps[0] == reg.sections[name]["pubkey"]
    ensures var removed := Configure(reg, RemoveNode(name), mode).registry;
      Configure(removed, AddNode(name, reg.sections[name]["addr"], Some(fps)), mode) == Saved(reg)
  {
    var removed := Configure(reg, RemoveNode(name), mode).registry;
    assert removed == Registry(reg.defaults, reg.sections - {name});
    var addr := reg.sections[name]["addr"];
    AddWritesNode(removed, name, addr, fps, mode);
    WellFormedNodeIsOptions(reg, mode, name);
    ReinsertRestores(reg.sections, name, NodeOptions(addr, fps[0]));
  }

  /** Putting back the entry a map had under `key` gives back the map. */
  lemma ReinsertRestores(m: Sections, key: string, entry: map<string, string>)
    requires key in m && m[key] == entry
    ensures (m - {key})[key := entry] == m
  {
  }

  /** An accepted add under a fresh, non-empty name adds exactly that node. */
  lemma AddWritesNode(reg: Registry, name: string, addr: string, fps: seq<Fingerprint>, mode: Interpolation)
    requires name != "" && name != DefaultSection && name !in reg.sections
    requires fps != [] && AcceptedBySet(mode, addr) && AcceptedBySet(mode, fps[0])
    ensures Configure(reg, AddNode(name, addr, Some(fps)), mode)
      == Saved(Registry(reg.defaults, reg.sections[name := NodeOptions(addr, fps[0])]))
  {
  }

  /** A well-formed node is exactly the options an add writes. */
  lemma WellFormedNodeIsOptions(reg: Registry, mode: Interpolation, name: string)
    requires NodesWellFormed(reg, mode) && name in reg.sections
    ensures reg.sections[name] == NodeOptions(reg.sections[name]["addr"], reg.sections[name]["pubkey"])
  {
  }

  /** A second add under the same name is refused and writes nothing. */
  lemma {:induction false} AddTwiceRefused(reg: Registry, name: string, addr: string, fps: seq<Fingerprint>,
                                           addr2: string, fps2: seq<Fingerprint>, mode: Interpolation)
    requires Configure(reg, AddNode(name, addr, Some(fps)), mode).Saved?
    requires fps2 != []
    ensures Configure(Configure(reg, AddNode(name, addr, Some(fps)), mode).registry, AddNode(name, addr2, Some(fps2)), mode)
            == Exited(UsageError)
  {
    var added := Configure(reg, AddNode(name, addr, Some(fps)), mode).registry;
    assert name in added.sections && name != DefaultSection;
  }

  /** Values without `%` are accepted by any parser, so the interpolation mode
      only matters for them. */
  lemma {:induction false} PercentFreeIgnoresInterpolation(reg: Registry, cmd: ConfigCommand)
    requires cmd.AddNode? ==> '%' !in cmd.addr
    requires cmd.AddNode? && cmd.keyFile.Some? && cmd.keyFile.value != [] ==> '%' !in cmd.keyFile.value[0]
    ensures Configure(reg, cmd, BasicInterpolation) == Configure(reg, cmd, NoInterpolation)
  {
    if cmd.AddNode? && cmd.keyFile.Some? && cmd.keyFile.value != [] {
      PercentFreeAccepted(cmd.addr);
      PercentFreeAccepted(cmd.keyFile.value[0]);
    }
  }

  /** A value without `%` passes both removals unchanged, so any parser accepts it. */
  lemma PercentFreeAccepted(v: string)
    requires '%' !in v
    ensures DropReferences(DropEscapedPercents(v)) == v
    ensures AcceptedBySet(BasicInterpolation, v)
  {
    PercentFreeNoEscapes(v);
    PercentFreeNoReferences(v);
  }

  lemma {:induction false} PercentFreeNoEscapes(v: string)
    requires '%' !in v
    ensures DropEscapedPercents(v) == v
    decreases |v|
  {
    if v != [] {
      assert v[0] in v;
      assert '%' !in v[1..] by {
        forall k | 0 <= k < |v[1..]| ensures v[1..][k] != '%' {
          assert v[1..][k] == v[k + 1] && v[k + 1] in v;
        }
      }
      PercentFreeNoEscapes(v[1..]);
      assert v == [v[0]] + v[1..];
    }
  }

  lemma {:induction false} PercentFreeNoReferences(v: string)
    requires '%' !in v
    ensures DropReferences(v) == v
    decreases |v|
  {
    if v != [] {
      assert v[0] in v;
      assert ReferenceLength(v) == 0;
      assert '%' !in v[1..] by {
        forall k | 0 <= k < |v[1..]| ensures v[1..][k] != '%' {
          assert v[1..][k] == v[k + 1] && v[k + 1] in v;
        }
      }
      PercentFreeNoReferences(v[1..]);
      assert v == [v[0]] + v[1..];
    }
  }

  /** An IPv6 address with a zone index has a lone `%`: an interpolating parser
      refuses it, and the add raises ValueError instead of saving. */
  lemma ZoneIndexAddressRaises(reg: Registry, name: string, fps: seq<Fingerprint>)
    requires name != DefaultSection && name !in reg.sections && fps != []
    ensures Configure(reg, AddNode(name, "fe80::1%eth0", Some(fps)), BasicInterpolation) == Raised(ValueError)
  {
    ZoneIndexRefused();
  }

  lemma ZoneIndexRefused()
    ensures !AcceptedBySet(BasicInterpolation, "fe80::1%eth0")
  {
    var v := "fe80::1%eth0";
    ZoneIndexPercentIsLone();
    assert v[..7] == "fe80::1" && v[7..] == "%eth0";
    assert ReferenceLength("%eth0") == 0;
    LonePercentRefused(v, 7);
  }

  /** The lone `%` of a zone index is not an escape. */
  lemma ZoneIndexPercentIsLone()
    ensures NoDoubledPercent("fe80::1%eth0")
  {
    var v := "fe80::1%eth0";
    forall k | 0 <= k < |v| - 1 ensures v[k] != '%' || v[k + 1] != '%' {
      if k != 7 {
        assert v[k] != '%';
      }
    }
  }

  /** No `%` in `v` is immediately followed by another, so `%%` never occurs. */
  predicate NoDoubledPercent(v: string) {
    forall k :: 0 <= k < |v| - 1 ==> v[k] != '%' || v[k + 1] != '%'
  }

  /** A first `%` that is neither an escape nor a reference makes the
      interpolating parser refuse the value. */
  lemma LonePercentRefused(v: string, i: nat)
    requires NoDoubledPercent(v)
    requires i < |v| && v[i] == '%' && '%' !in v[..i] && ReferenceLength(v[i..]) == 0
    ensures !AcceptedBySet(BasicInterpolation, v)
  {
    LonePercentsNoEscapes(v);
    PercentSurvivesReferences(v, i);
  }

  /** Text in which no `%` is followed by another passes the `%%` removal unchanged. */
  lemma {:induction false} LonePercentsNoEscapes(v: string)
    requires NoDoubledPercent(v)
    ensures DropEscapedPercents(v) == v
    decreases |v|
  {
    if v != [] {
      var t := v[1..];
      assert NoDoubledPercent(t) by {
        forall k | 0 <= k < |t| - 1 ensures t[k] != '%' || t[k + 1] != '%' {
          assert t[k] == v[k + 1] && t[k + 1] == v[k + 2];
        }
      }
      LonePercentsNoEscapes(t);
      assert v == [v[0]] + t;
    }
  }

  /** The first `%`, when no reference starts there, survives the removal of references. */
  lemma {:induction false} PercentSurvivesReferences(v: string, i: nat)
    requires i < |v| && v[i] == '%' && '%' !in v[..i] && ReferenceLength(v[i..]) == 0
    ensures '%' in DropReferences(v)
    decreases i
  {
    if i == 0 {
      assert v[0..] == v;
      assert DropReferences(v)[0] == '%';
    } else {
      assert v[0] in v[..i];
      assert ReferenceLength(v) == 0;
      assert v[1..][i - 1..] == v[i..];
      assert v[1..][..i - 1] == v[1..i];
      assert forall k :: 0 <= k < i - 1 ==> v[1..i][k] == v[..i][k + 1];
      PercentSurvivesReferences(v[1..], i - 1);
      assert DropReferences(v) == [v[0]] + DropReferences(v[1..]);
    }
  }

  /** A doubled percent sign is an escape, which the interpolating parser accepts. */
  lemma EscapedPercentAccepted()
    ensures AcceptedBySet(BasicInterpolation, "50%%")
  {
    assert DropEscapedPercents("%%") == "";
    assert DropEscapedPercents("0%%") == "0";
    assert DropEscapedPercents("50%%") == "50";
    assert DropReferences("50") == "50";
  }
}
