/**
 * What the generated `wp-config.php` contains: the escaping of string values
 * and what PHP reads back from it, which attributes can produce `true` or
 * `false`, and the shape of the file.
 */
module WordPressProperties {
  import opened Wrappers
  import opened WordPress
  import Text
  import Php

  /** Neither a backslash nor a quote occurs in `s`. */
  predicate Plain(s: string) {
    forall i :: 0 <= i < |s| ==> !Special(s[i])
  }

  // ---- __php_str, character by character --------------------------------

  /** Escaping works character by character: it distributes over concatenation. */
  lemma {:induction false} EscapeAsWrittenDistributes(a: string, b: string)
    ensures EscapeAsWritten(a + b) == EscapeAsWritten(a) + EscapeAsWritten(b)
    decreases |a|
  {
    if a == [] {
      assert a + b == b;
    } else {
      var head := if Special(a[0]) then Replacement else [a[0]];
      assert (a + b)[0] == a[0];
      assert (a + b)[1..] == a[1..] + b;
      EscapeAsWrittenDistributes(a[1..], b);
      calc {
        EscapeAsWritten(a + b);
        head + EscapeAsWritten(a[1..] + b);
        head + (EscapeAsWritten(a[1..]) + EscapeAsWritten(b));
        (head + EscapeAsWritten(a[1..])) + EscapeAsWritten(b);
      }
    }
  }

  /** A single character is replaced by `Replacement` when it is a backslash or a
      quote, and kept otherwise. */
  lemma EscapeAsWrittenOneChar(c: char)
    ensures EscapeAsWritten([c]) == if Special(c) then Replacement else [c]
  {
    assert [c][1..] == [];
  }

  /** Text without backslashes or quotes is kept unchanged, by either escaping. */
  lemma {:induction false} PlainTextUnchanged(e: Escaping, s: string)
    requires Plain(s)
    ensures Escape(e, s) == s
    decreases |s|
  {
    if s != [] {
      assert Plain(s[1..]) by {
        forall i | 0 <= i < |s[1..]| ensures !Special(s[1..][i]) {
          assert s[1..][i] == s[i + 1];
        }
      }
      PlainTextUnchanged(e, s[1..]);
      assert s == [s[0]] + s[1..];
    }
  }

  // ---- What PHP reads back ------------------------------------------------

  /** The text PHP reads from `__php_str`'s output: each backslash or quote has
      become the two characters `\'`. */
  function ReadBackAsWritten(s: string): string {
    if s == [] then []
    else (if Special(s[0]) then "\\'" else [s[0]]) + ReadBackAsWritten(s[1..])
  }

  lemma {:induction false} DecodeEscapedAsWritten(s: string)
    ensures Php.DecodeSingleQuoted(EscapeAsWritten(s)) == Some(ReadBackAsWritten(s))
    decreases |s|
  {
    if s != [] {
      var rest := EscapeAsWritten(s[1..]);
      DecodeEscapedAsWritten(s[1..]);
      if Special(s[0]) {
        var body := Replacement + rest;
        assert EscapeAsWritten(s) == body;
        assert body[0] == '\\' && body[1] == '\\';
        var tail := body[2..];
        assert tail == "\\'" + rest;
        assert tail[0] == '\\' && tail[1] == '\'';
        assert tail[2..] == rest;
        assert Php.DecodeSingleQuoted(tail) == Some("'" + ReadBackAsWritten(s[1..]));
        assert Php.DecodeSingleQuoted(body) == Some("\\" + ("'" + ReadBackAsWritten(s[1..])));
        assert ReadBackAsWritten(s) == "\\'" + ReadBackAsWritten(s[1..]);
        assert "\\" + ("'" + ReadBackAsWritten(s[1..])) == "\\'" + ReadBackAsWritten(s[1..]);
      } else {
        var body := [s[0]] + rest;
        assert body[1..] == rest;
      }
    }
  }

  /** PHP reads the value `__php_str` wrote with every backslash or quote garbled. */
  lemma PhpReadsAsWrittenGarbled(s: string)
    ensures Php.Unquote(Quote(AsWritten, s)) == Some(ReadBackAsWritten(s))
  {
    var q := Quote(AsWritten, s);
    assert q[1..|q| - 1] == EscapeAsWritten(s);
    DecodeEscapedAsWritten(s);
  }

  lemma {:induction false} ReadBackPreservesOnlyPlain(s: string)
    ensures ReadBackAsWritten(s) == s <==> Plain(s)
    decreases |s|
  {
    if s != [] {
      ReadBackPreservesOnlyPlain(s[1..]);
      var r := ReadBackAsWritten(s[1..]);
      if Special(s[0]) {
        assert |ReadBackAsWritten(s)| > |s| by { ReadBackLength(s[1..]); }
      } else {
        assert Plain(s) <==> Plain(s[1..]) by {
          if Plain(s[1..]) {
            forall i | 0 <= i < |s| ensures !Special(s[i]) {
              if i > 0 { assert s[i] == s[1..][i - 1]; }
            }
          }
          if Plain(s) {
            forall i | 0 <= i < |s[1..]| ensures !Special(s[1..][i]) {
              assert s[1..][i] == s[i + 1];
            }
          }
        }
        assert s == [s[0]] + s[1..];
      }
    }
  }

  lemma {:induction false} ReadBackLength(s: string)
    ensures |ReadBackAsWritten(s)| >= |s|
    decreases |s|
  {
    if s != [] {
      ReadBackLength(s[1..]);
    }
  }

  /** PHP reads back exactly the original value iff it has no backslash or quote. */
  lemma AsWrittenRoundTripIff(s: string)
    ensures Php.Unquote(Quote(AsWritten, s)) == Some(s) <==> Plain(s)
  {
    PhpReadsAsWrittenGarbled(s);
    ReadBackPreservesOnlyPlain(s);
  }

  /** The smallest value that shows it: a lone quote is read back as `\'`. */
  lemma QuoteIsGarbled()
    ensures Php.Unquote(Quote(AsWritten, "'")) == Some("\\'")
    ensures Php.Unquote(Quote(AsWritten, "'")) != Some("'")
  {
    PhpReadsAsWrittenGarbled("'");
    assert "'"[1..] == [];
    assert ReadBackAsWritten("'") == "\\'" + ReadBackAsWritten([]);
    assert ReadBackAsWritten([]) == [];
    assert "\\'" + [] == "\\'";
  }

  lemma {:induction false} DecodeEscapedIntended(s: string)
    ensures Php.DecodeSingleQuoted(EscapeIntended(s)) == Some(s)
    decreases |s|
  {
    if s != [] {
      var rest := EscapeIntended(s[1..]);
      DecodeEscapedIntended(s[1..]);
      if Special(s[0]) {
        var body := ['\\', s[0]] + rest;
        assert body[2..] == rest;
      } else {
        var body := [s[0]] + rest;
        assert body[1..] == rest;
      }
      assert s == [s[0]] + s[1..];
    }
  }

  /** With the intended escaping PHP reads back every value unchanged. */
  lemma IntendedRoundTrip(s: string)
    ensures Php.Unquote(Quote(Intended, s)) == Some(s)
  {
    var q := Quote(Intended, s);
    assert q[1..|q| - 1] == EscapeIntended(s);
    DecodeEscapedIntended(s);
  }

  // ---- Which attributes can produce `true` or `false` ---------------------

  /** Only a truthy attribute of the boolean list ever produces `true`. */
  lemma OnlyBoolsEmitTrue(e: Escaping, key: string, v: Setting)
    ensures ValueText(e, key, v) == Some("true") <==> key in Bools && Truthy(v)
  {
    if Truthy(v) && key !in Bools && key !in ReverseBools {
      assert Quote(e, PyStr(v))[0] == '\'';
    }
  }

  /** Only a truthy attribute of the reversed list ever produces `false`. */
  lemma OnlyReverseBoolsEmitFalse(e: Escaping, key: string, v: Setting)
    ensures ValueText(e, key, v) == Some("false") <==> key in ReverseBools && Truthy(v)
  {
    if key in ReverseBools {
      assert key !in Bools;
    }
    if Truthy(v) && key !in Bools && key !in ReverseBools {
      assert Quote(e, PyStr(v))[0] == '\'';
    }
  }

  /** `cron_alternate` is missing from the boolean list (it is spelt
      `cron_alternative` there), so `True` is rendered as the string `'True'`. */
  lemma CronAlternateRenderedAsString()
    ensures ValueText(AsWritten, "cron_alternate", Flag(true)) == Some("'True'")
  {
    assert "cron_alternate" !in Bools && "cron_alternate" !in ReverseBools;
    assert PyStr(Flag(true)) == "True";
    assert Plain("True");
    PlainTextUnchanged(AsWritten, "True");
    assert Quote(AsWritten, "True") == "'" + "True" + "'" == "'True'";
  }

  /** An integer attribute is rendered as its decimal digits between quotes. */
  lemma IntegerRenderedQuoted(e: Escaping, key: string, i: int)
    requires i != 0 && key !in Bools && key !in ReverseBools
    ensures ValueText(e, key, Number(i)) == Some("'" + Text.ShowInt(i) + "'")
  {
    var t := Text.ShowInt(i);
    assert Plain(t) by {
      forall k | 0 <= k < |t| ensures !Special(t[k]) {
        assert Text.IsDigit(t[k]) || t[k] == '-';
      }
    }
    PlainTextUnchanged(e, t);
  }

  // ---- The lines and the file ---------------------------------------------

  /** The attributes that produce lines: those of `order` with a truthy value. */
  lemma {:induction false} EmittedAreTheTruthy(config: map<string, Setting>, order: seq<string>)
    ensures forall k :: k in Emitted(config, order) <==> k in order && Truthy(Lookup(config, k))
    decreases |order|
  {
    if order != [] {
      EmittedAreTheTruthy(config, order[1..]);
      assert forall k :: k in order <==> k == order[0] || k in order[1..];
    }
  }

  /** An attribute listed once in the order produces at most one line. */
  lemma {:induction false} EmittedOnce(config: map<string, Setting>, order: seq<string>)
    requires Distinct(order)
    ensures Distinct(Emitted(config, order))
    decreases |order|
  {
    if order != [] {
      EmittedOnce(config, order[1..]);
      EmittedAreTheTruthy(config, order[1..]);
      assert order[0] !in order[1..] by {
        forall j | 0 <= j < |order[1..]| ensures order[1..][j] != order[0] {
          assert order[1..][j] == order[j + 1];
        }
      }
      var rest := Emitted(config, order[1..]);
      if Truthy(Lookup(config, order[0])) {
        var em := [order[0]] + rest;
        assert Emitted(config, order) == em;
        assert Distinct(rest);
        forall i, j | 0 <= i < j < |em| ensures em[i] != em[j] {
          assert em[j] == rest[j - 1] && rest[j - 1] in rest;
          if i == 0 {
            assert em[i] == order[0];
          } else {
            assert em[i] == rest[i - 1];
            assert rest[i - 1] != rest[j - 1];
          }
        }
      } else {
        assert Emitted(config, order) == rest;
      }
    }
  }

  /** The i-th line is `define('<constant>', <value>);` for the i-th emitted attribute. */
  lemma {:induction false} LinesFollowEmitted(e: Escaping, config: map<string, Setting>, order: seq<string>)
    requires forall k :: k in order ==> k in Mapping
    ensures var lines, em := Lines(e, config, order), Emitted(config, order);
      && |lines| == |em|
      && forall i :: 0 <= i < |em| ==>
           em[i] in Mapping && ValueText(e, em[i], Lookup(config, em[i])).Some?
           && lines[i] == Define(Mapping[em[i]], ValueText(e, em[i], Lookup(config, em[i])).value)
    decreases |order|
  {
    if order != [] {
      var key := order[0];
      LinesFollowEmitted(e, config, order[1..]);
      var lines, em := Lines(e, config, order[1..]), Emitted(config, order[1..]);
      if Truthy(Lookup(config, key)) {
        var line := Define(Mapping[key], ValueText(e, key, Lookup(config, key)).value);
        assert Lines(e, config, order) == [line] + lines;
        assert Emitted(config, order) == [key] + em;
      } else {
        assert Lines(e, config, order) == lines;
        assert Emitted(config, order) == em;
      }
    }
  }

  /** In the file `Render` writes, every quoted value reads back in PHP as the
      Python value it came from. */
  lemma RenderedStringsReadBack(config: map<string, Setting>, order: seq<string>, i: nat)
    requires IsOrder(order)
    requires i < |Emitted(config, order)|
    requires Emitted(config, order)[i] !in Bools && Emitted(config, order)[i] !in ReverseBools
    ensures var key := Emitted(config, order)[i];
      var literal := Quote(Intended, PyStr(Lookup(config, key)));
      && key in Mapping && i < |Lines(Intended, config, order)|
      && Lines(Intended, config, order)[i] == Define(Mapping[key], literal)
      && Php.Unquote(literal) == Some(PyStr(Lookup(config, key)))
  {
    LinesFollowEmitted(Intended, config, order);
    var key := Emitted(config, order)[i];
    IntendedRoundTrip(PyStr(Lookup(config, key)));
  }

  /** An attribute whose value is falsy produces no line. */
  lemma FalsyProducesNoLine(config: map<string, Setting>, order: seq<string>, key: string)
    requires !Truthy(Lookup(config, key))
    ensures key !in Emitted(config, order)
  {
    EmittedAreTheTruthy(config, order);
  }

  /** No line is written exactly when no attribute is emitted. */
  lemma {:induction false} NoLinesIffNoneEmitted(e: Escaping, config: map<string, Setting>, order: seq<string>)
    requires forall k :: k in order ==> k in Mapping
    ensures Lines(e, config, order) == [] <==> Emitted(config, order) == []
    decreases |order|
  {
    if order != [] {
      NoLinesIffNoneEmitted(e, config, order[1..]);
    }
  }

  /** The file is the prefix, a newline, the lines joined by newlines, a newline
      and the suffix; with no options the middle is empty. */
  lemma RenderLayout(e: Escaping, config: map<string, Setting>, order: seq<string>)
    requires IsOrder(order)
    ensures Emitted(config, order) == [] <==>
      RenderWith(e, config, order) == FilePre + "\n" + "\n" + FilePost
  {
    var middle := Text.Join(Lines(e, config, order), "\n");
    NoLinesIffNoneEmitted(e, config, order);
    if Emitted(config, order) == [] {
      assert middle == "";
    } else {
      var lines := Lines(e, config, order);
      assert lines != [];
      assert |middle| > 0 by {
        assert |lines[0]| > 8;
        JoinStartsWithFirst(lines, "\n");
      }
      assert |RenderWith(e, config, order)| > |FilePre + "\n" + "\n" + FilePost|;
    }
  }

  /** A join starts with its first part. */
  lemma JoinStartsWithFirst(parts: seq<string>, sep: string)
    requires parts != []
    ensures |Text.Join(parts, sep)| >= |parts[0]|
  {
  }

  /** The versioned URL gives back the version it was built from. */
  lemma VersionOfVersionedUrl(version: string)
    ensures VersionOf(VersionedSourceUrl(version)) == Some(version)
  {
    var url := VersionedSourceUrl(version);
    assert url[..|VersionedPrefix|] == VersionedPrefix;
    assert url[|url| - |TarballSuffix|..] == TarballSuffix;
    assert url[|VersionedPrefix|..|url| - |TarballSuffix|] == version;
  }

  /** The source URL records whether a version was given, and which. */
  lemma SourceUrlRecordsVersion(parameters: seq<string>)
    requires |parameters| >= 1
    ensures var url := ProvisionTarget(parameters).value.sourceUrl;
      && (|parameters| >= 2 ==> VersionOf(url) == Some(parameters[1]))
      && (|parameters| == 1 ==> VersionOf(url).None? && url == LatestSourceUrl)
  {
    if |parameters| >= 2 {
      VersionOfVersionedUrl(parameters[1]);
    }
  }
}
