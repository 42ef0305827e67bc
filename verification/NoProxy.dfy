/**
 * The token view of the `no_proxy` environment variable that
 * `add_to_no_proxy(entries)` reads and rewrites: the value is stripped of
 * surrounding whitespace, split on `,` unless it is then empty, united with
 * `entries`, and written back joined by `,` in Python's (unspecified) set order.
 */
module NoProxy {
  import opened Results
  import opened Text

  const NoProxyKey := "no_proxy"
  const HttpProxyKey := "http_proxy"
  const HttpsProxyKey := "https_proxy"

  /** The hosts the report script always exempts from the proxy. */
  const Loopback: seq<string> := ["127.0.0.1", "localhost"]

  /** `os.environ.get(key, default)`. */
  function Get(env: map<string, string>, key: string, default: string): (v: string)
    ensures key in env ==> v == env[key]
    ensures key !in env ==> v == default
  {
    if key in env then env[key] else default
  }

  /**
   * The set `add_to_no_proxy` builds from a `no_proxy` value: empty when the
   * value is blank, the `,`-separated parts of the stripped value otherwise.
   */
  function ValueTokens(value: string): (tokens: set<string>)
    ensures tokens == {} <==> forall i :: 0 <= i < |value| ==> value[i] in Whitespace
    ensures forall t :: t in tokens ==> ',' !in t
  {
    var stripped := Strip(value, Whitespace);
    if stripped == "" then {}
    else
      var parts := Split(stripped, ',');
      SplitFields(stripped, ',');
      assert parts[0] in parts;
      ToSet(parts)
  }

  /** The tokens of the environment's `no_proxy`, absent counting as empty. */
  function CurrentTokens(env: map<string, string>): set<string>
  {
    ValueTokens(Get(env, NoProxyKey, ""))
  }

  /**
   * Proof helper: unfolds `CurrentTokens` into the two cases `add_to_no_proxy`
   * distinguishes, a blank value giving no tokens.
   */
  lemma CurrentTokensCases(env: map<string, string>)
    ensures var value := Strip(Get(env, NoProxyKey, ""), Whitespace);
      CurrentTokens(env) == if value == "" then {} else ToSet(Split(value, ','))
  {
  }

  /** `order` lists every element of `tokens` exactly once: one possible set iteration order. */
  predicate Enumerates(order: seq<string>, tokens: set<string>)
  {
    && (forall i, j :: 0 <= i < j < |order| ==> order[i] != order[j])
    && ToSet(order) == tokens
  }

  /** `value` is `','.join(tokens)` for some iteration order of the set. */
  ghost predicate JoinedFrom(value: string, tokens: set<string>)
  {
    exists order :: Enumerates(order, tokens) && value == Join(order, ',')
  }

  /**
   * `','.join(tokens)` for a set: the elements are visited in an order the
   * model leaves open, and `order` records the one taken.
   */
  method JoinTokens(tokens: set<string>) returns (joined: string, ghost order: seq<string>)
    ensures Enumerates(order, tokens)
    ensures joined == Join(order, ',')
  {
    var rest := tokens;
    joined := "";
    order := [];
    var first := true;
    while rest != {}
      invariant rest <= tokens
      invariant ToSet(order) == tokens - rest
      invariant forall i, j :: 0 <= i < j < |order| ==> order[i] != order[j]
      invariant first <==> order == []
      invariant joined == Join(order, ',')
      decreases rest
    {
      var t :| t in rest;
      assert ([t] + order)[1..] == order;
      assert ToSet([t] + order) == {t} + ToSet(order);
      joined := if first then t else t + [','] + joined;
      order := [t] + order;
      first := false;
      rest := rest - {t};
    }
  }

  /**
   * Tokens that survive being joined and read back: none holds a comma or
   * begins or ends with whitespace, and the set is not the lone empty token.
   */
  predicate Clean(tokens: set<string>)
  {
    tokens != {""} && forall t :: t in tokens ==> CleanToken(t)
  }

  /** A token that holds no comma and neither begins nor ends with whitespace. */
  predicate CleanToken(t: string)
  {
    ',' !in t && (t != "" ==> t[0] !in Whitespace && t[|t| - 1] !in Whitespace)
  }

  /** The loopback hosts are clean tokens. */
  lemma LoopbackClean()
    ensures Clean(ToSet(Loopback))
  {
    var ip, host := Loopback[0], Loopback[1];
    assert ToSet(Loopback) == {ip, host};
    assert ip[0] == '1' && ip[|ip| - 1] == '1' && ',' !in ip;
    assert host[0] == 'l' && host[|host| - 1] == 't' && ',' !in host;
    assert !IsSpace('1') && !IsSpace('l') && !IsSpace('t');
  }

  /** Reading back a join of clean tokens, in any order, gives exactly those tokens. */
  lemma {:induction false} TokensRoundTrip(order: seq<string>)
    requires Clean(ToSet(order))
    ensures ValueTokens(Join(order, ',')) == ToSet(order)
  {
    var v := Join(order, ',');
    if order != [] {
      assert order[0] in ToSet(order);
      assert |v| > 0 by {
        if |order| == 1 {
          assert ToSet(order) == {order[0]};
        } else {
          assert v == order[0] + [','] + Join(order[1..], ',');
        }
      }
      JoinEdges(order, ',');
      assert order[|order| - 1] in ToSet(order);
      assert ',' !in Whitespace;
      StripKeeps(v, Whitespace);
      SplitJoin(order, ',');
    }
  }

  /**
   * After `add_to_no_proxy(entries)` has written `Join(order, ',')`, reading
   * `no_proxy` back gives the old tokens united with `entries`: nothing that
   * was there is lost.
   */
  lemma AddKeepsTokens(before: string, entries: seq<string>, order: seq<string>)
    requires Enumerates(order, ValueTokens(before) + ToSet(entries))
    requires Clean(ValueTokens(before) + ToSet(entries))
    ensures ValueTokens(Join(order, ',')) == ValueTokens(before) + ToSet(entries)
    ensures ValueTokens(before) <= ValueTokens(Join(order, ','))
  {
    TokensRoundTrip(order);
  }

  /**
   * The entries always survive the update, whatever the old tokens look like
   * (`"a, b"`, say): stripping the joined value only touches its first and
   * last fields, and a clean entry is unchanged by that.
   */
  lemma EntriesKept(before: string, entries: seq<string>, order: seq<string>)
    requires Clean(ToSet(entries))
    requires Enumerates(order, ValueTokens(before) + ToSet(entries))
    ensures ToSet(entries) <= ValueTokens(Join(order, ','))
  {
    forall p | p in order
      ensures ',' !in p
    {
      assert p in ToSet(order);
    }
    forall e | e in ToSet(entries)
      ensures e in ValueTokens(Join(order, ','))
    {
      assert e in ToSet(order);
      TokenReadBack(order, e);
    }
  }

  /**
   * A clean old token always survives the update, even beside unclean ones
   * (`".corp, .example.com"`, say), as long as no entry holds a comma and the
   * united tokens are not the lone empty one.
   */
  lemma OldCleanKept(before: string, entries: seq<string>, order: seq<string>, t: string)
    requires Enumerates(order, ValueTokens(before) + ToSet(entries))
    requires t in ValueTokens(before) && CleanToken(t)
    requires ValueTokens(before) + ToSet(entries) != {""}
    requires forall e :: e in entries ==> ',' !in e
    ensures t in ValueTokens(Join(order, ','))
  {
    forall p | p in order
      ensures ',' !in p
    {
      assert p in ToSet(order);
    }
    assert t in ToSet(order);
    TokenReadBack(order, t);
  }

  /** A clean token among comma-free fields is read back from their join. */
  lemma TokenReadBack(order: seq<string>, e: string)
    requires e in order && CleanToken(e) && order != [""]
    requires forall p :: p in order ==> ',' !in p
    ensures e in ValueTokens(Join(order, ','))
  {
    var v := Join(order, ',');
    var i :| 0 <= i < |order| && order[i] == e;
    JoinNotBlank(order, e);
    StrippedFields(order);
    var fields := [LStrip(order[0], Whitespace)] + order[1..];
    var kept := fields[..|fields| - 1] + [RStrip(fields[|fields| - 1], Whitespace)];
    EntryField(order, fields, kept, i);
    assert ValueTokens(v) == ToSet(kept);
    assert kept[i] in kept;
  }

  /** A join holding a clean token, other than the lone empty one, is not blank. */
  lemma JoinNotBlank(order: seq<string>, e: string)
    requires e in order && CleanToken(e) && order != [""]
    ensures Strip(Join(order, ','), Whitespace) != ""
  {
    var v := Join(order, ',');
    if |order| == 1 {
      assert v == e && e != "";
      assert v[0] !in Whitespace;
    } else {
      assert v == order[0] + [','] + Join(order[1..], ',');
      assert v[|order[0]|] == ',' && !IsSpace(',');
    }
  }

  /** The fields of a stripped join: the first left-stripped, the last right-stripped, the rest untouched. */
  lemma StrippedFields(order: seq<string>)
    requires |order| >= 1 && forall p :: p in order ==> ',' !in p
    ensures var fields := [LStrip(order[0], Whitespace)] + order[1..];
      Split(Strip(Join(order, ','), Whitespace), ',')
        == fields[..|fields| - 1] + [RStrip(fields[|fields| - 1], Whitespace)]
  {
    var v := Join(order, ',');
    SplitJoin(order, ',');
    assert !IsSpace(',');
    SplitLStrip(v, ',', Whitespace);
    SplitRStrip(LStrip(v, Whitespace), ',', Whitespace);
  }

  /** A clean token keeps its place among the fields after the two ends are stripped. */
  lemma EntryField(order: seq<string>, fields: seq<string>, kept: seq<string>, i: nat)
    requires i < |order| && CleanToken(order[i])
    requires fields == [LStrip(order[0], Whitespace)] + order[1..]
    requires kept == fields[..|fields| - 1] + [RStrip(fields[|fields| - 1], Whitespace)]
    ensures |kept| == |order| && kept[i] == order[i]
  {
    var e := order[i];
    assert LStrip(e, Whitespace) == e;
    assert RStrip(e, Whitespace) == e;
    assert fields[i] == e;
  }

  /**
   * What `add_to_no_proxy` writes back: a join of the united tokens in some
   * order, which reads back as exactly those tokens when they are clean.
   */
  lemma WrittenBack(env: map<string, string>, entries: seq<string>, order: seq<string>, joined: string)
    requires Enumerates(order, CurrentTokens(env) + ToSet(entries))
    requires joined == Join(order, ',')
    ensures JoinedFrom(joined, CurrentTokens(env) + ToSet(entries))
    ensures Clean(CurrentTokens(env) + ToSet(entries)) ==>
              CurrentTokens(env[NoProxyKey := joined]) == CurrentTokens(env) + ToSet(entries)
    ensures Clean(ToSet(entries)) ==> ToSet(entries) <= CurrentTokens(env[NoProxyKey := joined])
    ensures (forall e :: e in entries ==> ',' !in e) && CurrentTokens(env) + ToSet(entries) != {""} ==>
              forall t :: t in CurrentTokens(env) && CleanToken(t) ==> t in CurrentTokens(env[NoProxyKey := joined])
  {
    assert CurrentTokens(env[NoProxyKey := joined]) == ValueTokens(joined);
    if Clean(CurrentTokens(env) + ToSet(entries)) {
      AddKeepsTokens(Get(env, NoProxyKey, ""), entries, order);
    }
    if Clean(ToSet(entries)) {
      EntriesKept(Get(env, NoProxyKey, ""), entries, order);
    }
    if (forall e :: e in entries ==> ',' !in e) && CurrentTokens(env) + ToSet(entries) != {""} {
      forall t | t in CurrentTokens(env) && CleanToken(t)
        ensures t in CurrentTokens(env[NoProxyKey := joined])
      {
        OldCleanKept(Get(env, NoProxyKey, ""), entries, order, t);
      }
    }
  }

  /** From an absent or blank `no_proxy`, the tokens afterwards are exactly `entries`. */
  lemma BlankStartGivesEntries(before: string, entries: seq<string>, order: seq<string>)
    requires forall i :: 0 <= i < |before| ==> before[i] in Whitespace
    requires Enumerates(order, ValueTokens(before) + ToSet(entries))
    requires Clean(ToSet(entries))
    ensures ValueTokens(Join(order, ',')) == ToSet(entries)
  {
    assert ValueTokens(before) == {};
    assert ValueTokens(before) + ToSet(entries) == ToSet(entries);
    TokensRoundTrip(order);
  }

  /** Adding the same entries a second time leaves the token set as the first call left it. */
  lemma AddTwiceSameAsOnce(before: string, entries: seq<string>, first: seq<string>, second: seq<string>)
    requires Clean(ValueTokens(before) + ToSet(entries))
    requires Enumerates(first, ValueTokens(before) + ToSet(entries))
    requires Enumerates(second, ValueTokens(Join(first, ',')) + ToSet(entries))
    ensures ToSet(second) == ToSet(first)
    ensures ValueTokens(Join(second, ',')) == ValueTokens(Join(first, ','))
  {
    var tokens := ValueTokens(before) + ToSet(entries);
    AddKeepsTokens(before, entries, first);
    assert ValueTokens(Join(first, ',')) + ToSet(entries) == tokens;
    AddKeepsTokens(Join(first, ','), entries, second);
  }

  /**
   * Why `Clean` is needed: a token that begins with whitespace, written back
   * on its own (or first in the set order), loses that character when the
   * value is read back, so the token itself is not among the tokens read.
   */
  lemma EdgeWhitespaceNotKept(t: string)
    requires |t| >= 2 && IsSpace(t[0]) && !IsSpace(t[1]) && !IsSpace(t[|t| - 1]) && ',' !in t
    ensures ValueTokens(Join([t], ',')) == {t[1..]}
    ensures ValueTokens(Join([t], ',')) != ToSet([t])
  {
    var kept := t[1..];
    assert Join([t], ',') == t;
    assert t == [t[0]] + kept;
    StripDropsLeading(t[0], kept, Whitespace);
    StripKeeps(kept, Whitespace);
    assert Join([kept], ',') == kept;
    SplitJoin([kept], ',');
    assert ToSet([kept]) == {kept};
    assert t in ToSet([t]) && t != kept;
  }

  /**
   * The three debug lines of `add_to_no_proxy` as written: each f-string
   * indexes `os.environ` directly, so a missing `http_proxy` or `https_proxy`
   * raises `KeyError` after `no_proxy` has already been rewritten.
   */
  function DebugLinesAsWritten(env: map<string, string>): (r: Result<seq<string>>)
    ensures r.Success? <==> NoProxyKey in env && HttpProxyKey in env && HttpsProxyKey in env
    ensures r.Failure? ==> r.error.KeyError? && r.error.key in {NoProxyKey, HttpProxyKey, HttpsProxyKey}
  {
    if NoProxyKey !in env then Failure(KeyError(NoProxyKey))
    else if HttpProxyKey !in env then Failure(KeyError(HttpProxyKey))
    else if HttpsProxyKey !in env then Failure(KeyError(HttpsProxyKey))
    else Success(["env no_proxy=" + env[NoProxyKey],
                  "env http_proxy=" + env[HttpProxyKey],
                  "env https_proxy=" + env[HttpsProxyKey]])
  }

  /** An environment with no `http_proxy` makes the as-written logging raise, whatever `no_proxy` became. */
  lemma AsWrittenRaisesWithoutHttpProxy(env: map<string, string>, value: string)
    requires HttpProxyKey !in env
    ensures DebugLinesAsWritten(env[NoProxyKey := value]) == Failure(KeyError(HttpProxyKey))
  {
  }

  /** Both proxy variables the debug lines read are set. */
  predicate ProxiesSet(env: map<string, string>)
  {
    HttpProxyKey in env && HttpsProxyKey in env
  }

  /**
   * The exception the as-written debug lines raise once `no_proxy` has been
   * written: `KeyError` for the first proxy variable that is unset.
   */
  function LoggingFailure(env: map<string, string>): (r: Option<Error>)
    ensures r.None? <==> ProxiesSet(env)
    ensures HttpProxyKey !in env ==> r == Some(KeyError(HttpProxyKey))
    ensures HttpProxyKey in env && HttpsProxyKey !in env ==> r == Some(KeyError(HttpsProxyKey))
  {
    if HttpProxyKey !in env then Some(KeyError(HttpProxyKey))
    else if HttpsProxyKey !in env then Some(KeyError(HttpsProxyKey))
    else None
  }

  /**
   * The as-written debug lines right after `no_proxy` has been written: they
   * raise exactly when a proxy variable is unset, and are otherwise the
   * corrected lines.
   */
  lemma AsWrittenAfterUpdate(env: map<string, string>, value: string)
    ensures var lines := DebugLinesAsWritten(env[NoProxyKey := value]);
      && (lines.Failure? <==> LoggingFailure(env).Some?)
      && (lines.Failure? ==> lines.error == LoggingFailure(env).value)
      && (lines.Success? ==> lines.value == DebugLines(env[NoProxyKey := value]))
  {
    assert NoProxyKey != HttpProxyKey && NoProxyKey != HttpsProxyKey;
  }

  /** The debug lines as evidently intended: an unset variable logs as empty instead of raising. */
  function DebugLines(env: map<string, string>): seq<string>
  {
    ["env no_proxy=" + Get(env, NoProxyKey, ""),
     "env http_proxy=" + Get(env, HttpProxyKey, ""),
     "env https_proxy=" + Get(env, HttpsProxyKey, "")]
  }

  /** The corrected lines always exist and agree with the as-written ones wherever those do not raise. */
  lemma DebugLinesAgree(env: map<string, string>)
    ensures |DebugLines(env)| == 3
    ensures DebugLinesAsWritten(env).Success? ==> DebugLines(env) == DebugLinesAsWritten(env).value
  {
  }
}
