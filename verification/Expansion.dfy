/** Expansion of wildcard and fuzzy leaves into dictionary terms. */
module Expansion {
  import opened Wrappers
  import opened Utf8Order
  import opened Accents
  import QueryBuilder

  const MAX_WILDCARD_TERMS: nat := 4096

  /** The terms of a field that start with `prefix`, in dictionary order. */
  function WithPrefix(terms: seq<string>, prefix: string): seq<string> {
    Filter(terms, t => prefix <= t)
  }

  /** Everything before the first `*` or `?`. */
  function LiteralPrefix(pattern: string): (p: string)
    ensures p <= pattern && forall i | 0 <= i < |p| :: p[i] != '*' && p[i] != '?'
    ensures |p| < |pattern| ==> pattern[|p|] == '*' || pattern[|p|] == '?'
  {
    if pattern == "" || pattern[0] == '*' || pattern[0] == '?' then ""
    else [pattern[0]] + LiteralPrefix(pattern[1..])
  }

  function Filter(ts: seq<string>, keep: string -> bool): (r: seq<string>)
    ensures forall t :: t in r <==> t in ts && keep(t)
    ensures Distinct(ts) ==> Distinct(r)
    ensures |r| <= |ts|
  {
    if ts == [] then []
    else
      var rest := Filter(ts[1..], keep);
      assert ts == [ts[0]] + ts[1..];
      if keep(ts[0]) then [ts[0]] + rest else rest
  }

  ghost predicate StartsWithVariant(t: string, prefix: string) {
    exists v: string :: v <= t && IsVariant(v, prefix)
  }

  /** How many terms start with one of `vs`. */
  function CountStarting(terms: seq<string>, vs: seq<string>): nat {
    if terms == [] then 0
    else CountStarting(terms[1..], vs) + if exists i | 0 <= i < |vs| :: vs[i] <= terms[0] then 1 else 0
  }

  lemma {:induction false} CountGrows(terms: seq<string>, vs: seq<string>, v: string)
    requires forall i | 0 <= i < |vs| :: |vs[i]| == |v| && vs[i] != v
    ensures CountStarting(terms, vs + [v]) == CountStarting(terms, vs) + |WithPrefix(terms, v)|
  {
    if terms != [] {
      CountGrows(terms[1..], vs, v);
      var all, t := vs + [v], terms[0];
      assert all[|vs|] == v && forall i | 0 <= i < |vs| :: all[i] == vs[i];
      if v <= t {
        forall i | 0 <= i < |vs| ensures !(vs[i] <= t) {
          if vs[i] <= t {
            BucketsDisjoint(vs[i], v, t);
          }
        }
      }
    }
  }


  /** The count is the size of the set, whatever order the spellings come in. */
  lemma {:induction false} CountIsSize(terms: seq<string>, vs: seq<string>, prefix: string)
    requires Distinct(terms) && forall v: string :: v in vs <==> IsVariant(v, prefix)
    ensures CountStarting(terms, vs) == |SpelledTerms(terms, prefix)|
  {
    hide IsVariant;
    if terms != [] {
      var t := terms[0];
      CountIsSize(terms[1..], vs, prefix);
      assert terms == [t] + terms[1..];
      assert t !in terms[1..];
      assert (exists i | 0 <= i < |vs| :: vs[i] <= t) <==> StartsWithVariant(t, prefix) by {
        if v: string :| v <= t && IsVariant(v, prefix) {
          assert v in vs;
        }
        if i :| 0 <= i < |vs| && vs[i] <= t {
          assert vs[i] in vs;
        }
      }
      var before := SpelledTerms(terms[1..], prefix);
      assert SpelledTerms(terms, prefix) == if StartsWithVariant(t, prefix) then before + {t} else before;
    }
  }

  ghost function SpelledTerms(terms: seq<string>, prefix: string): set<string> {
    set t | t in terms && StartsWithVariant(t, prefix)
  }

  lemma {:induction false} CountNone(terms: seq<string>)
    ensures CountStarting(terms, []) == 0
  {
    if terms != [] {
      CountNone(terms[1..]);
    }
  }

  // ----- filling the cap -----

  /** The spellings of a typed prefix, in the order their buckets are read: the typed one first. */
  ghost predicate Spellings(buckets: seq<string>, typed: string) {
    && buckets != [] && buckets[0] == typed && Distinct(buckets)
    && forall v: string :: v in buckets <==> IsVariant(v, typed)
  }

  /** The order the spellings are tried in is one. */
  lemma {:induction false} VariantsSpell(buckets: seq<string>, typed: string)
    requires buckets == Variants(typed) && buckets != [] && buckets[0] == typed && Distinct(buckets)
    requires forall v: string :: v in buckets <==> IsVariant(v, typed)
    ensures Spellings(Variants(typed), typed)
  {
    hide Variants, IsVariant;
  }

  /** Each bucket may fill the room the ones before it left: its first terms, those kept. */
  function Filled(ts: seq<string>, buckets: seq<string>, keep: string -> bool): (r: seq<string>)
    ensures |r| <= MAX_WILDCARD_TERMS
  {
    if buckets == [] then []
    else
      var n := |buckets| - 1;
      var before := Filled(ts, buckets[..n], keep);
      FirstNKeeps(WithPrefix(ts, buckets[n]), MAX_WILDCARD_TERMS - |before|);
      before + Filter(FirstN(WithPrefix(ts, buckets[n]), MAX_WILDCARD_TERMS - |before|), keep)
  }

  lemma {:induction false} NothingFilled(ts: seq<string>, keep: string -> bool)
    ensures Filled(ts, [], keep) == []
  {
  }

  lemma {:induction false} FilledStep(ts: seq<string>, before: seq<string>, bucket: string, keep: string -> bool)
    ensures var out := Filled(ts, before, keep);
            Filled(ts, before + [bucket], keep) == out + Filter(FirstN(WithPrefix(ts, bucket), MAX_WILDCARD_TERMS - |out|), keep)
  {
    hide Filter, WithPrefix, FirstN;
    var buckets := before + [bucket];
    assert buckets[..|before|] == before && buckets[|before|] == bucket;
  }

  /** A full list stays as it is. */
  lemma {:induction false} FilledStays(ts: seq<string>, buckets: seq<string>, keep: string -> bool, k: nat)
    requires k <= |buckets| && (k == |buckets| || |Filled(ts, buckets[..k], keep)| == MAX_WILDCARD_TERMS)
    ensures Filled(ts, buckets, keep) == Filled(ts, buckets[..k], keep)
    decreases |buckets|
  {
    hide Filled, Filter, WithPrefix;
    var n := |buckets| - 1;
    if k == |buckets| {
      assert buckets[..k] == buckets;
    } else {
      assert buckets[..n][..k] == buckets[..k] && buckets[..n] + [buckets[n]] == buckets;
      FilledStays(ts, buckets[..n], keep, k);
      FilledStep(ts, buckets[..n], buckets[n], keep);
      assert FirstN(WithPrefix(ts, buckets[n]), 0) == [];
      NothingKept(keep);
    }
  }

  lemma {:induction false} NothingKept(keep: string -> bool)
    ensures Filter([], keep) == []
  {
  }

  /** Which terms survive the cap: a kept term of a bucket does exactly when it is among the bucket's
      first terms, as many as the earlier buckets left room for. */
  lemma {:induction false} FilledExactly(ts: seq<string>, buckets: seq<string>, keep: string -> bool, t: string)
    ensures t in Filled(ts, buckets, keep) <==>
            exists k | 0 <= k < |buckets| :: Survives(ts, buckets, keep, k, t)
    decreases |buckets|
  {
    hide Filled, Filter, WithPrefix, FirstN;
    if buckets == [] {
      NothingFilled(ts, keep);
    } else {
      var n := |buckets| - 1;
      assert buckets[..n] + [buckets[n]] == buckets;
      FilledExactly(ts, buckets[..n], keep, t);
      FilledStep(ts, buckets[..n], buckets[n], keep);
      forall k: nat | k < n ensures Survives(ts, buckets[..n], keep, k, t) <==> Survives(ts, buckets, keep, k, t) {
        assert buckets[..n][..k] == buckets[..k];
      }
      var before := Filled(ts, buckets[..n], keep);
      KeptOf(FirstN(WithPrefix(ts, buckets[n]), MAX_WILDCARD_TERMS - |before|), keep, t);
      assert t in Filled(ts, buckets, keep) <==> t in before || Survives(ts, buckets, keep, n, t);
      if t in before {
        var k :| 0 <= k < n && Survives(ts, buckets[..n], keep, k, t);
        assert Survives(ts, buckets, keep, k, t);
      }
    }
  }

  predicate Survives(ts: seq<string>, buckets: seq<string>, keep: string -> bool, k: nat, t: string)
    requires k < |buckets|
  {
    keep(t) && t in FirstN(WithPrefix(ts, buckets[k]), MAX_WILDCARD_TERMS - |Filled(ts, buckets[..k], keep)|)
  }

  lemma {:induction false} KeptOf(ts: seq<string>, keep: string -> bool, t: string)
    ensures t in Filter(ts, keep) <==> t in ts && keep(t)
  {
  }

  /** The spellings of a token that the dictionary has; `docFreq` counts a term's documents. */
  method AccentVariantTerms(token: string, docFreq: string -> nat) returns (out: seq<string>)
    ensures Distinct(out) && forall v: string :: v in out <==> IsVariant(v, token) && docFreq(v) > 0
    ensures out == Filter(Variants(token), v => docFreq(v) > 0)
  {
    hide IsVariant, Variants;
    var variants := AccentVariants(token);
    out := Filter(variants, v => docFreq(v) > 0);
    forall v: string ensures v in out <==> IsVariant(v, token) && docFreq(v) > 0 {
      KeptOf(variants, v => docFreq(v) > 0, v);
    }
  }

  /** `compile` is the anchored regex of a wildcard pattern, when it compiles. */
  datatype Expander = Expander(terms: string -> seq<string>, compile: string -> Option<string -> bool>) {

    function WildcardTerms(field: string, pattern: string, minPrefixLen: nat): (r: seq<string>)
      ensures |r| <= 4096 && (Distinct(terms(field)) ==> Distinct(r))
      ensures forall t | t in r ::
                && t in FirstN(WithPrefix(terms(field), LiteralPrefix(pattern)), MAX_WILDCARD_TERMS)
                && t in terms(field) && LiteralPrefix(pattern) <= t && compile(pattern).Some? && compile(pattern).value(t)
      ensures |Utf8(LiteralPrefix(pattern))| < minPrefixLen ==> r == []
      ensures |Utf8(LiteralPrefix(pattern))| >= minPrefixLen && compile(pattern).Some? ==>
                forall t | t in FirstN(WithPrefix(terms(field), LiteralPrefix(pattern)), MAX_WILDCARD_TERMS) && compile(pattern).value(t) :: t in r
      ensures |Utf8(LiteralPrefix(pattern))| >= minPrefixLen && compile(pattern).Some?
              && |WithPrefix(terms(field), LiteralPrefix(pattern))| <= 4096 ==>
                forall t | t in terms(field) && LiteralPrefix(pattern) <= t && compile(pattern).value(t) :: t in r
    {
      if |Utf8(LiteralPrefix(pattern))| < minPrefixLen || compile(pattern).None? then []
      else
        FirstNKeeps(WithPrefix(terms(field), LiteralPrefix(pattern)), MAX_WILDCARD_TERMS);
        Filter(FirstN(WithPrefix(terms(field), LiteralPrefix(pattern)), MAX_WILDCARD_TERMS), compile(pattern).value)
    }

    /** A term of the field that the folded pattern reaches through some spelling of its literal prefix. */
    ghost predicate Reaches(field: string, pattern: string, re: string -> bool, t: string) {
      t in terms(field) && StartsWithVariant(t, LiteralPrefix(pattern)) && re(FoldAccents(t))
    }

    predicate HasWhitespace(s: string) {
      exists i | 0 <= i < |s| :: QueryBuilder.IsWhitespace(s[i])
    }

    /** White space at any place counts. */
    lemma {:induction false} WhitespaceAnywhere(s: string)
      ensures HasWhitespace(s) <==> exists c | c in s :: QueryBuilder.IsWhitespace(c)
    {
      if c :| c in s && QueryBuilder.IsWhitespace(c) {
        var i :| 0 <= i < |s| && s[i] == c;
      }
    }

    /** What the expansion of a pattern lists: no term twice and at most the cap; every term is reached by
        the pattern, and every term reached is listed unless more terms than the cap share the literal
        prefix's spellings, in which case those that fill the cap are. */
    ghost predicate AccentExpands(field: string, pattern: string, minPrefixLen: nat, out: seq<string>) {
      var folded := FoldAccents(pattern);
      var prefix, typed := LiteralPrefix(folded), LiteralPrefix(pattern);
      && Distinct(out) && |out| <= 4096
      && (|Utf8(prefix)| < minPrefixLen ==> out == [])
      && (|Utf8(prefix)| >= minPrefixLen && HasWhitespace(prefix) ==> out == WildcardTerms(field, pattern, minPrefixLen))
      && (|Utf8(prefix)| >= minPrefixLen && !HasWhitespace(prefix) ==>
            match compile(folded)
            case None => out == []
            case Some(re) =>
              && (forall t | t in out :: Reaches(field, pattern, re, t))
              && (|SpelledTerms(terms(field), typed)| <= 4096 ==> forall t | Reaches(field, pattern, re, t) :: t in out)
              && Spellings(Variants(typed), typed)
              && out == Filled(terms(field), Variants(typed), t => re(FoldAccents(t))))
    }

    method AccentWildcardTerms(field: string, pattern: string, minPrefixLen: nat) returns (out: seq<string>)
      requires Distinct(terms(field))
      ensures AccentExpands(field, pattern, minPrefixLen, out)
    {
      var folded := FoldAccents(pattern);
      var prefix := LiteralPrefix(folded);
      if |Utf8(prefix)| < minPrefixLen {
        return [];
      }
      if HasWhitespace(prefix) {
        return WildcardTerms(field, pattern, minPrefixLen);
      }
      var re := compile(folded);
      if re.None? {
        return [];
      }
      out := SpelledMatches(field, LiteralPrefix(pattern), t => re.value(FoldAccents(t)));
    }

    /** Fills the cap bucket by bucket, the typed spelling first. */
    method SpelledMatches(field: string, typed: string, keep: string -> bool) returns (out: seq<string>)
      requires Distinct(terms(field))
      ensures Distinct(out) && |out| <= MAX_WILDCARD_TERMS
      ensures forall t | t in out :: t in terms(field) && keep(t) && StartsWithVariant(t, typed)
      ensures |SpelledTerms(terms(field), typed)| <= MAX_WILDCARD_TERMS ==>
                forall t | t in terms(field) && keep(t) && StartsWithVariant(t, typed) :: t in out
      ensures Spellings(Variants(typed), typed) && out == Filled(terms(field), Variants(typed), keep)
    {
      hide IsVariant, CountStarting, FirstN, Filled, WithPrefix, Variants;
      var buckets := AccentVariants(typed);
      VariantsSpell(buckets, typed);
      ghost var all := terms(field);
      CountIsSize(all, buckets, typed);
      out := [];
      assert buckets[..0] == [];
      NothingFilled(all, keep);
      var k := 0;
      while k < |buckets|
        invariant k <= |buckets| && out == Filled(all, buckets[..k], keep)
      {
        var room := MAX_WILDCARD_TERMS - |out|;
        if room == 0 {
          break;
        }
        FilledStep(all, buckets[..k], buckets[k], keep);
        assert buckets[..k + 1] == buckets[..k] + [buckets[k]];
        out := out + Filter(FirstN(WithPrefix(terms(field), buckets[k]), room), keep);
        k := k + 1;
      }
      FilledStays(all, buckets, keep, k);
      FilledOf(all, buckets, typed, keep, |buckets|);
      assert buckets[..|buckets|] == buckets;
      SpelledAll(all, buckets, typed, keep, out);
    }

    /** What the first `k` buckets give. */
    lemma {:induction false} FilledOf(all: seq<string>, buckets: seq<string>, typed: string, keep: string -> bool, k: nat)
      requires Distinct(all) && Spellings(buckets, typed) && k <= |buckets|
      ensures var out := Filled(all, buckets[..k], keep);
              && Distinct(out) && |out| <= CountStarting(all, buckets[..k])
              && (forall t | t in out :: t in all && keep(t) && exists i | 0 <= i < k :: buckets[i] <= t)
              && (CountStarting(all, buckets[..k]) <= MAX_WILDCARD_TERMS ==>
                    forall t, i | t in all && keep(t) && 0 <= i < k && buckets[i] <= t :: t in out)
    {
      hide IsVariant, CountStarting, FirstN, Filled;
      if k == 0 {
        assert buckets[..0] == [];
        NothingFilled(all, keep);
        CountNone(all);
      } else {
        var before, b := buckets[..k - 1], buckets[k - 1];
        FilledOf(all, buckets, typed, keep, k - 1);
        OtherBuckets(buckets, k - 1, typed);
        CountGrows(all, before, b);
        assert buckets[..k] == before + [b];
        FilledStep(all, before, b, keep);
        var out := Filled(all, before, keep);
        var more := Filter(FirstN(WithPrefix(all, b), MAX_WILDCARD_TERMS - |out|), keep);
        FirstNKeeps(WithPrefix(all, b), MAX_WILDCARD_TERMS - |out|);
        Apart(out, more, buckets, k - 1);
      }
    }

    lemma {:induction false} OtherBuckets(buckets: seq<string>, k: nat, typed: string)
      requires Distinct(buckets) && k < |buckets| && forall v: string :: v in buckets <==> IsVariant(v, typed)
      ensures forall i | 0 <= i < k :: |buckets[..k][i]| == |buckets[k]| && buckets[..k][i] != buckets[k]
    {
      hide IsVariant;
      VariantsFoldAlike(typed, buckets[k]);
      forall i | 0 <= i < k ensures |buckets[..k][i]| == |buckets[k]| && buckets[..k][i] != buckets[k] {
        VariantsFoldAlike(typed, buckets[i]);
      }
    }

    /** Terms of one bucket are in no earlier one. */
    lemma {:induction false} Apart(out: seq<string>, more: seq<string>, buckets: seq<string>, k: nat)
      requires k < |buckets| && Distinct(out) && Distinct(more)
      requires forall i | 0 <= i < k :: |buckets[..k][i]| == |buckets[k]| && buckets[..k][i] != buckets[k]
      requires forall t | t in out :: exists i | 0 <= i < k :: buckets[i] <= t
      requires forall t | t in more :: buckets[k] <= t
      ensures Distinct(out + more)
    {
      forall i, j | 0 <= i < |out| && 0 <= j < |more| ensures out[i] != more[j] {
        assert out[i] in out && more[j] in more;
        var b :| 0 <= b < k && buckets[b] <= out[i];
        if out[i] == more[j] {
          BucketsDisjoint(buckets[..k][b], buckets[k], more[j]);
          assert false;
        }
      }
    }

    /** When the spelled terms fit the cap, all that are kept were taken. */
    lemma {:induction false} SpelledAll(all: seq<string>, buckets: seq<string>, typed: string, keep: string -> bool, out: seq<string>)
      requires forall v: string :: v in buckets <==> IsVariant(v, typed)
      requires forall t | t in out :: t in all && keep(t) && exists i | 0 <= i < |buckets| :: buckets[i] <= t
      requires CountStarting(all, buckets) <= MAX_WILDCARD_TERMS ==>
                 forall t, i | t in all && keep(t) && 0 <= i < |buckets| && buckets[i] <= t :: t in out
      ensures forall t | t in out :: StartsWithVariant(t, typed)
      ensures CountStarting(all, buckets) <= MAX_WILDCARD_TERMS ==>
                forall t | t in all && keep(t) && StartsWithVariant(t, typed) :: t in out
    {
      hide IsVariant, CountStarting;
      forall t | t in out ensures StartsWithVariant(t, typed) {
        var i :| 0 <= i < |buckets| && buckets[i] <= t;
        assert buckets[i] in buckets;
      }
      if CountStarting(all, buckets) <= MAX_WILDCARD_TERMS {
        forall t | t in all && keep(t) && StartsWithVariant(t, typed) ensures t in out {
          var v: string :| v <= t && IsVariant(v, typed);
          var i: nat :| i < |buckets| && buckets[i] == v;
        }
      }
    }
  }

  lemma {:induction false} FirstNKeeps(s: seq<string>, n: nat)
    ensures Distinct(s) ==> Distinct(FirstN(s, n))
    ensures |FirstN(s, n)| <= n && |FirstN(s, n)| <= |s|
    ensures forall t | t in FirstN(s, n) :: t in s
    ensures |s| <= n ==> FirstN(s, n) == s
  {
  }
}
