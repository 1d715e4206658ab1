/** Fuzzy expansion: Zend's similarity with its length shortcut, and the terms it accepts. */
module FuzzyTerms {
  import opened Lex
  import opened Sorting
  import opened Bytes
  import opened Utf8Order
  import opened Accents
  import opened Distance
  import opened Expansion

  const MAX_FUZZY_TERMS: nat := 1024

  /** A cast to an integer drops the fraction. */
  function Truncated(x: real): int {
    if x >= 0.0 then x.Floor else -(-x).Floor
  }

  /** The largest distance worth measuring between words of which the shorter, with the prefix, has length `l`. */
  function MaxDistance(l: nat, minSim: real): int {
    Truncated((1.0 - minSim) * (l as real))
  }

  function LengthDifference(a: seq<Byte>, b: seq<Byte>): nat {
    if |a| >= |b| then |a| - |b| else |b| - |a|
  }

  /** Similarity of two words past a shared prefix of `n` characters, without the shortcut. */
  function Similarity(rest: seq<Byte>, target: seq<Byte>, n: nat): real {
    if rest == [] then (if n == 0 then 0.0 else 1.0 - (|target| as real) / (n as real))
    else if target == [] then (if n == 0 then 0.0 else 1.0 - (|rest| as real) / (n as real))
    else 1.0 - (Lev(rest, target) as real) / ((n + Min(|rest|, |target|)) as real)
  }

  method ZendSimilarity(rest: seq<Byte>, target: seq<Byte>, n: nat, minSim: real) returns (s: real)
    ensures s == Pruned(rest, target, n, minSim)
  {
    var maxDistance := MaxDistance(Min(|rest|, |target|) + n, minSim);
    if |rest| == 0 {
      return if n == 0 then 0.0 else 1.0 - (|target| as real) / (n as real);
    } else if |target| == 0 {
      return if n == 0 then 0.0 else 1.0 - (|rest| as real) / (n as real);
    } else if maxDistance < LengthDifference(rest, target) {
      return 0.0;
    }
    var d := LevenshteinBytes(rest, target);
    return 1.0 - (d as real) / ((n + Min(|rest|, |target|)) as real);
  }

  /** Similarity, except that words too different in length score zero at once. */
  function Pruned(rest: seq<Byte>, target: seq<Byte>, n: nat, minSim: real): real {
    if rest != [] && target != [] && MaxDistance(Min(|rest|, |target|) + n, minSim) < LengthDifference(rest, target)
    then 0.0
    else Similarity(rest, target, n)
  }

  /** When the shortcut is taken: up to a threshold of one, exactly when the lengths differ by more than
      the threshold allows edits; above one, when they differ at all or the excess is a whole edit. */
  lemma {:induction false} ShortcutTaken(rest: seq<Byte>, target: seq<Byte>, n: nat, minSim: real)
    requires rest != [] && target != []
    ensures var shorter := if |rest| <= |target| then |rest| else |target|;
            var diff: real := (|rest| + |target| - 2 * shorter) as real;
            var allowed := (1.0 - minSim) * ((n + shorter) as real);
            Pruned(rest, target, n, minSim) ==
              if (if minSim <= 1.0 then diff > allowed else diff > 0.0 || allowed <= -1.0) then 0.0 else Similarity(rest, target, n)
  {
    hide Similarity, MaxDistance, Lev;
    var shorter := if |rest| <= |target| then |rest| else |target|;
    var l := n + shorter;
    assert Min(|rest|, |target|) + n == l;
    var d := |rest| + |target| - 2 * shorter;
    assert LengthDifference(rest, target) == d;
    TooDifferent(minSim, l, d);
  }

  lemma {:induction false} TooDifferent(minSim: real, l: nat, d: nat)
    requires l > 0
    ensures var allowed := (1.0 - minSim) * (l as real);
            MaxDistance(l, minSim) < d <==> if minSim <= 1.0 then (d as real) > allowed else d as real > 0.0 || allowed <= -1.0
  {
    AllowedSign(minSim, l);
    TruncatedIs((1.0 - minSim) * (l as real), d);
  }

  lemma {:induction false} AllowedSign(minSim: real, l: nat)
    requires l > 0
    ensures minSim <= 1.0 ==> (1.0 - minSim) * (l as real) >= 0.0
    ensures minSim > 1.0 ==> (1.0 - minSim) * (l as real) < 0.0
  {
    if minSim > 1.0 {
      assert (minSim - 1.0) * (l as real) > 0.0;
      assert (1.0 - minSim) * (l as real) == -((minSim - 1.0) * (l as real));
    }
  }

  lemma {:induction false} TruncatedIs(x: real, d: nat)
    ensures x >= 0.0 ==> (Truncated(x) < d <==> d as real > x)
    ensures x < 0.0 ==> (Truncated(x) < d <==> d > 0 || x <= -1.0)
  {
  }

  lemma {:induction false} Quotient(d: nat, l: nat, x: real)
    requires l > 0 && x * (l as real) < (d as real)
    ensures (d as real) / (l as real) > x
  {
    var q := (d as real) / (l as real);
    assert q * (l as real) == d as real;
    if q <= x {
      Scale(q, x, l as real);
    }
  }

  lemma {:induction false} Scale(q: real, x: real, l: real)
    requires q <= x && l > 0.0
    ensures q * l <= x * l
  {
    assert (x - q) * l >= 0.0;
  }

  lemma {:induction false} AtMostOne(rest: seq<Byte>, target: seq<Byte>, n: nat)
    ensures Similarity(rest, target, n) <= 1.0
  {
    hide Lev;
  }

  /** Words further apart than the threshold allows are less similar than it. */
  lemma {:induction false} TooFar(l: nat, diff: nat, dist: nat, minSim: real)
    requires 0.0 <= minSim < 1.0 && l > 0 && MaxDistance(l, minSim) < diff <= dist
    ensures 1.0 - (dist as real) / (l as real) < minSim
  {
    Scale(0.0, 1.0 - minSim, l as real);
    Quotient(dist, l, 1.0 - minSim);
  }

  /** The shortcut loses nothing: at any threshold from zero up it rejects only what the similarity
      itself rejects, and what is accepted has its true similarity. */
  lemma {:induction false} PruningLosesNothing(rest: seq<Byte>, target: seq<Byte>, n: nat, minSim: real)
    requires minSim >= 0.0
    ensures Pruned(rest, target, n, minSim) > minSim <==> Similarity(rest, target, n) > minSim
    ensures Pruned(rest, target, n, minSim) > minSim ==> Pruned(rest, target, n, minSim) == Similarity(rest, target, n)
  {
    hide Lev, MaxDistance;
    AtMostOne(rest, target, n);
    if rest != [] && target != [] && minSim < 1.0 {
      var l := Min(|rest|, |target|) + n;
      if MaxDistance(l, minSim) < LengthDifference(rest, target) {
        AtLeastLengthDifference(rest, target);
        TooFar(l, LengthDifference(rest, target), Lev(rest, target), minSim);
        assert Similarity(rest, target, n) == 1.0 - (Lev(rest, target) as real) / (l as real);
      }
    }
  }

  /** Below zero it does not: a word far too long scores zero and is accepted. */
  lemma {:induction false} NegativeThreshold(minSim: real)
    requires minSim < 0.0
    ensures exists rest, target :: Pruned(rest, target, 0, minSim) > minSim >= Similarity(rest, target, 0)
  {
    hide Lev;
    var k: nat := (1.0 - minSim).Floor + 2;
    var rest: seq<Byte>, target: seq<Byte> := [0], seq(k + 1, _ => 0);
    AtLeastLengthDifference(rest, target);
    assert Min(|rest|, |target|) == 1 && LengthDifference(rest, target) == k;
    assert Pruned(rest, target, 0, minSim) == 0.0;
    assert (Lev(rest, target) as real) / 1.0 == Lev(rest, target) as real;
  }

  /** The shortcut is lossless exactly for thresholds from zero up. */
  lemma {:induction false} PruningExact(minSim: real)
    ensures minSim >= 0.0 <==>
            forall rest: seq<Byte>, target: seq<Byte>, n: nat ::
              (Pruned(rest, target, n, minSim) > minSim) == (Similarity(rest, target, n) > minSim)
  {
    hide Pruned, Similarity;
    if minSim >= 0.0 {
      forall rest: seq<Byte>, target: seq<Byte>, n: nat
        ensures (Pruned(rest, target, n, minSim) > minSim) == (Similarity(rest, target, n) > minSim)
      {
        PruningLosesNothing(rest, target, n, minSim);
      }
    } else {
      NegativeThreshold(minSim);
    }
  }

  // ----- the expansion -----

  datatype Match = Match(similarity: real, text: string)

  predicate MoreSimilar(a: Match, b: Match) {
    a.similarity > b.similarity || (a.similarity == b.similarity && Less(a.text, b.text))
  }

  /** Boost of an accepted term: one for the word itself, falling to zero at the threshold. */
  function Boost(similarity: real, minSim: real): real
    requires similarity > minSim && similarity <= 1.0
  {
    (similarity - minSim) / (1.0 - minSim)
  }

  /** The boost is to one as the similarity is to full similarity, both measured from the threshold. */
  ghost predicate IsBoost(boost: real, similarity: real, minSim: real) {
    boost * (1.0 - minSim) == similarity - minSim
  }

  lemma {:induction false} BoostInRange(similarity: real, minSim: real)
    requires similarity > minSim && similarity <= 1.0
    ensures 0.0 < Boost(similarity, minSim) <= 1.0
    ensures Boost(similarity, minSim) == 1.0 <==> similarity == 1.0
    ensures IsBoost(Boost(similarity, minSim), similarity, minSim)
  {
    var w := 1.0 - minSim;
    Share(similarity - minSim, w);
  }

  /** A part divided by its whole. */
  lemma {:induction false} Share(x: real, w: real)
    requires 0.0 < x <= w
    ensures 0.0 < x / w <= 1.0 && (x / w == 1.0 <==> x == w) && x / w * w == x
  {
  }

  lemma {:induction false} PrunedAtMostOne(rest: seq<Byte>, target: seq<Byte>, n: nat, minSim: real)
    ensures Pruned(rest, target, n, minSim) <= 1.0
  {
    hide Similarity, MaxDistance;
    AtMostOne(rest, target, n);
  }

  datatype Word = Word(term: string, prefixLength: nat, accentInsensitive: bool) {

    /** Characters of the prefix every candidate shares. */
    function N(): (n: nat)
      ensures n <= |term|
    {
      Min(prefixLength, |term|)
    }

    /** The form distances are measured between. */
    function Key(t: string): (k: string)
      ensures |k| == |t|
    {
      if accentInsensitive then FoldAccents(t) else t
    }

    ghost predicate InBuckets(t: string) {
      if accentInsensitive then StartsWithVariant(t, term[..N()]) else term[..N()] <= t
    }

    function Seen(t: string, minSim: real): real {
      if |t| < N() then 0.0 else Pruned(Utf8(Key(term)[N()..]), Utf8(Key(t)[N()..]), N(), minSim)
    }

    ghost predicate Accepts(terms: seq<string>, t: string, minSim: real) {
      t in terms && InBuckets(t) && Seen(t, minSim) > minSim
    }

    /** Similarity by the full formula; a term shorter than the prefix has none. */
    function Alike(t: string): real {
      if |t| < N() then 0.0 else Similarity(Utf8(Key(term)[N()..]), Utf8(Key(t)[N()..]), N())
    }

    /** What is compared: the bytes past the shared prefix, of both words as written, or of both without
        accents when accents do not count. */
    lemma {:induction false} AlikeIs(t: string)
      requires |t| >= N()
      ensures Alike(t) ==
                if accentInsensitive then Similarity(Utf8(FoldAccents(term)[N()..]), Utf8(FoldAccents(t)[N()..]), N())
                else Similarity(Utf8(term[N()..]), Utf8(t[N()..]), N())
      ensures N() == if prefixLength <= |term| then prefixLength else |term|
    {
    }

    /** For thresholds from zero up, what is accepted is what the full formula accepts. */
    lemma {:induction false} AcceptsAlike(terms: seq<string>, t: string, minSim: real)
      requires minSim >= 0.0
      ensures Accepts(terms, t, minSim) <==> t in terms && InBuckets(t) && Alike(t) > minSim
    {
      hide InBuckets, Utf8, Similarity, Pruned;
      if |t| >= N() {
        PruningLosesNothing(Utf8(Key(term)[N()..]), Utf8(Key(t)[N()..]), N(), minSim);
      }
    }

    /** One byte offset falls at the end of the shared prefix in every candidate's key. */
    lemma {:induction false} OneOffset(bucket: string, t: string)
      requires bucket <= t && if accentInsensitive then IsVariant(bucket, term[..N()]) else bucket == term[..N()]
      ensures N() <= |t| && InBuckets(t)
      ensures Utf8(Key(t)) == Utf8(Key(term)[..N()]) + Utf8(Key(t)[N()..])
    {
      hide IsVariant, Utf8;
      var n := N();
      if accentInsensitive {
        VariantsFoldAlike(term[..n], bucket);
      }
      assert Key(t)[..n] == Key(term)[..n] by {
        assert forall i | 0 <= i < n :: Key(t)[i] == Key(bucket)[i] == Key(term[..n])[i] == Key(term)[i];
      }
      Utf8Append(Key(t)[..n], Key(t)[n..]);
      assert Key(t)[..n] + Key(t)[n..] == Key(t);
    }

    /** `matched` holds exactly the accepted terms among `done`, with their similarities. */
    ghost predicate Holds(matched: seq<Match>, terms: seq<string>, done: set<string>, minSim: real) {
      && (forall i, j | 0 <= i < j < |matched| :: matched[i].text != matched[j].text)
      && (forall i | 0 <= i < |matched| ::
            matched[i].text in done && Accepts(terms, matched[i].text, minSim) && matched[i].similarity == Seen(matched[i].text, minSim))
      && (forall t: string | t in done && Accepts(terms, t, minSim) :: exists i | 0 <= i < |matched| :: matched[i].text == t)
    }

    /** The terms above the threshold with their similarities, in the order given. */
    function Above(ts: seq<string>, minSim: real): seq<Match> {
      if ts == [] then []
      else
        var last := ts[|ts| - 1];
        Above(ts[..|ts| - 1], minSim) + (if Seen(last, minSim) > minSim then [Match(Seen(last, minSim), last)] else [])
    }

    /** Bucket by bucket, each in dictionary order. */
    function Listed(terms: seq<string>, buckets: seq<string>, minSim: real): seq<Match> {
      if buckets == [] then []
      else
        var n := |buckets| - 1;
        Listed(terms, buckets[..n], minSim) + Above(WithPrefix(terms, buckets[n]), minSim)
    }

    /** The prefix as written, or in every spelling when accents do not count. */
    function Buckets(): seq<string> {
      if accentInsensitive then Variants(term[..N()]) else [term[..N()]]
    }

    lemma {:induction false} NothingListed(terms: seq<string>, minSim: real)
      ensures Above([], minSim) == [] && Listed(terms, [], minSim) == []
    {
    }

    lemma {:induction false} ListedMore(terms: seq<string>, buckets: seq<string>, k: nat, minSim: real)
      requires k < |buckets|
      ensures Listed(terms, buckets[..k + 1], minSim) == Listed(terms, buckets[..k], minSim) + Above(WithPrefix(terms, buckets[k]), minSim)
    {
      hide Above, WithPrefix;
      assert buckets[..k + 1][..k] == buckets[..k];
    }

    lemma {:induction false} AboveMore(matched: seq<Match>, ts: seq<string>, k: nat, minSim: real)
      requires k < |ts|
      ensures var s := Seen(ts[k], minSim);
              matched + Above(ts[..k + 1], minSim)
              == if s > minSim then matched + Above(ts[..k], minSim) + [Match(s, ts[k])] else matched + Above(ts[..k], minSim)
    {
      hide Seen;
      assert ts[..k + 1][..k] == ts[..k];
      assert Above(ts[..k], minSim) + [] == Above(ts[..k], minSim);
    }

    /** Candidates of one bucket. */
    method Bucket(matched: seq<Match>, bucket: string, terms: seq<string>, minSim: real, ghost done: set<string>)
      returns (r: seq<Match>, ghost done': set<string>)
      requires Distinct(terms) && Holds(matched, terms, done, minSim)
      requires if accentInsensitive then IsVariant(bucket, term[..N()]) else bucket == term[..N()]
      requires forall t | t in done :: !(bucket <= t)
      ensures matched <= r && Holds(r, terms, done', minSim)
      ensures done' == done + set t | t in terms && bucket <= t
      ensures r == matched + Above(WithPrefix(terms, bucket), minSim)
    {
      hide IsVariant, Utf8, Filter, Holds, Accepts, Seen, InBuckets, Key, Above;
      var seed := Key(term);
      var prefixByteLen := |Utf8(seed[..N()])|;
      var cands := WithPrefix(terms, bucket);
      r, done' := matched, done;
      CutSeed();
      NothingListed(terms, minSim);
      assert cands[..0] == [] && matched + [] == matched;
      for k := 0 to |cands|
        invariant r == matched + Above(cands[..k], minSim)
        invariant done' == done + set t | t in cands[..k]
        invariant matched <= r && Holds(r, terms, done', minSim)
      {
        var cand := cands[k];
        assert cand in cands;
        OneOffset(bucket, cand);
        var key := Utf8(Key(cand));
        var similarity := ZendSimilarity(Utf8(seed)[prefixByteLen..], key[prefixByteLen..], N(), minSim);
        SeenIs(cand, similarity, key, minSim);
        assert cand !in done' by {
          assert forall i | 0 <= i < k :: cands[i] != cands[k];
        }
        assert cands[..k + 1] == cands[..k] + [cand];
        HoldsMore(r, terms, done', minSim, cand);
        AboveMore(matched, cands, k, minSim);
        if similarity > minSim {
          r := r + [Match(similarity, cand)];
        }
        done' := done' + {cand};
      }
      assert cands[..|cands|] == cands;
    }

    lemma {:induction false} SeenIs(t: string, similarity: real, key: seq<Byte>, minSim: real)
      requires N() <= |t| && key == Utf8(Key(t)) == Utf8(Key(term)[..N()]) + Utf8(Key(t)[N()..])
      requires |Utf8(Key(term)[..N()])| <= |Utf8(Key(term))|
      requires var b := |Utf8(Key(term)[..N()])|; similarity == Pruned(Utf8(Key(term))[b..], key[b..], N(), minSim)
      ensures similarity == Seen(t, minSim)
    {
      hide Utf8, Pruned;
      CutSeed();
      assert key[|Utf8(Key(term)[..N()])|..] == Utf8(Key(t)[N()..]);
    }

    lemma {:induction false} CutSeed()
      ensures |Utf8(Key(term)[..N()])| <= |Utf8(Key(term))|
      ensures Utf8(Key(term))[|Utf8(Key(term)[..N()])|..] == Utf8(Key(term)[N()..])
    {
      hide Utf8;
      Utf8Append(Key(term)[..N()], Key(term)[N()..]);
      assert Key(term)[..N()] + Key(term)[N()..] == Key(term);
    }

    lemma {:induction false} HoldsMore(matched: seq<Match>, terms: seq<string>, done: set<string>, minSim: real, cand: string)
      requires Holds(matched, terms, done, minSim) && cand !in done && cand in terms && InBuckets(cand)
      ensures var s := Seen(cand, minSim);
              Holds(if s > minSim then matched + [Match(s, cand)] else matched, terms, done + {cand}, minSim)
    {
      hide Accepts, Seen;
      var s := Seen(cand, minSim);
      AcceptedIs(terms, cand, minSim);
      var all := if s > minSim then matched + [Match(s, cand)] else matched;
      forall i, j | 0 <= i < j < |all| ensures all[i].text != all[j].text {
        if j == |matched| {
          assert matched[i].text in done;
        }
      }
      forall t: string | t in done + {cand} && Accepts(terms, t, minSim) ensures exists i | 0 <= i < |all| :: all[i].text == t {
        if t in done {
          var i :| 0 <= i < |matched| && matched[i].text == t;
          assert all[i].text == t;
        } else {
          assert all[|matched|].text == t;
        }
      }
    }

    lemma {:induction false} AcceptedIs(terms: seq<string>, cand: string, minSim: real)
      requires cand in terms && InBuckets(cand)
      ensures Accepts(terms, cand, minSim) <==> Seen(cand, minSim) > minSim
    {
      hide InBuckets, Seen;
    }

    lemma {:induction false} AcceptedSeen(terms: seq<string>, t: string, minSim: real)
      requires Accepts(terms, t, minSim)
      ensures Seen(t, minSim) > minSim
    {
      hide InBuckets, Seen;
    }

    /** Every term listed is accepted, once, with its boost; every accepted term is listed, unless a
        thousand and twenty-four more similar ones are. */
    ghost predicate Expands(terms: seq<string>, minSim: real, r: seq<(string, real)>) {
      && |r| <= 1024 && (forall i, j | 0 <= i < j < |r| :: r[i].0 != r[j].0)
      && (forall i | 0 <= i < |r| ::
            && Accepts(terms, r[i].0, minSim) && minSim < Seen(r[i].0, minSim) <= 1.0
            && r[i].1 == Boost(Seen(r[i].0, minSim), minSim) && 0.0 < r[i].1 <= 1.0
            && IsBoost(r[i].1, Seen(r[i].0, minSim), minSim))
      && forall t: string | Accepts(terms, t, minSim) ::
           (exists i | 0 <= i < |r| :: r[i].0 == t)
           || (|r| == 1024
               && forall i | 0 <= i < |r| :: MoreSimilar(Match(Seen(r[i].0, minSim), r[i].0), Match(Seen(t, minSim), t)))
    }

    /** Terms that fit the cap stay in the order they were found; of more, the most similar come first. */
    ghost predicate InOrder(terms: seq<string>, minSim: real, r: seq<(string, real)>) {
      var all := Listed(terms, Buckets(), minSim);
      if |all| <= MAX_FUZZY_TERMS then |r| == |all| && forall i | 0 <= i < |r| :: r[i].0 == all[i].text
      else forall i, j | 0 <= i < j < |r| :: MoreSimilar(Match(Seen(r[i].0, minSim), r[i].0), Match(Seen(r[j].0, minSim), r[j].0))
    }

    lemma {:induction false} KeptInOrder(terms: seq<string>, minSim: real, kept: seq<Match>, r: seq<(string, real)>)
      requires var all := Listed(terms, Buckets(), minSim);
               kept == if |all| > MAX_FUZZY_TERMS then Sort(MoreSimilar, all)[..MAX_FUZZY_TERMS] else all
      requires |Listed(terms, Buckets(), minSim)| > MAX_FUZZY_TERMS ==> forall i, j | 0 <= i < j < |kept| :: MoreSimilar(kept[i], kept[j])
      requires |r| == |kept| && forall i | 0 <= i < |r| :: r[i].0 == kept[i].text && kept[i].similarity == Seen(kept[i].text, minSim)
      ensures InOrder(terms, minSim, r)
    {
      hide Listed, Seen, Sort, MoreSimilar;
      forall i | 0 <= i < |r| ensures Match(Seen(r[i].0, minSim), r[i].0) == kept[i] {
      }
    }

    method FuzzyTerms(terms: seq<string>, minSim: real) returns (r: seq<(string, real)>)
      requires Distinct(terms)
      ensures Expands(terms, minSim, r)
      ensures InOrder(terms, minSim, r)
    {
      hide InOrder, Expands, Listed, IsVariant, Seen, Boost, Sort, Accepts, MoreSimilar;
      var matched := Matches(terms, minSim);
      var kept := if |matched| > MAX_FUZZY_TERMS then Sort(MoreSimilar, matched)[..MAX_FUZZY_TERMS] else matched;
      Kept(matched, kept);
      SeenAtMostOne(minSim);
      forall i | 0 <= i < |kept|
        ensures kept[i].similarity == Seen(kept[i].text, minSim) && Accepts(terms, kept[i].text, minSim)
        ensures minSim < kept[i].similarity <= 1.0
      {
        var j := IndexOf(matched, kept[i]);
        AcceptedSeen(terms, kept[i].text, minSim);
      }
      r := seq(|kept|, i requires 0 <= i < |kept| => (kept[i].text, Boost(kept[i].similarity, minSim)));
      KeptInOrder(terms, minSim, kept, r);
      KeptExpands(terms, minSim, matched, kept, r);
    }

    lemma {:induction false} KeptExpands(terms: seq<string>, minSim: real, all: seq<Match>, kept: seq<Match>, r: seq<(string, real)>)
      requires forall i | 0 <= i < |all| :: Accepts(terms, all[i].text, minSim) && all[i].similarity == Seen(all[i].text, minSim)
      requires forall t: string | Accepts(terms, t, minSim) :: exists i | 0 <= i < |all| :: all[i].text == t
      requires |kept| <= MAX_FUZZY_TERMS && forall i, j | 0 <= i < j < |kept| :: kept[i].text != kept[j].text
      requires forall m | m in all && m !in kept :: |kept| == MAX_FUZZY_TERMS && forall k | k in kept :: MoreSimilar(k, m)
      requires forall i | 0 <= i < |kept| ::
                 kept[i].similarity == Seen(kept[i].text, minSim) && Accepts(terms, kept[i].text, minSim) && minSim < kept[i].similarity <= 1.0
      requires |r| == |kept| && forall i | 0 <= i < |r| :: r[i] == (kept[i].text, Boost(kept[i].similarity, minSim))
      ensures Expands(terms, minSim, r)
    {
      hide IsVariant, Seen, Boost, IsBoost, Accepts, MoreSimilar;
      forall i | 0 <= i < |r| ensures 0.0 < r[i].1 <= 1.0 && IsBoost(r[i].1, Seen(r[i].0, minSim), minSim) {
        BoostInRange(kept[i].similarity, minSim);
      }
      forall t: string | Accepts(terms, t, minSim)
        ensures (exists i | 0 <= i < |r| :: r[i].0 == t)
             || (|r| == MAX_FUZZY_TERMS && forall i | 0 <= i < |r| :: MoreSimilar(Match(Seen(r[i].0, minSim), r[i].0), Match(Seen(t, minSim), t)))
      {
        var j :| 0 <= j < |all| && all[j].text == t;
        if all[j] in kept {
          var i := IndexOf(kept, all[j]);
          assert r[i].0 == t;
        }
      }
    }

    /** All accepted terms, bucket by bucket. */
    method Matches(terms: seq<string>, minSim: real) returns (matched: seq<Match>)
      requires Distinct(terms)
      ensures forall i, j | 0 <= i < j < |matched| :: matched[i].text != matched[j].text
      ensures forall i | 0 <= i < |matched| :: Accepts(terms, matched[i].text, minSim) && matched[i].similarity == Seen(matched[i].text, minSim)
      ensures forall t: string | Accepts(terms, t, minSim) :: exists i | 0 <= i < |matched| :: matched[i].text == t
      ensures matched == Listed(terms, Buckets(), minSim)
    {
      hide IsVariant, Seen, Above, Listed, Variants;
      var prefix := term[..N()];
      var buckets := [prefix];
      if accentInsensitive {
        buckets := AccentVariants(prefix);
      }
      matched := [];
      NothingListed(terms, minSim);
      assert buckets[..0] == [];
      ghost var done: set<string> := {};
      for k := 0 to |buckets|
        invariant matched == Listed(terms, buckets[..k], minSim)
        invariant Holds(matched, terms, done, minSim)
        invariant forall t: string :: t in done <==> t in terms && exists i | 0 <= i < k :: buckets[i] <= t
      {
        forall t | t in done ensures !(buckets[k] <= t) {
          var i :| 0 <= i < k && buckets[i] <= t;
          EarlierApart(buckets, i, k, t);
        }
        ListedMore(terms, buckets, k, minSim);
        matched, done := Bucket(matched, buckets[k], terms, minSim, done);
      }
      assert buckets[..|buckets|] == buckets == Buckets();
      forall t: string | Accepts(terms, t, minSim) ensures t in done {
        if accentInsensitive {
          var v: string :| v <= t && IsVariant(v, prefix);
          var i :| 0 <= i < |buckets| && buckets[i] == v;
        } else {
          assert buckets[0] <= t;
        }
      }
    }

    /** A term of an earlier bucket does not start with the next. */
    lemma {:induction false} EarlierApart(buckets: seq<string>, i: nat, k: nat, t: string)
      requires i < k < |buckets| && buckets[i] <= t
      requires accentInsensitive ==> Distinct(buckets) && forall v: string :: v in buckets <==> IsVariant(v, term[..N()])
      requires !accentInsensitive ==> buckets == [term[..N()]]
      ensures !(buckets[k] <= t)
    {
      hide IsVariant;
      VariantsFoldAlike(term[..N()], buckets[i]);
      VariantsFoldAlike(term[..N()], buckets[k]);
      if buckets[k] <= t {
        BucketsDisjoint(buckets[i], buckets[k], t);
      }
    }

    lemma {:induction false} SeenAtMostOne(minSim: real)
      ensures forall t: string :: Seen(t, minSim) <= 1.0
    {
      hide Pruned, Utf8;
      forall t: string ensures Seen(t, minSim) <= 1.0 {
        if |t| >= N() {
          PrunedAtMostOne(Utf8(Key(term)[N()..]), Utf8(Key(t)[N()..]), N(), minSim);
        }
      }
    }
  }

  /** The cap keeps the most similar, and no text twice. */
  lemma {:induction false} Kept(all: seq<Match>, kept: seq<Match>)
    requires forall i, j | 0 <= i < j < |all| :: all[i].text != all[j].text
    requires kept == if |all| > MAX_FUZZY_TERMS then Sort(MoreSimilar, all)[..MAX_FUZZY_TERMS] else all
    ensures |kept| <= MAX_FUZZY_TERMS && forall i, j | 0 <= i < j < |kept| :: kept[i].text != kept[j].text
    ensures |all| > MAX_FUZZY_TERMS ==> forall i, j | 0 <= i < j < |kept| :: MoreSimilar(kept[i], kept[j])
    ensures forall m | m in kept :: m in all
    ensures forall m | m in all && m !in kept :: |kept| == MAX_FUZZY_TERMS && forall k | k in kept :: MoreSimilar(k, m)
  {
    hide Sort;
    if |all| > MAX_FUZZY_TERMS {
      var sorted := Sort(MoreSimilar, all);
      MostSimilarFirst(all);
      SameElements(sorted, all);
      forall i, j | 0 <= i < j < |kept| ensures kept[i].text != kept[j].text {
        assert MoreSimilar(sorted[i], sorted[j]);
        Irreflexive(sorted[i].text);
        var a, b := IndexOf(all, sorted[i]), IndexOf(all, sorted[j]);
      }
      assert forall j | 0 <= j < MAX_FUZZY_TERMS :: sorted[j] in kept by {
        assert forall j | 0 <= j < MAX_FUZZY_TERMS :: kept[j] == sorted[j];
      }
      forall m | m in all && m !in kept ensures forall k | k in kept :: MoreSimilar(k, m) {
        var j := IndexOf(sorted, m);
        forall k | k in kept ensures MoreSimilar(k, m) {
          var i := IndexOf(kept, k);
          assert MoreSimilar(sorted[i], sorted[j]);
        }
      }
    }
  }

  lemma {:induction false} MostSimilarFirst(all: seq<Match>)
    requires forall i, j | 0 <= i < j < |all| :: all[i].text != all[j].text
    ensures Ascends(MoreSimilar, Sort(MoreSimilar, all))
  {
    hide Less, Sort;
    forall a: Match, b: Match, c: Match
      ensures !MoreSimilar(a, a) && (MoreSimilar(a, b) && MoreSimilar(b, c) ==> MoreSimilar(a, c))
      ensures MoreSimilar(a, c) ==> MoreSimilar(a, b) || MoreSimilar(b, c)
    {
      Irreflexive(a.text);
      Total(a.text, b.text);
      if Less(a.text, b.text) && Less(b.text, c.text) {
        Transitive(a.text, b.text, c.text);
      }
      if Less(b.text, a.text) && Less(a.text, c.text) {
        Transitive(b.text, a.text, c.text);
      }
    }
    forall i, j | 0 <= i < j < |all| ensures MoreSimilar(all[i], all[j]) || MoreSimilar(all[j], all[i]) {
      Total(all[i].text, all[j].text);
    }
    SortAscends(MoreSimilar, all);
  }
}
