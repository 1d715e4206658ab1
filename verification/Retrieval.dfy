/** Plain search, two-pass feedback search and hybrid search over one index. */
module Retrieval {
  import opened Wrappers
  import opened Sorting
  import opened Scoring
  import opened Queries
  import opened QueryBuilder
  import opened AllowLists
  import opened Ranking
  import opened BoolTrees
  import Hybrid

  /** No operation makes a negative score of non-negative ones. */
  ghost predicate NonNegativeArith(ar: Arith<real>) {
    && ar.zero >= 0.0 && ar.emptySum >= 0.0 && ar.one >= 0.0
    && (forall a, b | a >= 0.0 && b >= 0.0 :: ar.add(a, b) >= 0.0)
    && (forall a, b | a >= 0.0 && b >= 0.0 :: ar.mul(a, b) >= 0.0)
    && (forall n: nat, m: nat :: ar.ratio(n, m) >= 0.0)
  }

  /** No score is negative, whatever the sign of an inverse document frequency, and no boost is. */
  ghost predicate NonNegativeIndex(index: Reader<real>) {
    && (forall df: nat, tf: nat, len: nat, avg: real :: index.score(index.idf(df), tf, len, avg) >= 0.0)
    && (forall f: string, t: string, s: real, n: nat, a: bool, i: nat | i < |index.fuzzyTerms(f, t, s, n, a)| :: index.fuzzyTerms(f, t, s, n, a)[i].1 >= 0.0)
  }

  predicate NonNegative(x: real) {
    x >= 0.0
  }

  predicate AllNonNegative(xs: seq<real>) {
    forall i | 0 <= i < |xs| :: xs[i] >= 0.0
  }

  ghost predicate NonNegativeEnv(env: Env<real>) {
    NonNegativeArith(env.ar) && NonNegativeIndex(env.index) && forall f: string :: env.FieldWeight(f) >= 0.0
  }

  // ----- scores are not negative -----

  lemma {:induction false} FoldNonNegative(ar: Arith<real>, start: real, xs: seq<real>)
    requires NonNegativeArith(ar) && start >= 0.0 && AllNonNegative(xs)
    ensures ar.Fold(start, xs) >= 0.0
  {
    if xs != [] {
      FoldNonNegative(ar, start, xs[..|xs| - 1]);
    }
  }

  lemma {:induction false} ScaledNonNegative(ar: Arith<real>, xs: seq<real>, w: real)
    requires NonNegativeArith(ar) && w >= 0.0 && AllNonNegative(xs)
    ensures AllNonNegative(ar.Scaled(xs, w))
  {
  }

  lemma {:induction false} ValuesNonNegative(hits: seq<(nat, real)>, d: nat)
    requires forall i | 0 <= i < |hits| :: hits[i].1 >= 0.0
    ensures AllNonNegative(Values(hits, d))
  {
    if hits != [] {
      ValuesNonNegative(hits[..|hits| - 1], d);
    }
  }

  lemma {:induction false} TermNonNegative(env: Env<real>, field: string, term: string, d: nat)
    requires NonNegativeEnv(env)
    ensures AllNonNegative(env.Sc().TermValues(field, term, d))
  {
    var hits := env.Sc().Hits(field, term);
    var ps, idf, avg := env.index.postings(field, term), env.index.idf(env.index.docFreq(field, term)), env.index.avgFieldLen(field);
    forall i | 0 <= i < |hits| ensures hits[i].1 >= 0.0 {
      ScoredNonNegative(env.index, env.index.docFreq(field, term), ps[i].1, env.index.fieldLen(ps[i].0, field), avg);
    }
    ValuesNonNegative(hits, d);
  }

  lemma {:induction false} ScoredNonNegative(index: Reader<real>, df: nat, tf: nat, len: nat, avg: real)
    requires NonNegativeIndex(index)
    ensures index.score(index.idf(df), tf, len, avg) >= 0.0
  {
  }

  lemma {:induction false} UnionNonNegative(env: Env<real>, field: string, terms: seq<string>, d: nat)
    requires NonNegativeEnv(env)
    ensures AllNonNegative(env.Sc().UnionValues(field, terms, d))
  {
    hide NonNegativeEnv, Scorer.TermValues;
    if terms != [] {
      UnionNonNegative(env, field, terms[..|terms| - 1], d);
      TermNonNegative(env, field, terms[|terms| - 1], d);
    }
  }

  lemma {:induction false} FuzzyNonNegative(env: Env<real>, field: string, terms: seq<(string, real)>, d: nat)
    requires NonNegativeEnv(env) && forall i | 0 <= i < |terms| :: terms[i].1 >= 0.0
    ensures AllNonNegative(env.Sc().FuzzyValues(field, terms, d))
  {
    hide Scorer.TermValues, Arith.Scaled;
    if terms != [] {
      FuzzyNonNegative(env, field, terms[..|terms| - 1], d);
      TermNonNegative(env, field, terms[|terms| - 1].0, d);
      ScaledNonNegative(env.ar, env.Sc().TermValues(field, terms[|terms| - 1].0, d), terms[|terms| - 1].1);
    }
  }

  lemma {:induction false} TotalNonNegative(ar: Arith<real>, xs: seq<real>)
    requires NonNegativeArith(ar) && AllNonNegative(xs)
    ensures ar.AddAll(None, xs).Some? ==> ar.AddAll(None, xs).value >= 0.0
  {
    hide Arith.Fold;
    FoldNonNegative(ar, ar.zero, xs);
  }

  lemma {:induction false} FieldNonNegative(env: Env<real>, q: Query<real>, field: string, d: nat)
    requires NonNegativeEnv(env) && q.Leaf()
    ensures AllNonNegative(env.FieldValues(q, field, d))
  {
    hide Scorer.TermValues, Scorer.UnionValues, Scorer.FuzzyValues, Scorer.PhraseIn, Arith.Fold, Arith.AddAll, Scorer.WordValue;
    match q {
      case Term(_, text) => TermNonNegative(env, field, text, d);
      case AccentTerm(_, text) =>
        var ts := env.index.accentTerms(field, text);
        UnionNonNegative(env, field, ts, d);
        TotalNonNegative(env.ar, env.Sc().UnionValues(field, ts, d));
      case Wildcard(_, pattern, n, accents) =>
        var ts := env.index.wildcardTerms(field, pattern, n, accents);
        UnionNonNegative(env, field, ts, d);
        TotalNonNegative(env.ar, env.Sc().UnionValues(field, ts, d));
      case Fuzzy(_, text, similarity, n, accents) =>
        var ts := env.index.fuzzyTerms(field, text, similarity, n, accents);
        FuzzyNonNegative(env, field, ts, d);
        TotalNonNegative(env.ar, env.Sc().FuzzyValues(field, ts, d));
      case Phrase(_, words, accents) =>
        WordsNonNegative(env, field, words, accents, d);
        FoldNonNegative(env.ar, env.ar.emptySum, env.Sc().WordValues(field, words, accents, d));
    }
  }

  lemma {:induction false} WordsNonNegative(env: Env<real>, field: string, words: seq<string>, accents: bool, d: nat)
    requires NonNegativeEnv(env)
    ensures AllNonNegative(env.Sc().WordValues(field, words, accents, d))
  {
    hide Scorer.WordPositions, Scorer.WordFreq;
    forall i | 0 <= i < |words| ensures env.Sc().WordValue(field, words[i], accents, d) >= 0.0 {
      var variants := env.Sc().Variants(field, words[i], accents);
      var ps := env.Sc().WordPositions(field, variants, d);
      ScoredNonNegative(env.index, env.Sc().WordFreq(field, variants), if ps.Some? then |ps.value| else 0,
                        env.index.fieldLen(d, field), env.index.avgFieldLen(field));
    }
  }

  lemma {:induction false} LeafNonNegative(env: Env<real>, q: Query<real>, fields: seq<string>, d: nat)
    requires NonNegativeEnv(env) && q.Leaf()
    ensures AllNonNegative(env.LeafValues(q, fields, d))
  {
    hide Env.FieldValues, Arith.Scaled;
    if fields != [] {
      LeafNonNegative(env, q, fields[..|fields| - 1], d);
      FieldNonNegative(env, q, fields[|fields| - 1], d);
      ScaledNonNegative(env.ar, env.FieldValues(q, fields[|fields| - 1], d), env.FieldWeight(fields[|fields| - 1]));
    }
  }

  ghost predicate SomeNonNegative(rs: seq<Option<real>>) {
    forall i | 0 <= i < |rs| && rs[i].Some? :: rs[i].value >= 0.0
  }

  lemma {:induction false} SomesNonNegative(rs: seq<Option<real>>)
    requires SomeNonNegative(rs)
    ensures AllNonNegative(Somes(rs))
  {
    if rs != [] {
      SomesNonNegative(rs[..|rs| - 1]);
    }
  }

  lemma {:induction false} SignedNonNegative(clauses: seq<Clause<real>>, rs: seq<Option<real>>, o: Occur)
    requires |rs| == |clauses| && SomeNonNegative(rs)
    ensures SomeNonNegative(Signed(clauses, rs, o))
  {
    if clauses != [] {
      SignedNonNegative(clauses[..|clauses| - 1], rs[..|rs| - 1], o);
    }
  }

  lemma {:induction false} CombineNonNegative(env: Env<real>, musts: seq<Option<real>>, shoulds: seq<Option<real>>, mustNots: seq<Option<real>>)
    requires NonNegativeEnv(env) && SomeNonNegative(musts) && SomeNonNegative(shoulds)
    ensures var r := env.Combine(musts, shoulds, mustNots); r.Some? ==> r.value >= 0.0
  {
    hide NonNegativeIndex, Somes, SomeNonNegative, Arith.Fold;
    SomesNonNegative(musts);
    SomesNonNegative(shoulds);
    FoldNonNegative(env.ar, env.ar.zero, Somes(shoulds));
    FoldNonNegative(env.ar, env.ar.emptySum, Somes(musts));
    FoldNonNegative(env.ar, env.ar.Fold(env.ar.emptySum, Somes(musts)), Somes(shoulds));
  }

  lemma {:induction false} ScoreNonNegative(env: Env<real>, q: Query<real>, d: nat)
    requires NonNegativeEnv(env) && BoostsAre(q, NonNegative)
    ensures env.Score(q, d).Some? ==> env.Score(q, d).value >= 0.0
    decreases q
  {
    hide Env.LeafValues, Env.Combine, Signed, NonNegativeIndex, Arith.AddAll;
    match q {
      case Boolean(clauses) =>
        var rs := seq(|clauses|, i requires 0 <= i < |clauses| => env.Score(clauses[i].query, d));
        forall i | 0 <= i < |clauses| ensures rs[i].Some? ==> rs[i].value >= 0.0 {
          ScoreNonNegative(env, clauses[i].query, d);
        }
        env.Unfolded(clauses, rs, d);
        SignedNonNegative(clauses, rs, Must);
        SignedNonNegative(clauses, rs, Should);
        CombineNonNegative(env, Signed(clauses, rs, Must), Signed(clauses, rs, Should), Signed(clauses, rs, MustNot));
      case Boosted(_, inner) => ScoreNonNegative(env, inner, d);
      case MatchAll =>
      case _ =>
        LeafNonNegative(env, q, env.TargetFields(q.field), d);
        TotalNonNegative(env.ar, env.LeafValues(q, env.TargetFields(q.field), d));
    }
  }

  // ----- normalization -----

  method TopScore(m: map<nat, real>) returns (top: real)
    ensures top >= 0.0 && forall d | d in m :: m[d] <= top
    ensures top > 0.0 ==> exists d :: d in m && m[d] == top
  {
    top := 0.0;
    var left := m.Keys;
    while left != {}
      invariant left <= m.Keys
      invariant top >= 0.0 && forall d | d in m && d !in left :: m[d] <= top
      invariant top > 0.0 ==> exists d :: d in m && m[d] == top
      decreases |left|
    {
      var d :| d in left;
      if m[d] > top {
        top := m[d];
      }
      left := left - {d};
    }
  }

  function Divided(s: real, top: real): real {
    if top > 0.0 then s / top else s
  }

  /** The matches in no particular order, their scores divided by the best one. */
  method Normalized(m: map<nat, real>) returns (xs: seq<Scored>, ghost top: real)
    ensures DistinctIds(xs) && |xs| == |m|
    ensures top >= 0.0 && (forall d | d in m :: m[d] <= top) && (top > 0.0 ==> exists d :: d in m && m[d] == top)
    ensures forall i | 0 <= i < |xs| :: xs[i].id in m && xs[i].score == Divided(m[xs[i].id], top)
    ensures forall d | d in m :: exists i | 0 <= i < |xs| :: xs[i].id == d
  {
    var best := TopScore(m);
    top := best;
    xs := [];
    var left := m.Keys;
    while left != {}
      invariant left <= m.Keys && DistinctIds(xs) && |xs| + |left| == |m.Keys|
      invariant forall i | 0 <= i < |xs| :: xs[i].id in m && xs[i].id !in left && xs[i].score == Divided(m[xs[i].id], best)
      invariant forall d | d in m && d !in left :: exists i | 0 <= i < |xs| :: xs[i].id == d
      decreases |left|
    {
      var d :| d in left;
      ghost var before := xs;
      xs := xs + [Scored(d, if best > 0.0 then m[d] / best else m[d])];
      left := left - {d};
      forall e | e in m && e !in left ensures exists i | 0 <= i < |xs| :: xs[i].id == e {
        if e == d {
          assert xs[|before|].id == e;
        } else {
          var i :| 0 <= i < |before| && before[i].id == e;
          assert xs[i].id == e;
        }
      }
    }
  }

  lemma {:induction false} Quotient(s: real, top: real)
    requires s <= top && top > 0.0
    ensures Divided(s, top) <= 1.0 && (s == top ==> Divided(s, top) == 1.0)
  {
  }

  lemma {:induction false} QuotientNonNegative(s: real, top: real)
    requires s >= 0.0
    ensures Divided(s, top) >= 0.0
  {
  }

  function Ids(hits: seq<Hit>): set<nat> {
    set i | 0 <= i < |hits| :: hits[i].id
  }

  function Below(n: nat): (s: set<nat>)
    ensures |s| == n && forall d: nat :: d in s <==> d < n
  {
    if n == 0 then {} else Below(n - 1) + {n - 1}
  }

  predicate InMatches(xs: seq<Scored>, id: nat) {
    exists j | 0 <= j < |xs| :: xs[j].id == id
  }

  /** Nothing is cut from an unlimited page, and nothing filtered from non-negative scores at zero. */
  lemma {:induction false} PageKeeps(xs: seq<Scored>, stored: nat -> map<string, string>, minScore: real, limit: nat, hits: seq<Hit>)
    requires DistinctIds(xs) && hits == Hydrate(Page(Sort(Better, AtLeast(xs, minScore)), 0, limit), stored)
    ensures Hybrid.DistinctHits(hits) && |hits| <= limit
    ensures forall i | 0 <= i < |hits| :: hits[i].score >= minScore
    ensures forall i | 0 <= i < |hits| :: InMatches(xs, hits[i].id)
    ensures |hits| < limit ==> forall j | 0 <= j < |xs| && xs[j].score >= minScore :: xs[j].id in Ids(hits)
    ensures |xs| <= limit ==> forall j | 0 <= j < |xs| && xs[j].score >= minScore :: xs[j].id in Ids(hits)
  {
    hide AtLeast, Sort, Better;
    var kept := AtLeast(xs, minScore);
    var sorted := Sort(Better, kept);
    AtLeastKeeps(xs, minScore);
    SameElements(sorted, kept);
    ShuffledDistinct(kept, sorted);
    var page := Page(sorted, 0, limit);
    forall i | 0 <= i < |hits| ensures hits[i].score >= minScore && InMatches(xs, hits[i].id) {
      assert sorted[i] in kept;
      var j := IndexOf(xs, sorted[i]);
    }
    if |hits| < limit || |xs| <= limit {
      assert page == sorted;
      forall j | 0 <= j < |xs| && xs[j].score >= minScore ensures xs[j].id in Ids(hits) {
        assert xs[j] in kept;
        var i := IndexOf(sorted, xs[j]);
        assert hits[i].id == xs[j].id;
      }
    }
  }

  /** As many hits as the limit, and all of them before the document. */
  ghost predicate Full(hits: seq<Hit>, limit: nat, score: real, d: nat) {
    limit > 0 && |hits| == limit && forall i | 0 <= i < |hits| :: Outranks(hits[i].score, hits[i].id, score, d)
  }

  /** A page from the start, by its hits. */
  lemma {:induction false} RankedPage(xs: seq<Scored>, stored: nat -> map<string, string>, minScore: real, limit: nat, hits: seq<Hit>)
    requires DistinctIds(xs) && hits == Hydrate(Page(Sort(Better, AtLeast(xs, minScore)), 0, limit), stored)
    ensures |hits| <= limit
    ensures forall i, j | 0 <= i < j < |hits| :: Outranks(hits[i].score, hits[i].id, hits[j].score, hits[j].id)
    ensures forall i | 0 <= i < |hits| ::
              && hits[i].score >= minScore && hits[i].fields == stored(hits[i].id)
              && exists j | 0 <= j < |xs| :: xs[j].id == hits[i].id && xs[j].score == hits[i].score
  {
    hide AtLeast, Sort, Better, Outranks, DistinctIds;
    SortedOutranks(xs, minScore);
    var sorted := Sort(Better, AtLeast(xs, minScore));
    forall i | 0 <= i < |hits| ensures hits[i].score >= minScore && exists j | 0 <= j < |xs| :: xs[j].id == hits[i].id && xs[j].score == hits[i].score {
      assert sorted[i] in sorted;
      var j := IndexOf(xs, sorted[i]);
    }
  }

  /** A match not on it is below the threshold, or the page is full of better ones. */
  lemma {:induction false} PageMissing(xs: seq<Scored>, stored: nat -> map<string, string>, minScore: real, limit: nat, hits: seq<Hit>, j: nat)
    requires DistinctIds(xs) && hits == Hydrate(Page(Sort(Better, AtLeast(xs, minScore)), 0, limit), stored)
    requires j < |xs| && limit > 0
    ensures (exists i | 0 <= i < |hits| :: hits[i].id == xs[j].id)
         || xs[j].score < minScore
         || (Full(hits, limit, xs[j].score, xs[j].id) && limit < |xs|)
  {
    hide AtLeast, Sort, Better, Outranks, DistinctIds;
    SortedOutranks(xs, minScore);
    var sorted := Sort(Better, AtLeast(xs, minScore));
    if xs[j].score >= minScore {
      assert xs[j] in sorted;
      var i := IndexOf(sorted, xs[j]);
      if i < |hits| {
        assert hits[i].id == xs[j].id;
      }
    }
  }

  datatype FieldSort = FieldSort(source: SortSource, ascending: bool)

  datatype Searcher = Searcher(corpus: Corpus<real>, builder: Builder<real>, storedFields: nat -> map<string, string>) {

    ghost predicate Valid() {
      builder.E() == corpus.env && corpus.Lawful() && corpus.env.index.totalDocs <= USIZE_MAX
    }

    /** Scores cannot be negative: neither the index's, nor the weights, nor the text's synonym boosts. */
    ghost predicate NonNegativeScores(p: Params) {
      NonNegativeEnv(corpus.env) && BoostsAre(builder.textSubquery(p.text), NonNegative)
    }

    lemma {:induction false} FewMatches(m: map<nat, real>, q: Query<real>, restrict: Option<set<nat>>)
      requires Valid() && corpus.env.Evaluates(m, q, restrict)
      ensures |m| <= USIZE_MAX
    {
      hide Corpus.Lawful, Env.Score;
      forall d | d in m ensures d in Below(corpus.env.index.totalDocs) {
        assert Get(m, d).Some?;
        corpus.ScoredAreLive(q, d);
      }
      SubsetSize(m.Keys, Below(corpus.env.index.totalDocs));
      assert |m| == |m.Keys|;
    }

    /** Document `d` matches the query and is allowed. */
    ghost predicate Found(q: Query<real>, restrict: Option<set<nat>>, d: nat) {
      Allows(restrict, d) && corpus.env.Matches(q, d)
    }

    /** `xs` are the matches, each once, their scores divided by the best one when it is positive. */
    ghost predicate Ranks(xs: seq<Scored>, top: real, q: Query<real>, restrict: Option<set<nat>>) {
      && DistinctIds(xs)
      && (forall d: nat :: InMatches(xs, d) <==> Found(q, restrict, d))
      && (forall i | 0 <= i < |xs| :: Found(q, restrict, xs[i].id) && xs[i].score == Divided(corpus.env.Score(q, xs[i].id).value, top))
      && IsTop(top, q, restrict)
    }

    /** The best score of a match, or zero when none is positive. */
    ghost predicate IsTop(top: real, q: Query<real>, restrict: Option<set<nat>>) {
      && top >= 0.0
      && (forall d: nat | Found(q, restrict, d) :: corpus.env.Score(q, d).value <= top)
      && (top > 0.0 ==> exists d: nat :: Found(q, restrict, d) && corpus.env.Score(q, d).value == top)
    }

    lemma {:induction false} TopUnique(a: real, b: real, q: Query<real>, restrict: Option<set<nat>>)
      requires IsTop(a, q, restrict) && IsTop(b, q, restrict)
      ensures a == b
    {
      hide Env.Score;
      if a > 0.0 {
        var d: nat :| Found(q, restrict, d) && corpus.env.Score(q, d).value == a;
      }
      if b > 0.0 {
        var d: nat :| Found(q, restrict, d) && corpus.env.Score(q, d).value == b;
      }
    }

    /** The matches and their scores do not depend on the order a hash map yields them in. */
    lemma {:induction false} RanksAgree(xs: seq<Scored>, a: real, ys: seq<Scored>, b: real, q: Query<real>, restrict: Option<set<nat>>)
      requires Ranks(xs, a, q, restrict) && Ranks(ys, b, q, restrict)
      ensures multiset(xs) == multiset(ys)
    {
      hide Found, Env.Score, IsTop, Divided;
      TopUnique(a, b, q, restrict);
      forall x: Scored ensures x in xs <==> x in ys {
        if x in xs {
          RankedIn(xs, ys, a, q, restrict, x);
        }
        if x in ys {
          RankedIn(ys, xs, a, q, restrict, x);
        }
      }
      SameSet(xs, ys);
    }

    lemma {:induction false} RankedIn(xs: seq<Scored>, ys: seq<Scored>, top: real, q: Query<real>, restrict: Option<set<nat>>, x: Scored)
      requires Ranks(xs, top, q, restrict) && Ranks(ys, top, q, restrict) && x in xs
      ensures x in ys
    {
      hide Found, Env.Score, IsTop, Divided;
      var i := IndexOf(xs, x);
      assert InMatches(ys, xs[i].id);
      var j :| 0 <= j < |ys| && ys[j].id == xs[i].id;
      assert ys[j] == x;
    }

    /** Two calls for consecutive pages together return what one call for both would. */
    lemma {:induction false} CallsTile(xs: seq<Scored>, a: real, ys: seq<Scored>, b: real, zs: seq<Scored>, c: real,
                                       q: Query<real>, restrict: Option<set<nat>>, minScore: real, offset: nat, m: nat, n: nat)
      requires Ranks(xs, a, q, restrict) && Ranks(ys, b, q, restrict) && Ranks(zs, c, q, restrict)
      ensures Page(Sort(Better, AtLeast(xs, minScore)), offset, m) + Page(Sort(Better, AtLeast(ys, minScore)), offset + m, n)
           == Page(Sort(Better, AtLeast(zs, minScore)), offset, m + n)
    {
      hide Found, Env.Score, IsTop, AtLeast, Sort, Better;
      RanksAgree(xs, a, ys, b, q, restrict);
      RanksAgree(xs, a, zs, c, q, restrict);
      ShuffledRelevance(xs, ys, minScore);
      ShuffledRelevance(xs, zs, minScore);
      PagesTile(Sort(Better, AtLeast(xs, minScore)), offset, m, n);
    }

    /** So do two calls for consecutive pages by a field: both see the same number of matches, hence the
        same source of keys. */
    lemma {:induction false} FieldCallsTile(xs: seq<Scored>, a: real, ys: seq<Scored>, b: real, zs: seq<Scored>, c: real, sort: FieldSort,
                                            q: Query<real>, restrict: Option<set<nat>>, minScore: real, offset: nat, m: nat, n: nat)
      requires Ranks(xs, a, q, restrict) && Ranks(ys, b, q, restrict) && Ranks(zs, c, q, restrict)
      ensures var (source, ascending) := (sort.source, sort.ascending);
              SortedPage(xs, storedFields, source, source.Chosen(|xs|), minScore, ascending, offset, m)
              + SortedPage(ys, storedFields, source, source.Chosen(|ys|), minScore, ascending, offset + m, n)
              == SortedPage(zs, storedFields, source, source.Chosen(|zs|), minScore, ascending, offset, m + n)
    {
      hide Found, Env.Score, IsTop, AtLeast, Sort, EntryOrder, SortSource.Chosen, SortSource.Entries;
      RanksAgree(xs, a, ys, b, q, restrict);
      RanksAgree(xs, a, zs, c, q, restrict);
      SameElements(xs, ys);
      SameElements(xs, zs);
      var source, table := sort.source, sort.source.Chosen(|xs|);
      ShuffledField(source, table, sort.ascending, xs, ys, minScore);
      ShuffledField(source, table, sort.ascending, xs, zs, minScore);
      var all := Sort(EntryOrder(sort.ascending), source.Entries(table, AtLeast(xs, minScore)));
      PagesTile(all, offset, m, n);
      HydrateJoins(Page(all, offset, m), Page(all, offset + m, n), storedFields);
    }

    /** A positive best score becomes one, and no score exceeds it. */
    lemma {:induction false} BestIsOne(xs: seq<Scored>, top: real, q: Query<real>, restrict: Option<set<nat>>)
      requires Ranks(xs, top, q, restrict) && top > 0.0
      ensures forall i | 0 <= i < |xs| :: xs[i].score <= 1.0
      ensures exists i | 0 <= i < |xs| :: xs[i].score == 1.0
    {
      hide Env.Score;
      forall i | 0 <= i < |xs| ensures xs[i].score <= 1.0 {
        Quotient(corpus.env.Score(q, xs[i].id).value, top);
      }
      var d: nat :| Found(q, restrict, d) && corpus.env.Score(q, d).value == top;
      assert InMatches(xs, d);
      var i :| 0 <= i < |xs| && xs[i].id == d;
      Quotient(top, top);
    }

    /** One search: evaluate, normalize, then a page by relevance or by a field. */
    method SearchPaged(q: Query<real>, restrict: Option<set<nat>>, minScore: real, offset: nat, limit: nat, totalCap: Option<nat>,
                       sort: Option<FieldSort>)
      returns (r: Outcome, ghost xs: seq<Scored>, ghost top: real)
      requires Valid()
      ensures |r.hits| <= limit && (totalCap.Some? ==> r.total <= totalCap.value)
      ensures Ranks(xs, top, q, restrict)
      ensures sort.None? ==> r.hits == Hydrate(Page(Sort(Better, AtLeast(xs, minScore)), offset, limit), storedFields)
      ensures sort.Some? ==>
                var source := sort.value.source;
                r.hits == SortedPage(xs, storedFields, source, source.Chosen(|xs|), minScore, sort.value.ascending, offset, limit)
      ensures sort.Some? && sort.value.source.Agrees(IdsOf(xs)) ==>
                r.hits == SortedPage(xs, storedFields, sort.value.source, None, minScore, sort.value.ascending, offset, limit)
      ensures r.total == CappedTotal(|AtLeast(xs, minScore)|, totalCap)
      ensures r.totalCapped <==> totalCap.Some? && |AtLeast(xs, minScore)| > totalCap.value
      ensures |xs| <= USIZE_MAX
    {
      hide Corpus.Lawful, Env.Score, AtLeast, Sort, Better, SortSource.Agrees, SortSource.Chosen, SortedPage, Ranks;
      var scored := corpus.env.Eval(q, restrict);
      FewMatches(scored, q, restrict);
      var normalized, best := Normalized(scored);
      xs, top := normalized, best;
      NormalizedRanks(scored, xs, top, q, restrict);
      if sort.Some? {
        r := FinalizeSorted(normalized, storedFields, sort.value.source, minScore, sort.value.ascending, offset, limit, totalCap);
      } else {
        r := FinalizePaged(normalized, storedFields, minScore, offset, limit, totalCap);
      }
    }

    lemma {:induction false} NormalizedRanks(m: map<nat, real>, xs: seq<Scored>, top: real, q: Query<real>, restrict: Option<set<nat>>)
      requires corpus.env.Evaluates(m, q, restrict) && DistinctIds(xs)
      requires top >= 0.0 && (forall d | d in m :: m[d] <= top) && (top > 0.0 ==> exists d :: d in m && m[d] == top)
      requires forall i | 0 <= i < |xs| :: xs[i].id in m && xs[i].score == Divided(m[xs[i].id], top)
      requires forall d | d in m :: exists i | 0 <= i < |xs| :: xs[i].id == d
      ensures Ranks(xs, top, q, restrict)
    {
      hide Env.Score, Divided;
      forall d: nat
        ensures d in m <==> Found(q, restrict, d)
        ensures d in m ==> m[d] == corpus.env.Score(q, d).value
      {
        assert Get(m, d) == if Allows(restrict, d) then corpus.env.Score(q, d) else None;
      }
      if top > 0.0 {
        var d :| d in m && m[d] == top;
        assert Found(q, restrict, d);
      }
    }

    // ----- what a relevance search returns, spelled out -----

    /** The score of a match relative to the best, when that is positive. */
    ghost function Relative(q: Query<real>, top: real, d: nat): real {
      var s := corpus.env.Score(q, d);
      if s.None? then 0.0 else if top > 0.0 then s.value / top else s.value
    }

    /** The best score of the documents found, or zero when none is positive. */
    ghost predicate IsBest(top: real, q: Query<real>, found: nat -> bool) {
      && top >= 0.0
      && (forall d: nat | found(d) :: corpus.env.Score(q, d).Some? && corpus.env.Score(q, d).value <= top)
      && (top > 0.0 ==> exists d: nat :: found(d) && corpus.env.Score(q, d).value == top)
    }

    /** The hits are documents found, at or above the threshold, each with its relative score and its stored
        fields, higher scores first and smaller ids first among equals. A document found is missing only
        below the threshold, or when the limit is reached by hits that all stand before it. Limit zero is none. */
    ghost predicate Shows(hits: seq<Hit>, top: real, q: Query<real>, found: nat -> bool, minScore: real, limit: nat) {
      && (forall i, j | 0 <= i < j < |hits| :: Outranks(hits[i].score, hits[i].id, hits[j].score, hits[j].id))
      && (forall i | 0 <= i < |hits| ::
            && found(hits[i].id) && hits[i].score == Relative(q, top, hits[i].id) && hits[i].score >= minScore
            && hits[i].fields == storedFields(hits[i].id))
      && (limit > 0 ==> |hits| <= limit)
      && forall d: nat | found(d) ::
           || (exists i | 0 <= i < |hits| :: hits[i].id == d)
           || Relative(q, top, d) < minScore
           || Full(hits, limit, Relative(q, top, d), d)
    }

    ghost predicate IsSearch(hits: seq<Hit>, q: Query<real>, found: nat -> bool, minScore: real, limit: nat) {
      exists top: real :: IsBest(top, q, found) && Shows(hits, top, q, found, minScore, limit)
    }

    lemma {:induction false} PageShows(xs: seq<Scored>, top: real, q: Query<real>, restrict: Option<set<nat>>, minScore: real, limit: nat, hits: seq<Hit>)
      requires Ranks(xs, top, q, restrict) && limit > 0
      requires hits == Hydrate(Page(Sort(Better, AtLeast(xs, minScore)), 0, limit), storedFields)
      ensures Shows(hits, top, q, (d: nat) => Found(q, restrict, d), minScore, limit)
      ensures |xs| <= limit ==> Shows(hits, top, q, (d: nat) => Found(q, restrict, d), minScore, 0)
    {
      hide AtLeast, Sort, Better, Env.Score, Found, Ranks, Relative, Page, Hydrate, Outranks, Full;
      RanksDistinct(xs, top, q, restrict);
      RankedPage(xs, storedFields, minScore, limit, hits);
      forall i | 0 <= i < |hits| ensures Found(q, restrict, hits[i].id) && hits[i].score == Relative(q, top, hits[i].id) {
        var j :| 0 <= j < |xs| && xs[j].id == hits[i].id && xs[j].score == hits[i].score;
        ScoredRelative(xs, top, q, restrict, j);
      }
      forall d: nat | Found(q, restrict, d)
        ensures (exists i | 0 <= i < |hits| :: hits[i].id == d) || Relative(q, top, d) < minScore || (Full(hits, limit, Relative(q, top, d), d) && limit < |xs|)
      {
        assert InMatches(xs, d);
        var j :| 0 <= j < |xs| && xs[j].id == d;
        ScoredRelative(xs, top, q, restrict, j);
        PageMissing(xs, storedFields, minScore, limit, hits, j);
      }
    }

    lemma {:induction false} ScoredRelative(xs: seq<Scored>, top: real, q: Query<real>, restrict: Option<set<nat>>, j: nat)
      requires Ranks(xs, top, q, restrict) && j < |xs|
      ensures Found(q, restrict, xs[j].id) && xs[j].score == Relative(q, top, xs[j].id)
    {
      hide Env.Score, IsTop;
    }

    lemma {:induction false} TopIsBest(xs: seq<Scored>, top: real, q: Query<real>, restrict: Option<set<nat>>)
      requires Ranks(xs, top, q, restrict)
      ensures IsBest(top, q, (d: nat) => Found(q, restrict, d))
    {
      hide Env.Score;
      forall d: nat | Found(q, restrict, d) ensures corpus.env.Score(q, d).Some? {
        FoundScored(q, restrict, d);
      }
    }

    lemma {:induction false} FoundScored(q: Query<real>, restrict: Option<set<nat>>, d: nat)
      requires Found(q, restrict, d)
      ensures corpus.env.Score(q, d).Some?
    {
      hide Env.Score;
    }

    /** Only which documents are found matters. */
    lemma {:induction false} SameFound(hits: seq<Hit>, q: Query<real>, f: nat -> bool, g: nat -> bool, minScore: real, limit: nat)
      requires IsSearch(hits, q, f, minScore, limit) && forall d: nat :: f(d) <==> g(d)
      ensures IsSearch(hits, q, g, minScore, limit)
    {
      hide Env.Score, Relative;
      var top :| IsBest(top, q, f) && Shows(hits, top, q, f, minScore, limit);
      assert IsBest(top, q, g) && Shows(hits, top, q, g, minScore, limit);
    }

    /** A relevance search for the first `limit` hits. */
    method Plain(q: Query<real>, restrict: Option<set<nat>>, minScore: real, limit: nat) returns (hits: seq<Hit>)
      requires Valid()
      ensures Hybrid.DistinctHits(hits) && |hits| <= limit && forall i | 0 <= i < |hits| :: hits[i].score >= minScore
      ensures forall d: nat | d in Ids(hits) :: Found(q, restrict, d)
      ensures minScore <= 0.0 && NonNegativeEnv(corpus.env) && BoostsAre(q, NonNegative) && (limit >= USIZE_MAX || |hits| < limit) ==>
                forall d: nat | Found(q, restrict, d) :: d in Ids(hits)
      ensures exists xs, top ::
                Ranks(xs, top, q, restrict) && hits == Hydrate(Page(Sort(Better, AtLeast(xs, minScore)), 0, limit), storedFields)
      ensures limit > 0 ==> IsSearch(hits, q, (d: nat) => Found(q, restrict, d), minScore, limit)
      ensures limit >= USIZE_MAX ==> IsSearch(hits, q, (d: nat) => Found(q, restrict, d), minScore, 0)
    {
      hide Corpus.Lawful, Env.Score, NonNegativeEnv, BoostsAre, AtLeast, Sort, Better, IsTop, Found, IsBest, Shows, Ranks;
      var outcome, xs, top := SearchPaged(q, restrict, minScore, 0, limit, None, None);
      hits := outcome.hits;
      RanksDistinct(xs, top, q, restrict);
      PageKeeps(xs, storedFields, minScore, limit, hits);
      if limit > 0 {
        TopIsBest(xs, top, q, restrict);
        PageShows(xs, top, q, restrict, minScore, limit, hits);
      }
      if minScore <= 0.0 && NonNegativeEnv(corpus.env) && BoostsAre(q, NonNegative) && (limit >= USIZE_MAX || |hits| < limit) {
        forall d: nat | Found(q, restrict, d) ensures d in Ids(hits) {
          assert InMatches(xs, d);
          var j :| 0 <= j < |xs| && xs[j].id == d;
          FoundNonNegative(q, restrict, top, d);
        }
      }
    }

    lemma {:induction false} RanksDistinct(xs: seq<Scored>, top: real, q: Query<real>, restrict: Option<set<nat>>)
      requires Ranks(xs, top, q, restrict)
      ensures DistinctIds(xs) && forall d: nat :: InMatches(xs, d) <==> Found(q, restrict, d)
      ensures forall i | 0 <= i < |xs| :: Found(q, restrict, xs[i].id) && xs[i].score == Divided(corpus.env.Score(q, xs[i].id).value, top)
    {
      hide Env.Score, Found, IsTop;
    }

    lemma {:induction false} FoundNonNegative(q: Query<real>, restrict: Option<set<nat>>, top: real, d: nat)
      requires NonNegativeEnv(corpus.env) && BoostsAre(q, NonNegative) && Found(q, restrict, d)
      ensures Divided(corpus.env.Score(q, d).value, top) >= 0.0
    {
      hide NonNegativeEnv, BoostsAre, Env.Score;
      ScoreNonNegative(corpus.env, q, d);
      QuotientNonNegative(corpus.env.Score(q, d).value, top);
    }

    /** The documents a search is for: live, passing every filter, and selected by the query. */
    ghost predicate Relevant(p: Params, ranges: seq<RangeFilter>, words: seq<MatchAllFilter>, d: nat) {
      corpus.Live(d) && corpus.Passes(ranges, words, d) && builder.Selected(p, d)
    }

    /** Live and passing every filter. */
    ghost predicate Permitted(ranges: seq<RangeFilter>, words: seq<MatchAllFilter>, d: nat) {
      corpus.Live(d) && corpus.Passes(ranges, words, d)
    }

    /** The permitted documents that match. */
    ghost function Among(q: Query<real>, ranges: seq<RangeFilter>, words: seq<MatchAllFilter>): nat -> bool {
      (d: nat) => Permitted(ranges, words, d) && corpus.env.Matches(q, d)
    }

    lemma {:induction false} SearchedAmong(hits: seq<Hit>, q: Query<real>, restrict: Option<set<nat>>, ranges: seq<RangeFilter>, words: seq<MatchAllFilter>,
                                           minScore: real, limit: nat)
      requires Valid() && corpus.Lists(restrict, (d: nat) => corpus.Passes(ranges, words, d))
      requires IsSearch(hits, q, (d: nat) => Found(q, restrict, d), minScore, limit)
      ensures IsSearch(hits, q, Among(q, ranges, words), minScore, limit)
    {
      hide Corpus.Lawful, Corpus.Passes, Corpus.Live, Env.Matches, Permitted, IsSearch, Found;
      forall d: nat ensures Found(q, restrict, d) <==> Permitted(ranges, words, d) && corpus.env.Matches(q, d) {
        FoundIsRelevant(q, restrict, ranges, words, d);
      }
      SameFound(hits, q, (d: nat) => Found(q, restrict, d), Among(q, ranges, words), minScore, limit);
    }

    lemma {:induction false} FoundIsRelevant(q: Query<real>, restrict: Option<set<nat>>, ranges: seq<RangeFilter>, words: seq<MatchAllFilter>, d: nat)
      requires Valid() && corpus.Lists(restrict, (d: nat) => corpus.Passes(ranges, words, d))
      ensures Found(q, restrict, d) <==> Permitted(ranges, words, d) && corpus.env.Matches(q, d)
    {
      hide Corpus.Lawful, Corpus.Passes, Env.Score;
      if corpus.env.Matches(q, d) {
        corpus.ScoredAreLive(q, d);
      }
    }

    /** The shared tail of every search: no limit is written zero. */
    method PlainAmong(q: Query<real>, restrict: Option<set<nat>>, ghost ranges: seq<RangeFilter>, ghost words: seq<MatchAllFilter>, minScore: real, limit: nat)
      returns (hits: seq<Hit>)
      requires Valid() && corpus.Lists(restrict, (d: nat) => corpus.Passes(ranges, words, d))
      ensures IsSearch(hits, q, Among(q, ranges, words), minScore, limit)
      ensures Hybrid.DistinctHits(hits) && (limit > 0 ==> |hits| <= limit) && forall i | 0 <= i < |hits| :: hits[i].score >= minScore
      ensures forall d: nat | d in Ids(hits) :: Found(q, restrict, d)
      ensures minScore <= 0.0 && NonNegativeEnv(corpus.env) && BoostsAre(q, NonNegative) && limit == 0 ==>
                forall d: nat | Found(q, restrict, d) :: d in Ids(hits)
    {
      hide Corpus.Lawful, Corpus.Passes, Env.Score, NonNegativeEnv, BoostsAre, IsSearch, Found, Among, Ranks, AtLeast, Sort, Better, Hydrate, Page;
      hits := Plain(q, restrict, minScore, if limit == 0 then USIZE_MAX else limit);
      SearchedAmong(hits, q, restrict, ranges, words, minScore, limit);
    }

    /** Plain search: every hit is relevant, and at a zero threshold and no limit every relevant document
        is a hit, once. */
    method LexicalSearch(p: Params, ranges: seq<RangeFilter>, words: seq<MatchAllFilter>, minScore: real, limit: nat)
      returns (r: Built<seq<Hit>>)
      requires Valid()
      ensures r.Refused? <==> builder.TooDeep(p) || BlankField(p)
      ensures r.Built? ==> Hybrid.DistinctHits(r.value) && forall d: nat | d in Ids(r.value) :: Relevant(p, ranges, words, d)
      ensures r.Built? ==> (limit > 0 ==> |r.value| <= limit) && forall i | 0 <= i < |r.value| :: r.value[i].score >= minScore
      ensures r.Built? && NonNegativeScores(p) && minScore <= 0.0 && limit == 0 ==>
                forall d: nat | Relevant(p, ranges, words, d) :: d in Ids(r.value)
      ensures r.Built? ==> builder.BodyClauses(p).Built? && IsSearch(r.value, builder.Whole(p), Among(builder.Whole(p), ranges, words), minScore, limit)
    {
      hide Corpus.Lawful, Corpus.Passes, Corpus.Live, Env.Matches, Builder.Selected, Builder.TooDeep, BlankField, NonNegativeEnv, BoostsAre, Found, Permitted, Ranks, AtLeast, Sort, Better, Hydrate, Page, IsSearch, Among, Builder.Whole, Builder.BodyClauses;
      var query :- builder.BuildQuery(p);
      var restrict := corpus.AllowList(ranges, words);
      var hits := PlainAmong(query, restrict, ranges, words, minScore, limit);
      forall d: nat ensures Found(query, restrict, d) <==> Relevant(p, ranges, words, d) {
        FoundIsRelevant(query, restrict, ranges, words, d);
        PermittedIs(ranges, words, d);
      }
      return Built(hits);
    }

    lemma {:induction false} PermittedIs(ranges: seq<RangeFilter>, words: seq<MatchAllFilter>, d: nat)
      ensures Permitted(ranges, words, d) <==> corpus.Live(d) && corpus.Passes(ranges, words, d)
    {
    }

    // ----- feedback search -----

    /** The query with a second, weighted disjunction of the feedback terms beside it. */
    function Augmented(base: Query<real>, selected: seq<(string, string)>, weight: real): Query<real> {
      var feedback := seq(|selected|, i requires 0 <= i < |selected| => Clause(Should, Term(Some(selected[i].0), selected[i].1)));
      Boolean([Clause(Should, base), Clause(Should, Boosted(weight, Boolean(feedback)))])
    }

    lemma {:induction false} AugmentedMatches(base: Query<real>, selected: seq<(string, string)>, weight: real, d: nat)
      ensures corpus.env.Matches(Augmented(base, selected, weight), d) <==> corpus.env.Matches(base, d) || HasSome(selected, d)
      ensures BoostsAre(base, NonNegative) && weight >= 0.0 ==> BoostsAre(Augmented(base, selected, weight), NonNegative)
    {
      hide Env.Score, Env.Matches;
      var clauses := Augmented(base, selected, weight).clauses;
      corpus.env.BooleanMatches(clauses, d);
      assert clauses[0].query == base && clauses[0].occur == Should && clauses[1].occur == Should;
      corpus.env.BoostedMatches(weight, clauses[1].query.inner, d);
      corpus.env.BooleanMatches(clauses[1].query.inner.clauses, d);
      assert forall i | 0 <= i < |selected| ::
          clauses[1].query.inner.clauses[i].query == Query<real>.Term(Some(selected[i].0), selected[i].1);
      if BoostsAre(base, NonNegative) && weight >= 0.0 {
        var feedback := clauses[1].query.inner;
        assert forall i | 0 <= i < |feedback.clauses| :: BoostsAre(feedback.clauses[i].query, NonNegative);
        assert BoostsAre(feedback, NonNegative);
        assert BoostsAre(clauses[1].query, NonNegative);
      }
    }

    /** The score the second pass gives: the base's, and the feedback's times its weight, times the share of
        the two that match. `feedback` is the disjunction of the terms. */
    lemma {:induction false} AugmentedScored(base: Query<real>, selected: seq<(string, string)>, weight: real, d: nat, feedback: Query<real>)
      requires feedback.Boolean? && |feedback.clauses| == |selected|
      requires forall i | 0 <= i < |selected| :: feedback.clauses[i] == Clause(Should, Term(Some(selected[i].0), selected[i].1))
      ensures var (ar, score) := (corpus.env.ar, corpus.env.Score(Augmented(base, selected, weight), d));
              var (a, f) := (corpus.env.Score(base, d), corpus.env.Score(feedback, d));
              && (a.Some? && f.Some? ==>
                    score == Some(ar.mul(ar.add(ar.add(ar.zero, a.value), ar.mul(f.value, weight)), ar.ratio(2, 2))))
              && (a.Some? && f.None? ==> score == Some(ar.mul(ar.add(ar.zero, a.value), ar.ratio(1, 2))))
              && (a.None? && f.Some? ==> score == Some(ar.mul(ar.add(ar.zero, ar.mul(f.value, weight)), ar.ratio(1, 2))))
              && (a.None? && f.None? ==> score.None?)
    {
      hide Env.Score;
      var clauses := Augmented(base, selected, weight).clauses;
      assert clauses[1].query.inner == feedback by {
        assert clauses[1].query.inner.clauses == feedback.clauses;
      }
      var env := corpus.env;
      env.BooleanMatches(clauses, d);
      env.BoostedMatches(weight, feedback, d);
      env.ScoreOfMatch(base, d);
      env.ScoreOfMatch(feedback, d);
      env.ScoreOfMatch(clauses[1].query, d);
      env.TwoShoulds(base, clauses[1].query, d);
      assert clauses == [Clause(Should, base), Clause(Should, clauses[1].query)];
    }

    /** A query with a clause that lists everything: there is nothing to learn feedback from. */
    predicate Lists(q: Query<real>) {
      q.Boolean? && exists i | 0 <= i < |q.clauses| :: q.clauses[i].query == MatchAll
    }

    function IdsInOrder(hits: seq<Hit>): (ids: seq<nat>)
      ensures |ids| == |hits| && forall i | 0 <= i < |hits| :: ids[i] == hits[i].id
    {
      seq(|hits|, i requires 0 <= i < |hits| => hits[i].id)
    }

    /** The two passes. `first` is the first one: the `topK` best hits of the base query, at no threshold;
        the terms are chosen from their ids, in order. Without anything to choose from, without terms, or
        with feedback turned off it is a plain search; without a first hit it finds nothing. */
    ghost predicate TwoPass(hits: seq<Hit>, first: seq<Hit>, base: Query<real>, ranges: seq<RangeFilter>, words: seq<MatchAllFilter>, topK: nat, numTerms: nat,
                            weight: real, selectTerms: seq<nat> -> seq<(string, string)>, minScore: real, limit: nat) {
      if topK == 0 || numTerms == 0 || Lists(base) then
        first == [] && IsSearch(hits, base, Among(base, ranges, words), minScore, limit)
      else
        && IsSearch(first, base, Among(base, ranges, words), 0.0, topK)
        && if first == [] then hits == []
           else
             var selected := selectTerms(IdsInOrder(first));
             var q := if selected == [] then base else Augmented(base, selected, weight);
             IsSearch(hits, q, Among(q, ranges, words), minScore, limit)
    }

    ghost predicate HasSome(selected: seq<(string, string)>, d: nat) {
      exists i | 0 <= i < |selected| :: corpus.env.Matches(Term(Some(selected[i].0), selected[i].1), d)
    }

    lemma {:induction false} AllShown(hits: seq<Hit>, q: Query<real>, found: nat -> bool, minScore: real)
      requires IsSearch(hits, q, found, minScore, 0) && minScore <= 0.0
      requires NonNegativeEnv(corpus.env) && BoostsAre(q, NonNegative)
      ensures forall d: nat :: d in Ids(hits) <==> found(d)
    {
      hide Env.Score, NonNegativeEnv, BoostsAre;
      var top :| IsBest(top, q, found) && Shows(hits, top, q, found, minScore, 0);
      forall d: nat | found(d) ensures d in Ids(hits) {
        ScoreNonNegative(corpus.env, q, d);
        QuotientNonNegative(corpus.env.Score(q, d).value, top);
      }
    }

    /** What feedback finds: at no threshold and no limit, the permitted documents that the request selects
        or that have one of the terms chosen from the first pass. */
    lemma {:induction false} FeedbackFinds(p: Params, hits: seq<Hit>, first: seq<Hit>, ranges: seq<RangeFilter>, words: seq<MatchAllFilter>, topK: nat,
                                           numTerms: nat, weight: real, selectTerms: seq<nat> -> seq<(string, string)>, minScore: real)
      requires builder.E() == corpus.env && builder.BodyClauses(p).Built?
      requires TwoPass(hits, first, builder.Whole(p), ranges, words, topK, numTerms, weight, selectTerms, minScore, 0)
      requires topK > 0 && numTerms > 0 && !Lists(builder.Whole(p)) && first != [] && selectTerms(IdsInOrder(first)) != []
      requires NonNegativeScores(p) && weight >= 0.0 && minScore <= 0.0
      ensures forall d: nat :: d in Ids(hits) <==>
                Permitted(ranges, words, d) && (builder.Selected(p, d) || HasSome(selectTerms(IdsInOrder(first)), d))
    {
      hide Env.Score, Env.Matches, NonNegativeEnv, BoostsAre, IsSearch, Permitted, Builder.Selected, Builder.BodyClauses, Builder.Narrowing, Lists, HasSome, Augmented;
      var base, selected := builder.Whole(p), selectTerms(IdsInOrder(first));
      builder.WholeBoosts(p, NonNegative);
      AugmentedMatches(base, selected, weight, 0);
      AllShown(hits, Augmented(base, selected, weight), Among(Augmented(base, selected, weight), ranges, words), minScore);
      forall d: nat
        ensures d in Ids(hits) <==> Permitted(ranges, words, d) && (builder.Selected(p, d) || HasSome(selected, d))
      {
        AugmentedMatches(base, selected, weight, d);
        builder.TopMatches(p, d);
      }
    }

    /** Two passes: the best hits of the first choose the feedback terms of the second. At a zero
        threshold and no limit, every hit of plain search is a hit, and no hit evades the filters. */
    method SearchPrf(p: Params, ranges: seq<RangeFilter>, words: seq<MatchAllFilter>, topK: nat, numTerms: nat, weight: real,
                     selectTerms: seq<nat> -> seq<(string, string)>, minScore: real, limit: nat)
      returns (r: Built<seq<Hit>>, ghost first: seq<Hit>)
      requires Valid()
      ensures r.Refused? <==> builder.TooDeep(p) || BlankField(p)
      ensures r.Built? ==> Hybrid.DistinctHits(r.value) && forall d: nat | d in Ids(r.value) :: Permitted(ranges, words, d)
      ensures r.Built? ==> (limit > 0 ==> |r.value| <= limit) && forall i | 0 <= i < |r.value| :: r.value[i].score >= minScore
      ensures r.Built? && NonNegativeScores(p) && weight >= 0.0 && minScore <= 0.0 && limit == 0 ==>
                forall d: nat | Relevant(p, ranges, words, d) :: d in Ids(r.value)
      ensures r.Built? ==> builder.BodyClauses(p).Built?
      ensures r.Built? ==> TwoPass(r.value, first, builder.Whole(p), ranges, words, topK, numTerms, weight, selectTerms, minScore, limit)
    {
      hide Corpus.Lawful, Corpus.Passes, Corpus.Live, Env.Matches, Builder.Selected, Builder.TooDeep, BlankField, NonNegativeEnv, BoostsAre, Found, Permitted, Augmented, Ranks, AtLeast, Sort, Better, Hydrate, Page, IsSearch, Among, Builder.Whole, Builder.BodyClauses;
      first := [];
      var built := builder.BuildQuery(p);
      if built.Refused? {
        return Refused(built.error), first;
      }
      var base := built.value;
      var restrict := corpus.AllowList(ranges, words);
      forall d: nat, q: Query<real> ensures Found(q, restrict, d) <==> Permitted(ranges, words, d) && corpus.env.Matches(q, d) {
        FoundIsRelevant(q, restrict, ranges, words, d);
      }
      forall d: nat ensures Relevant(p, ranges, words, d) <==> Permitted(ranges, words, d) && builder.Selected(p, d) {
        PermittedIs(ranges, words, d);
      }
      var nothingToExpand := base.Boolean? && exists i | 0 <= i < |base.clauses| :: base.clauses[i].query.MatchAll?;
      if topK == 0 || numTerms == 0 || nothingToExpand {
        var hits := PlainAmong(base, restrict, ranges, words, minScore, limit);
        return Built(hits), first;
      }
      var pass1 := Plain(base, restrict, 0.0, topK);
      SearchedAmong(pass1, base, restrict, ranges, words, 0.0, topK);
      first := pass1;
      if pass1 == [] {
        return Built([]), first;
      }
      var docIds := IdsInOrder(pass1);
      var selected := selectTerms(docIds);
      if selected == [] {
        var hits := PlainAmong(base, restrict, ranges, words, minScore, limit);
        return Built(hits), first;
      }
      var augmented := Augmented(base, selected, weight);
      forall d: nat
        ensures corpus.env.Matches(base, d) ==> corpus.env.Matches(augmented, d)
        ensures BoostsAre(base, NonNegative) && weight >= 0.0 ==> BoostsAre(augmented, NonNegative)
      {
        AugmentedMatches(base, selected, weight, d);
      }
      AugmentedMatches(base, selected, weight, 0);
      var hits := PlainAmong(augmented, restrict, ranges, words, minScore, limit);
      return Built(hits), first;
    }

    // ----- hybrid search -----

    /** The candidates asked of each retriever: no limit when the pool or the final result has none, else
        the larger of the two. */
    ghost predicate IsDepth(pool: nat, depth: nat, limit: nat) {
      if depth == 0 || limit == 0 then pool == 0 else pool >= depth && pool >= limit && (pool == depth || pool == limit)
    }

    function Depth(depth: nat, limit: nat): (pool: nat)
      ensures IsDepth(pool, depth, limit)
    {
      if depth == 0 || limit == 0 then 0 else if depth >= limit then depth else limit
    }

    /** Both retrievers, fused by rank: at a zero threshold and no limit every hit of plain search is a
        hit, once, and no hit evades the filters. `lexical` and `semantic` are what the two returned. */
    method SearchHybrid(p: Params, ranges: seq<RangeFilter>, words: seq<MatchAllFilter>, topK: nat, numTerms: nat, weight: real,
                        selectTerms: seq<nat> -> seq<(string, string)>, k: nat, depth: nat, minScore: real, limit: nat)
      returns (r: Built<seq<Hit>>, ghost lexical: seq<Hit>, ghost semantic: seq<Hit>, ghost first: seq<Hit>, ghost pool: nat)
      requires Valid()
      ensures r.Refused? <==> builder.TooDeep(p) || BlankField(p)
      ensures r.Built? ==> Hybrid.DistinctHits(r.value) && forall d: nat | d in Ids(r.value) :: Permitted(ranges, words, d)
      ensures r.Built? && limit > 0 ==> |r.value| <= limit
      ensures r.Built? && NonNegativeScores(p) && minScore <= 0.0 && limit == 0 ==>
                forall d: nat | Relevant(p, ranges, words, d) :: d in Ids(r.value)
      ensures r.Built? ==> builder.BodyClauses(p).Built? && IsDepth(pool, depth, limit)
      ensures r.Built? ==>
                && IsSearch(lexical, builder.Whole(p), Among(builder.Whole(p), ranges, words), minScore, pool)
                && TwoPass(semantic, first, builder.Whole(p), ranges, words, topK, numTerms, weight, selectTerms, minScore, pool)
                && Hybrid.DistinctHits(lexical) && Hybrid.DistinctHits(semantic)
                && Hybrid.IsFusion(r.value, [lexical, semantic], if k == 0 then 1 else k, limit)
    {
      hide Corpus.Lawful, Corpus.Passes, Corpus.Live, Env.Matches, Builder.Selected, Builder.TooDeep, BlankField, NonNegativeScores, Permitted, Relevant, IsSearch, Among, TwoPass, Builder.Whole, Builder.BodyClauses, IsDepth;
      lexical, semantic, first := [], [], [];
      var wanted := Depth(depth, limit);
      pool := wanted;
      var words1 := LexicalSearch(p, ranges, words, minScore, wanted);
      if words1.Refused? {
        return Refused(words1.error), lexical, semantic, first, pool;
      }
      var words2, pass1 := SearchPrf(p, ranges, words, topK, numTerms, weight, selectTerms, minScore, wanted);
      if words2.Refused? {
        return words2, lexical, semantic, first, pool;
      }
      lexical, semantic, first := words1.value, words2.value, pass1;
      var fused := Hybrid.FuseRrf([words1.value, words2.value], if k == 0 then 1 else k, limit);
      FusedIds(lexical, semantic, if k == 0 then 1 else k, limit, fused);
      forall d: nat | d in Ids(fused) ensures Permitted(ranges, words, d) {
        if d in Ids(lexical) {
          RelevantIsPermitted(p, ranges, words, d);
        }
      }
      r := Built(fused);
    }

    lemma {:induction false} RelevantIsPermitted(p: Params, ranges: seq<RangeFilter>, words: seq<MatchAllFilter>, d: nat)
      requires Relevant(p, ranges, words, d)
      ensures Permitted(ranges, words, d)
    {
    }
  }

  /** Fusing two lists gives their union; nothing is lost without a limit. */
  lemma {:induction false} FusedIds(a: seq<Hit>, b: seq<Hit>, k: nat, limit: nat, fused: seq<Hit>)
    requires forall i | 0 <= i < |fused| :: Hybrid.First([a, b], fused[i].id).Some?
    requires limit == 0 ==> forall id: nat | Hybrid.First([a, b], id).Some? :: exists i | 0 <= i < |fused| :: fused[i].id == id
    ensures Ids(fused) <= Ids(a) + Ids(b)
    ensures limit == 0 ==> Ids(fused) == Ids(a) + Ids(b)
  {
    hide Hybrid.First;
    forall id: nat ensures Hybrid.First([a, b], id).Some? <==> id in Ids(a) + Ids(b) {
      Hybrid.FirstOfTwo(a, b, id);
    }
  }
}
