/** Query trees and their evaluation. `Score` says what a query means for one document; the evaluator
    narrows candidate sets and takes clauses out of order, and must agree with it everywhere. */
module Queries {
  import opened Wrappers
  import opened Scoring

  datatype Occur = Should | Must | MustNot

  datatype Clause<S> = Clause(occur: Occur, query: Query<S>)

  datatype Query<S> =
    | Term(field: Option<string>, text: string)
    | AccentTerm(field: Option<string>, text: string)
    | Wildcard(field: Option<string>, pattern: string, minPrefixLen: nat, accentInsensitive: bool)
    | Fuzzy(field: Option<string>, text: string, similarity: S, prefixLen: nat, accentInsensitive: bool)
    | Phrase(field: Option<string>, terms: seq<string>, accentInsensitive: bool)
    | Boolean(clauses: seq<Clause<S>>)
    | Boosted(boost: S, inner: Query<S>)
    | MatchAll
  {
    predicate Leaf() {
      !Boolean? && !Boosted? && !MatchAll?
    }
  }

  /** Every score multiplier written in the query is acceptable. */
  ghost predicate BoostsAre<S>(q: Query<S>, ok: S -> bool)
    decreases q
  {
    match q
    case Boolean(clauses) => forall i | 0 <= i < |clauses| :: BoostsAre(clauses[i].query, ok)
    case Boosted(boost, inner) => ok(boost) && BoostsAre(inner, ok)
    case _ => true
  }

  function Somes<S>(rs: seq<Option<S>>): seq<S> {
    if rs == [] then []
    else Somes(rs[..|rs| - 1]) + (if rs[|rs| - 1].Some? then [rs[|rs| - 1].value] else [])
  }

  lemma {:induction false} SomesMore<S>(rs: seq<Option<S>>, r: Option<S>)
    ensures Somes(rs + [r]) == if r.Some? then Somes(rs) + [r.value] else Somes(rs)
  {
    assert (rs + [r])[..|rs|] == rs;
    assert Somes(rs) + [] == Somes(rs);
  }

  predicate AllSome<S>(rs: seq<Option<S>>) {
    forall i | 0 <= i < |rs| :: rs[i].Some?
  }

  lemma {:induction false} EachSome<S>(rs: seq<Option<S>>)
    requires AllSome(rs)
    ensures forall i | 0 <= i < |rs| :: rs[i].Some?
  {
  }

  predicate NoneSome<S>(rs: seq<Option<S>>) {
    forall i | 0 <= i < |rs| :: rs[i].None?
  }

  lemma {:induction false} NoneSomeMore<S>(rs: seq<Option<S>>, r: Option<S>)
    ensures NoneSome(rs + [r]) <==> NoneSome(rs) && r.None?
  {
    assert (rs + [r])[|rs|] == r;
    assert forall i | 0 <= i < |rs| :: (rs + [r])[i] == rs[i];
  }

  lemma {:induction false} AllSomeMore<S>(rs: seq<Option<S>>, r: Option<S>)
    ensures AllSome(rs + [r]) <==> AllSome(rs) && r.Some?
  {
    assert (rs + [r])[|rs|] == r;
    assert forall i | 0 <= i < |rs| :: (rs + [r])[i] == rs[i];
  }

  /** The results of the clauses with a given sign, in declared order. */
  function Signed<S>(clauses: seq<Clause<S>>, rs: seq<Option<S>>, o: Occur): seq<Option<S>>
    requires |rs| == |clauses|
  {
    if clauses == [] then []
    else
      var n := |clauses| - 1;
      Signed(clauses[..n], rs[..n], o) + (if clauses[n].occur == o then [rs[n]] else [])
  }

  function Concat<T>(xss: seq<seq<T>>): seq<T> {
    if xss == [] then [] else Concat(xss[..|xss| - 1]) + xss[|xss| - 1]
  }

  lemma {:induction false} BoundedPlaces(at: seq<nat>, bound: nat)
    requires forall i | 0 <= i < |at| :: at[i] < bound
    ensures bound == 0 ==> at == []
  {
    if at != [] {
      assert at[0] < bound;
    }
  }

  lemma {:induction false} LastIsLargest(at: seq<nat>, i: nat)
    requires i < |at| && forall j, k | 0 <= j < k < |at| :: at[j] < at[k]
    ensures at[i] <= at[|at| - 1]
  {
    if i < |at| - 1 {
      assert at[i] < at[|at| - 1];
    }
  }

  lemma {:induction false} OneShare<T>(xs: seq<T>)
    ensures Concat([xs]) == xs
  {
    assert Concat<T>([]) == [] && [] + xs == xs;
  }

  /** A document hit once has that one value. */
  lemma {:induction false} OnlyValue<S>(hits: seq<(nat, S)>, k: nat)
    requires k < |hits| && forall i | 0 <= i < |hits| && i != k :: hits[i].0 != hits[k].0
    ensures Values(hits, hits[k].0) == [hits[k].1]
  {
    var n := |hits| - 1;
    if k < n {
      OnlyValue(hits[..n], k);
    } else {
      NoValue(hits[..n], hits[k].0);
    }
  }

  lemma {:induction false} NoValue<S>(hits: seq<(nat, S)>, d: nat)
    requires forall i | 0 <= i < |hits| :: hits[i].0 != d
    ensures Values(hits, d) == []
  {
    if hits != [] {
      NoValue(hits[..|hits| - 1], d);
    }
  }

  /** All clauses with sign `o` matched, or all missed. */
  predicate Each<S>(clauses: seq<Clause<S>>, rs: seq<Option<S>>, o: Occur, some: bool)
    requires |rs| == |clauses|
  {
    forall i | 0 <= i < |clauses| && clauses[i].occur == o :: rs[i].Some? == some
  }

  lemma {:induction false} EachMore<S>(clauses: seq<Clause<S>>, rs: seq<Option<S>>, o: Occur, some: bool)
    requires |rs| == |clauses| > 0
    ensures var n := |clauses| - 1;
            Each(clauses, rs, o, some) <==> Each(clauses[..n], rs[..n], o, some) && (clauses[n].occur == o ==> rs[n].Some? == some)
  {
    var n := |clauses| - 1;
    assert forall i | 0 <= i < n :: clauses[..n][i] == clauses[i] && rs[..n][i] == rs[i];
  }

  lemma {:induction false} SignedResults<S>(clauses: seq<Clause<S>>, rs: seq<Option<S>>, o: Occur)
    requires |rs| == |clauses|
    ensures var signed := Signed(clauses, rs, o);
            && (signed == [] <==> forall i | 0 <= i < |clauses| :: clauses[i].occur != o)
            && (AllSome(signed) <==> Each(clauses, rs, o, true)) && (NoneSome(signed) <==> Each(clauses, rs, o, false))
            && (Somes(signed) == [] <==> NoneSome(signed))
  {
    hide Each, AllSome, NoneSome, Somes;
    if clauses == [] {
      NoResults<S>();
      assert Each(clauses, rs, o, true) && Each(clauses, rs, o, false) by {
        EachOfNone(clauses, rs, o);
      }
    } else {
      var n := |clauses| - 1;
      var before := Signed(clauses[..n], rs[..n], o);
      SignedResults(clauses[..n], rs[..n], o);
      EachMore(clauses, rs, o, true);
      EachMore(clauses, rs, o, false);
      if clauses[n].occur == o {
        NoneSomeMore(before, rs[n]);
        AllSomeMore(before, rs[n]);
        SomesMore(before, rs[n]);
      } else {
        assert before + [] == before;
        assert forall i | 0 <= i < n :: clauses[..n][i] == clauses[i];
      }
    }
  }

  lemma {:induction false} NoResults<S>()
    ensures AllSome<S>([]) && NoneSome<S>([]) && Somes<S>([]) == []
  {
  }

  lemma {:induction false} EachOfNone<S>(clauses: seq<Clause<S>>, rs: seq<Option<S>>, o: Occur)
    requires clauses == [] && rs == []
    ensures Each(clauses, rs, o, true) && Each(clauses, rs, o, false)
  {
  }

  /** The queries of the clauses with a given sign, in declared order. */
  function Pick<S>(clauses: seq<Clause<S>>, o: Occur): (qs: seq<Query<S>>)
    ensures forall i | 0 <= i < |qs| :: exists j | 0 <= j < |clauses| :: qs[i] == clauses[j].query
  {
    if clauses == [] then []
    else
      var n := |clauses| - 1;
      assert forall j | 0 <= j < n :: clauses[..n][j] == clauses[j];
      Pick(clauses[..n], o) + (if clauses[n].occur == o then [clauses[n].query] else [])
  }

  /** Score so far and number of clauses matched. */
  datatype Tally<S> = Tally(score: S, matched: nat)

  datatype Env<!S(!new)> = Env(ar: Arith<S>, index: Reader<S>, weights: map<string, S>) {

    function Sc(): Scorer<S> {
      Scorer(ar, index)
    }

    function TargetFields(field: Option<string>): seq<string> {
      match field
      case Some(f) => [f]
      case None => index.indexedFields
    }

    function FieldWeight(field: string): S {
      if field in weights then weights[field] else ar.one
    }

    // ----- meaning -----

    function Listed(o: Option<S>): seq<S> {
      if o.Some? then [o.value] else []
    }

    /** What a leaf contributes to document `d` from one field. */
    ghost function FieldValues(q: Query<S>, field: string, d: nat): seq<S>
      requires q.Leaf()
    {
      match q
      case Term(_, text) => Sc().TermValues(field, text, d)
      case AccentTerm(_, text) => Listed(ar.AddAll(None, Sc().UnionValues(field, index.accentTerms(field, text), d)))
      case Wildcard(_, pattern, minLen, accents) =>
        Listed(ar.AddAll(None, Sc().UnionValues(field, index.wildcardTerms(field, pattern, minLen, accents), d)))
      case Fuzzy(_, text, similarity, prefixLen, accents) =>
        Listed(ar.AddAll(None, Sc().FuzzyValues(field, index.fuzzyTerms(field, text, similarity, prefixLen, accents), d)))
      case Phrase(_, terms, accents) => Listed(Sc().PhraseScore(field, terms, accents, d))
    }

    /** The same over several fields, each weighted. */
    ghost function LeafValues(q: Query<S>, fields: seq<string>, d: nat): seq<S>
      requires q.Leaf()
    {
      if fields == [] then []
      else
        var f := fields[|fields| - 1];
        LeafValues(q, fields[..|fields| - 1], d) + ar.Scaled(FieldValues(q, f, d), FieldWeight(f))
    }

    /** Score and number of matching clauses, before exclusion and coordination: all musts and the
        matching shoulds, or without musts at least one should. */
    function Matching(musts: seq<Option<S>>, shoulds: seq<Option<S>>): Option<Tally<S>> {
      if musts == [] then
        if Somes(shoulds) == [] then None else Some(Tally(ar.Fold(ar.zero, Somes(shoulds)), |Somes(shoulds)|))
      else if AllSome(musts) then
        Some(Tally(ar.Fold(ar.Fold(ar.emptySum, Somes(musts)), Somes(shoulds)), |musts| + |Somes(shoulds)|))
      else None
    }

    function Coord(t: Tally<S>, clauses: nat): S {
      ar.mul(t.score, ar.ratio(t.matched, if clauses == 0 then 1 else clauses))
    }

    function Combine(musts: seq<Option<S>>, shoulds: seq<Option<S>>, mustNots: seq<Option<S>>): Option<S> {
      if !NoneSome(mustNots) then None
      else
        match Matching(musts, shoulds)
        case None => None
        case Some(t) => Some(Coord(t, |musts| + |shoulds|))
    }

    /** The naive evaluator: every clause on its own, unrestricted, then the boolean rule. */
    ghost function Score(q: Query<S>, d: nat): Option<S>
      decreases q
    {
      match q
      case Boolean(clauses) =>
        var rs := seq(|clauses|, i requires 0 <= i < |clauses| => Score(clauses[i].query, d));
        Combine(Signed(clauses, rs, Must), Signed(clauses, rs, Should), Signed(clauses, rs, MustNot))
      case Boosted(boost, inner) =>
        var s := Score(inner, d);
        if s.Some? then Some(ar.mul(s.value, boost)) else None
      case MatchAll => if Sc().Live(d) then Some(ar.one) else None
      case _ => ar.AddAll(None, LeafValues(q, TargetFields(q.field), d))
    }

    ghost predicate Evaluates(r: map<nat, S>, q: Query<S>, restrict: Option<set<nat>>) {
      forall d: nat :: Get(r, d) == if Allows(restrict, d) then Score(q, d) else None
    }

    // ----- evaluation -----

    /** On every query and every restriction: exactly the allowed documents of the unrestricted
        meaning, each with the identical score. */
    method Eval(q: Query<S>, restrict: Option<set<nat>>) returns (r: map<nat, S>)
      ensures Evaluates(r, q, restrict)
      decreases q, 1
    {
      hide Arith.AddAll;
      match q {
        case Boolean(clauses) =>
          r := EvalBoolean(q, restrict);
        case Boosted(boost, inner) =>
          var acc := Eval(inner, restrict);
          r := map d | d in acc :: ar.mul(acc[d], boost);
          forall d: nat ensures Get(r, d) == if Allows(restrict, d) then Score(q, d) else None {
            assert Get(acc, d) == if Allows(restrict, d) then Score(inner, d) else None;
          }
        case MatchAll =>
          match restrict {
            case Some(allowed) =>
              r := map d: nat | d in allowed && Sc().Live(d) :: ar.one;
            case None =>
              r := map d: nat | 0 <= d < index.totalDocs && Sc().Live(d) :: ar.one;
          }
        case _ =>
          r := EvalLeaf(q, restrict);
      }
    }

    /** A leaf: its target fields in turn, each weighted. */
    method EvalLeaf(q: Query<S>, restrict: Option<set<nat>>) returns (acc: map<nat, S>)
      requires q.Leaf()
      ensures Evaluates(acc, q, restrict)
    {
      hide FieldValues, Arith.AddAll, LeafValues;
      acc := map[];
      var fields := TargetFields(q.field);
      Sc().NothingAdded();
      NoFields(q);
      assert fields[..0] == [];
      for i := 0 to |fields|
        invariant forall d: nat :: Get(acc, d) == if Allows(restrict, d) then ar.AddAll(None, LeafValues(q, fields[..i], d)) else None
      {
        acc := EvalField(acc, q, fields[i], restrict);
        forall d: nat ensures Get(acc, d) == if Allows(restrict, d) then ar.AddAll(None, LeafValues(q, fields[..i + 1], d)) else None {
          assert fields[..i + 1] == fields[..i] + [fields[i]];
          OneFieldMore(q, fields[..i], fields[i], d);
          ar.AddMore(None, LeafValues(q, fields[..i], d), ar.Scaled(FieldValues(q, fields[i], d), FieldWeight(fields[i])));
        }
      }
      assert fields[..|fields|] == fields;
      LeafScores(q);
    }

    lemma {:induction false} LeafScores(q: Query<S>)
      requires q.Leaf()
      ensures forall d :: Score(q, d) == ar.AddAll(None, LeafValues(q, TargetFields(q.field), d))
    {
    }

    lemma {:induction false} NoFields(q: Query<S>)
      requires q.Leaf()
      ensures forall d :: LeafValues(q, [], d) == []
    {
    }

    lemma {:induction false} OneFieldMore(q: Query<S>, fields: seq<string>, f: string, d: nat)
      requires q.Leaf()
      ensures LeafValues(q, fields + [f], d) == LeafValues(q, fields, d) + ar.Scaled(FieldValues(q, f, d), FieldWeight(f))
    {
      assert (fields + [f])[..|fields|] == fields;
    }

    method EvalField(acc: map<nat, S>, q: Query<S>, f: string, restrict: Option<set<nat>>) returns (r: map<nat, S>)
      requires q.Leaf()
      ensures forall d: nat :: Get(r, d)
                            == if Allows(restrict, d) then ar.AddAll(Get(acc, d), ar.Scaled(FieldValues(q, f, d), FieldWeight(f))) else Get(acc, d)
    {
      hide Arith.AddAll, Scorer.UnionValues, Scorer.FuzzyValues, Scorer.PhraseScore, Scorer.Hits;
      var w := FieldWeight(f);
      Sc().NothingAdded();
      if q.Term? {
        r := Sc().Accumulate(acc, Sc().TermScores(f, q.text, restrict), w);
        forall d: nat ensures Get(r, d)
                           == if Allows(restrict, d) then ar.AddAll(Get(acc, d), ar.Scaled(FieldValues(q, f, d), w)) else Get(acc, d) {
          ValuesKept(Sc().Hits(f, q.text), restrict, d);
          assert ar.Scaled([], w) == [];
        }
        return;
      }
      var scored: map<nat, S>;
      match q {
        case AccentTerm(_, text) =>
          scored := Sc().UnionScores(f, index.accentTerms(f, text), restrict);
        case Wildcard(_, pattern, minLen, accents) =>
          scored := Sc().UnionScores(f, index.wildcardTerms(f, pattern, minLen, accents), restrict);
        case Fuzzy(_, text, similarity, prefixLen, accents) =>
          scored := Sc().FuzzyScores(f, index.fuzzyTerms(f, text, similarity, prefixLen, accents), restrict);
        case Phrase(_, terms, accents) =>
          scored := Sc().PhraseScores(f, terms, accents, restrict);
      }
      assert forall d: nat :: Listed(Get(scored, d)) == if Allows(restrict, d) then FieldValues(q, f, d) else [];
      r := Sc().AccumulateMap(acc, scored, w);
      forall d: nat ensures Get(r, d)
                         == if Allows(restrict, d) then ar.AddAll(Get(acc, d), ar.Scaled(FieldValues(q, f, d), w)) else Get(acc, d) {
        assert ar.Scaled([], w) == [];
        assert d in scored ==> ar.Scaled([scored[d]], w) == [ar.mul(scored[d], w)];
      }
    }

    // ----- the boolean node -----

    ghost function Scores(qs: seq<Query<S>>, d: nat): (rs: seq<Option<S>>)
      ensures |rs| == |qs| && forall i | 0 <= i < |qs| :: rs[i] == Score(qs[i], d)
    {
      seq(|qs|, i requires 0 <= i < |qs| => Score(qs[i], d))
    }

    lemma {:induction false} SignedArePicked(clauses: seq<Clause<S>>, rs: seq<Option<S>>, o: Occur, d: nat)
      requires |rs| == |clauses| && forall i | 0 <= i < |clauses| :: rs[i] == Score(clauses[i].query, d)
      ensures Signed(clauses, rs, o) == Scores(Pick(clauses, o), d)
    {
      hide Score;
      if clauses != [] {
        var n := |clauses| - 1;
        SignedArePicked(clauses[..n], rs[..n], o, d);
      }
    }

    lemma {:induction false} BooleanScore(q: Query<S>, d: nat)
      requires q.Boolean?
      ensures Score(q, d) == Combine(Scores(Pick(q.clauses, Must), d), Scores(Pick(q.clauses, Should), d), Scores(Pick(q.clauses, MustNot), d))
    {
      hide Combine;
      var rs := seq(|q.clauses|, i requires 0 <= i < |q.clauses| => Score(q.clauses[i].query, d));
      SignedArePicked(q.clauses, rs, Must, d);
      SignedArePicked(q.clauses, rs, Should, d);
      SignedArePicked(q.clauses, rs, MustNot, d);
    }

    /** The two maps hold, for each allowed document, its tally over these musts and shoulds. */
    ghost predicate Tallied(score: map<nat, S>, matched: map<nat, nat>, restrict: Option<set<nat>>, musts: seq<Query<S>>, shoulds: seq<Query<S>>) {
      forall d: nat ::
        Both(Get(score, d), Get(matched, d)) == (if Allows(restrict, d) then Matching(Scores(musts, d), Scores(shoulds, d)) else None)
        && (d in score <==> d in matched)
    }

    function Both(s: Option<S>, n: Option<nat>): Option<Tally<S>> {
      if s.Some? && n.Some? then Some(Tally(s.value, n.value)) else None
    }

    /** One matching should more. Without musts it lets the document in. */
    function Raised(t: Option<Tally<S>>, r: Option<S>, open: bool): Option<Tally<S>> {
      if r.None? || (t.None? && !open) then t
      else if t.None? then Some(Tally(ar.add(ar.zero, r.value), 1))
      else Some(Tally(ar.add(t.value.score, r.value), t.value.matched + 1))
    }

    lemma {:induction false} OneShouldMore(musts: seq<Option<S>>, shoulds: seq<Option<S>>, r: Option<S>)
      ensures Matching(musts, shoulds + [r]) == Raised(Matching(musts, shoulds), r, musts == [])
    {
      hide AllSome, Somes, Arith.Fold;
      SomesMore(shoulds, r);
      if r.Some? {
        FoldMore(ar.zero, Somes(shoulds), r.value);
        FoldMore(ar.Fold(ar.emptySum, Somes(musts)), Somes(shoulds), r.value);
        FoldMore(ar.zero, [], r.value);
        NothingFolded(ar.zero);
      }
    }

    lemma {:induction false} FoldMore(start: S, xs: seq<S>, x: S)
      ensures ar.Fold(start, xs + [x]) == ar.add(ar.Fold(start, xs), x)
    {
      assert (xs + [x])[..|xs|] == xs;
    }

    lemma {:induction false} NothingFolded(start: S)
      ensures ar.Fold(start, []) == start
    {
    }

    /** A should clause's scores: they add to the documents already held, and without musts let new ones in. */
    method AddClause(score: map<nat, S>, matched: map<nat, nat>, m: map<nat, S>, open: bool)
      returns (score': map<nat, S>, matched': map<nat, nat>)
      requires forall d :: d in score <==> d in matched
      ensures forall d: nat :: Both(Get(score', d), Get(matched', d)) == Raised(Both(Get(score, d), Get(matched, d)), Get(m, d), open)
      ensures forall d :: d in score' <==> d in matched'
    {
      score', matched' := score, matched;
      var left := m.Keys;
      while left != {}
        invariant left <= m.Keys
        invariant forall d :: d in score' <==> d in matched'
        invariant forall d: nat :: Both(Get(score', d), Get(matched', d))
                                == if d in left then Both(Get(score, d), Get(matched, d)) else Raised(Both(Get(score, d), Get(matched, d)), Get(m, d), open)
        decreases |left|
      {
        var d :| d in left;
        ghost var score0, matched0 := score', matched';
        if open || d in score' {
          score' := score'[d := ar.add(if d in score' then score'[d] else ar.zero, m[d])];
          matched' := matched'[d := (if d in matched' then matched'[d] else 0) + 1];
        }
        assert forall e: nat | e != d :: Get(score', e) == Get(score0, e) && Get(matched', e) == Get(matched0, e);
        left := left - {d};
      }
    }

    lemma {:induction false} PickedSmaller(q: Query<S>, o: Occur, i: nat)
      requires q.Boolean? && i < |Pick(q.clauses, o)|
      ensures q decreases to Pick(q.clauses, o)[i]
    {
      var qs := Pick(q.clauses, o);
      var j :| 0 <= j < |q.clauses| && qs[i] == q.clauses[j].query;
    }

    method EvalBoolean(q: Query<S>, restrict: Option<set<nat>>) returns (r: map<nat, S>)
      requires q.Boolean?
      ensures Evaluates(r, q, restrict)
      decreases q, 0
    {
      hide Score, Matching, Pick, Raised, Combine, NoneSome, AllSome, Signed;
      var musts, shoulds, mustNots := Pick(q.clauses, Must), Pick(q.clauses, Should), Pick(q.clauses, MustNot);
      var score: map<nat, S>, matched: map<nat, nat> := map[], map[];
      var within := restrict;
      if musts == [] {
        NoClauses(restrict);
      } else {
        var cand, maps := EvalMusts(q, musts, restrict);
        score, matched := Sums(maps, cand, musts, restrict);
        within := Some(cand);
      }
      assert shoulds[..0] == [];
      for k := 0 to |shoulds|
        invariant Tallied(score, matched, restrict, musts, shoulds[..k])
        invariant musts == [] ==> within == restrict
        invariant musts != [] ==> within.Some? && forall d :: d in within.value <==> Allows(restrict, d) && AllSome(Scores(musts, d))
      {
        PickedSmaller(q, Should, k);
        var m := Eval(shoulds[k], within);
        ghost var score0, matched0 := score, matched;
        score, matched := AddClause(score, matched, m, musts == []);
        ShouldAdded(score0, matched0, score, matched, m, within, restrict, musts, shoulds[..k], shoulds[k]);
        assert shoulds[..k + 1] == shoulds[..k] + [shoulds[k]];
      }
      assert shoulds[..|shoulds|] == shoulds;
      ghost var score1, matched1 := score, matched;
      score, matched := Exclude(q, score, matched, mustNots);
      var total := if |musts| + |shoulds| == 0 then 1 else |musts| + |shoulds|;
      r := map d | d in score :: ar.mul(score[d], ar.ratio(if d in matched then matched[d] else 0, total));
      forall d: nat ensures Get(r, d) == if Allows(restrict, d) then Score(q, d) else None {
        Concluded(q, restrict, score1, matched1, d);
      }
    }

    /** The boolean's score at one document, from its tally there. */
    lemma {:induction false} Concluded(q: Query<S>, restrict: Option<set<nat>>, score: map<nat, S>, matched: map<nat, nat>, d: nat)
      requires q.Boolean? && Tallied(score, matched, restrict, Pick(q.clauses, Must), Pick(q.clauses, Should))
      ensures var clauses := |Pick(q.clauses, Must)| + |Pick(q.clauses, Should)|;
              (if Allows(restrict, d) then Score(q, d) else None) ==
                if NoneSome(Scores(Pick(q.clauses, MustNot), d)) && d in score && d in matched
                then Some(ar.mul(score[d], ar.ratio(matched[d], if clauses == 0 then 1 else clauses))) else None
    {
      hide Score, Matching, Pick, Combine, NoneSome;
      BooleanScore(q, d);
      var ms, ss, ns := Scores(Pick(q.clauses, Must), d), Scores(Pick(q.clauses, Should), d), Scores(Pick(q.clauses, MustNot), d);
      assert Both(Get(score, d), Get(matched, d)) == if Allows(restrict, d) then Matching(ms, ss) else None;
      if Allows(restrict, d) {
        Combined(ms, ss, ns, Get(score, d), Get(matched, d));
      }
    }

    /** What is left of a tally after exclusion and coordination. */
    lemma {:induction false} Combined(musts: seq<Option<S>>, shoulds: seq<Option<S>>, mustNots: seq<Option<S>>, s: Option<S>, n: Option<nat>)
      requires Both(s, n) == Matching(musts, shoulds) && (s.Some? <==> n.Some?)
      ensures var total := if |musts| + |shoulds| == 0 then 1 else |musts| + |shoulds|;
              Combine(musts, shoulds, mustNots) ==
                if NoneSome(mustNots) && s.Some? then Some(ar.mul(s.value, ar.ratio(n.value, total))) else None
    {
      hide Matching, NoneSome;
    }

    lemma {:induction false} NoClauses(restrict: Option<set<nat>>)
      ensures Tallied(map[], map[], restrict, [], [])
    {
      forall d: nat ensures Matching(Scores([], d), Scores([], d)).None? {
        assert Scores([], d) == [];
      }
    }

    lemma {:induction false} ShouldAdded(score: map<nat, S>, matched: map<nat, nat>, score': map<nat, S>, matched': map<nat, nat>, m: map<nat, S>,
                                         within: Option<set<nat>>, restrict: Option<set<nat>>, musts: seq<Query<S>>, shoulds: seq<Query<S>>, q: Query<S>)
      requires Tallied(score, matched, restrict, musts, shoulds) && Evaluates(m, q, within)
      requires musts == [] ==> within == restrict
      requires musts != [] ==> within.Some? && forall d :: d in within.value <==> Allows(restrict, d) && AllSome(Scores(musts, d))
      requires forall d: nat :: Both(Get(score', d), Get(matched', d)) == Raised(Both(Get(score, d), Get(matched, d)), Get(m, d), musts == [])
      requires forall d :: d in score' <==> d in matched'
      ensures Tallied(score', matched', restrict, musts, shoulds + [q])
    {
      hide Score, AllSome;
      forall d: nat
        ensures Both(Get(score', d), Get(matched', d))
             == if Allows(restrict, d) then Matching(Scores(musts, d), Scores(shoulds + [q], d)) else None
      {
        assert Scores(shoulds + [q], d) == Scores(shoulds, d) + [Score(q, d)];
        OneShouldMore(Scores(musts, d), Scores(shoulds, d), Score(q, d));
      }
    }

    /** Evaluates the musts over a shrinking candidate set, the first of them last. */
    method EvalMusts(q: Query<S>, musts: seq<Query<S>>, restrict: Option<set<nat>>) returns (cand: set<nat>, maps: seq<map<nat, S>>)
      requires q.Boolean? && musts == Pick(q.clauses, Must) != []
      ensures forall d :: d in cand <==> Allows(restrict, d) && AllSome(Scores(musts, d))
      ensures |maps| == |musts| && forall i, d | 0 <= i < |musts| && d in cand :: Get(maps[i], d) == Score(musts[i], d)
      decreases q, 0, 0
    {
      hide Score, Pick;
      var n := |musts|;
      maps := seq(n, _ => map[]);
      var within := restrict;
      for k := 0 to n
        invariant |maps| == n && (k > 0 ==> within.Some?)
        invariant forall d :: Allows(within, d) <==> Allows(restrict, d) && forall i | 0 <= i < n && Done(i, k, n) :: Score(musts[i], d).Some?
        invariant forall i, d | 0 <= i < n && Done(i, k, n) && Allows(within, d) :: Get(maps[i], d) == Score(musts[i], d)
      {
        var i := if k < n - 1 then k + 1 else 0;
        PickedSmaller(q, Must, i);
        var m := Eval(musts[i], within);
        var keys := m.Keys;
        match within {
          case Some(prev) => keys := IntersectInPlace(prev, keys);
          case None =>
        }
        assert forall d :: d in keys <==> Allows(within, d) && Score(musts[i], d).Some? by {
          assert forall d: nat :: d in m <==> Get(m, d).Some?;
        }
        assert forall j | 0 <= j < n :: Done(j, k + 1, n) <==> Done(j, k, n) || j == i;
        within := Some(keys);
        maps := maps[i := m];
      }
      cand := within.value;
    }

    /** Clauses evaluated after `k` rounds: from the second on, and the first only in the last round. */
    predicate Done(i: nat, k: nat, n: nat) {
      if i == 0 then k == n else i <= k
    }

    /** Sums each candidate's must scores in declared order, whatever order they were evaluated in. */
    method Sums(maps: seq<map<nat, S>>, cand: set<nat>, ghost musts: seq<Query<S>>, ghost restrict: Option<set<nat>>)
      returns (score: map<nat, S>, matched: map<nat, nat>)
      requires |maps| == |musts| > 0 && forall i, d | 0 <= i < |musts| && d in cand :: Get(maps[i], d) == Score(musts[i], d)
      requires forall d :: d in cand <==> Allows(restrict, d) && AllSome(Scores(musts, d))
      ensures Tallied(score, matched, restrict, musts, [])
    {
      hide Score, Matching, AllSome, Arith.Fold;
      score := map d | d in cand :: ar.Fold(ar.emptySum, ClauseValues(maps, d));
      matched := map d | d in cand :: |maps|;
      forall d: nat
        ensures Both(Get(score, d), Get(matched, d)) == if Allows(restrict, d) then Matching(Scores(musts, d), Scores([], d)) else None
      {
        if d in cand {
          EachSome(Scores(musts, d));
          forall i | 0 <= i < |musts| ensures Scores(musts, d)[i] == Some(ClauseValues(maps, d)[i]) {
            assert Get(maps[i], d) == Score(musts[i], d);
          }
          MustsMatch(Scores(musts, d), ClauseValues(maps, d));
        } else if Allows(restrict, d) {
          MustsMiss(Scores(musts, d));
        }
      }
    }

    function ClauseValues(maps: seq<map<nat, S>>, d: nat): seq<S> {
      seq(|maps|, i requires 0 <= i < |maps| => if d in maps[i] then maps[i][d] else ar.zero)
    }

    lemma {:induction false} MustsMatch(musts: seq<Option<S>>, xs: seq<S>)
      requires |musts| == |xs| > 0 && forall i | 0 <= i < |xs| :: musts[i] == Some(xs[i])
      ensures Matching(musts, []) == Some(Tally(ar.Fold(ar.emptySum, xs), |xs|))
    {
      hide Arith.Fold;
      SomesOf(musts, xs);
      NothingFolded(ar.Fold(ar.emptySum, xs));
    }

    lemma {:induction false} MustsMiss(musts: seq<Option<S>>)
      requires musts != [] && !AllSome(musts)
      ensures Matching(musts, []).None?
    {
    }

    lemma {:induction false} SomesOf(rs: seq<Option<S>>, xs: seq<S>)
      requires |rs| == |xs| && forall i | 0 <= i < |xs| :: rs[i] == Some(xs[i])
      ensures Somes(rs) == xs && AllSome(rs)
    {
      if rs != [] {
        SomesOf(rs[..|rs| - 1], xs[..|xs| - 1]);
      }
    }

    /** Must-nots are evaluated only over the documents held, and not at all when there are none. */
    method Exclude(q: Query<S>, score: map<nat, S>, matched: map<nat, nat>, mustNots: seq<Query<S>>)
      returns (score': map<nat, S>, matched': map<nat, nat>)
      requires q.Boolean? && mustNots == Pick(q.clauses, MustNot)
      requires forall d :: d in score <==> d in matched
      ensures forall d: nat :: Get(score', d) == if NoneSome(Scores(mustNots, d)) then Get(score, d) else None
      ensures forall d: nat :: Get(matched', d) == if NoneSome(Scores(mustNots, d)) then Get(matched, d) else None
      decreases q, 0, 0
    {
      hide Score, Pick, NoneSome;
      score', matched' := score, matched;
      if score == map[] {
        return;
      }
      var held := score.Keys;
      NoneExcluded();
      assert mustNots[..0] == [];
      for k := 0 to |mustNots|
        invariant forall d: nat :: Get(score', d) == if NoneSome(Scores(mustNots[..k], d)) then Get(score, d) else None
        invariant forall d: nat :: Get(matched', d) == if NoneSome(Scores(mustNots[..k], d)) then Get(matched, d) else None
      {
        PickedSmaller(q, MustNot, k);
        var m := Eval(mustNots[k], Some(held));
        OneExclusionMore(mustNots[..k], mustNots[k], m, held);
        assert mustNots[..k + 1] == mustNots[..k] + [mustNots[k]];
        ghost var score0, matched0 := score', matched';
        score', matched' := score' - m.Keys, matched' - m.Keys;
        forall d: nat
          ensures Get(score', d) == if NoneSome(Scores(mustNots[..k + 1], d)) then Get(score, d) else None
          ensures Get(matched', d) == if NoneSome(Scores(mustNots[..k + 1], d)) then Get(matched, d) else None
        {
          assert Get(score0, d) == if NoneSome(Scores(mustNots[..k], d)) then Get(score, d) else None;
          assert Get(matched0, d) == if NoneSome(Scores(mustNots[..k], d)) then Get(matched, d) else None;
        }
      }
      assert mustNots[..|mustNots|] == mustNots;
    }

    lemma {:induction false} NoneExcluded()
      ensures forall d: nat :: NoneSome(Scores([], d))
    {
    }

    lemma {:induction false} OneExclusionMore(qs: seq<Query<S>>, q: Query<S>, m: map<nat, S>, held: set<nat>)
      requires Evaluates(m, q, Some(held))
      ensures forall d: nat | d in held :: NoneSome(Scores(qs + [q], d)) <==> NoneSome(Scores(qs, d)) && d !in m
    {
      hide Score;
      forall d: nat | d in held ensures NoneSome(Scores(qs + [q], d)) <==> NoneSome(Scores(qs, d)) && d !in m {
        assert Get(m, d) == Score(q, d);
        assert Scores(qs + [q], d) == Scores(qs, d) + [Score(q, d)];
        NoneSomeMore(Scores(qs, d), Score(q, d));
      }
    }

    // ----- consequences -----

    ghost predicate Matches(q: Query<S>, d: nat) {
      Score(q, d).Some?
    }

    /** A boost changes the score, never the matches. */
    lemma {:induction false} BoostedMatches(boost: S, inner: Query<S>, d: nat)
      ensures Matches(Boosted(boost, inner), d) <==> Matches(inner, d)
      ensures Matches(inner, d) ==> Score(Boosted(boost, inner), d) == Some(ar.mul(Worth(inner, d), boost))
    {
    }

    /** Restricting filters the result and changes no score. */
    lemma {:induction false} RestrictionFilters(q: Query<S>, full: map<nat, S>, r: map<nat, S>, allowed: set<nat>)
      requires Evaluates(full, q, None) && Evaluates(r, q, Some(allowed))
      ensures r == map d | d in full && d in allowed :: full[d]
    {
      hide Score;
      forall d: nat ensures (d in r <==> d in full && d in allowed) && (d in r ==> r[d] == full[d]) {
        assert Get(r, d) == if d in allowed then Get(full, d) else None;
      }
    }

    /** The documents of a boolean node: in every must, or without musts in some should, and in no must-not. */
    lemma {:induction false} BooleanMatches(clauses: seq<Clause<S>>, d: nat)
      ensures Matches(Boolean(clauses), d) <==>
              && (forall i | 0 <= i < |clauses| && clauses[i].occur.MustNot? :: !Matches(clauses[i].query, d))
              && (if exists i | 0 <= i < |clauses| :: clauses[i].occur.Must?
                  then forall i | 0 <= i < |clauses| && clauses[i].occur.Must? :: Matches(clauses[i].query, d)
                  else exists i | 0 <= i < |clauses| && clauses[i].occur.Should? :: Matches(clauses[i].query, d))
    {
      hide Score, Signed, NoneSome, AllSome, Somes;
      var q := Boolean(clauses);
      var rs := seq(|clauses|, i requires 0 <= i < |clauses| => Score(clauses[i].query, d));
      Unfolded(clauses, rs, d);
      SignedResults(clauses, rs, Must);
      SignedResults(clauses, rs, Should);
      SignedResults(clauses, rs, MustNot);
    }

    /** A leaf in one field: what it contributes there, each share times that field's own weight, one
        where none is given. */
    lemma {:induction false} WeightedInField(q: Query<S>, field: string, d: nat)
      requires q.Leaf() && q.field == Some(field)
      ensures Score(q, d) == ar.AddAll(None, ar.Scaled(FieldValues(q, field, d), if field in weights then weights[field] else ar.one))
    {
      hide FieldValues, Arith.AddAll, Arith.Scaled, LeafValues, Score;
      var share := ar.Scaled(FieldValues(q, field, d), if field in weights then weights[field] else ar.one);
      SharesJoin(q, [field], d, [share]);
      LeafScores(q);
      OneShare(share);
    }

    /** A leaf without a field: every indexed field in turn, its share times its own weight, summed in order. */
    lemma {:induction false} WeightedInFields(q: Query<S>, d: nat, shares: seq<seq<S>>)
      requires q.Leaf() && q.field == None && |shares| == |index.indexedFields|
      requires forall i | 0 <= i < |shares| ::
                 var f := index.indexedFields[i];
                 shares[i] == ar.Scaled(FieldValues(q, f, d), if f in weights then weights[f] else ar.one)
      ensures Score(q, d) == ar.AddAll(None, Concat(shares))
    {
      hide FieldValues, Arith.AddAll, LeafValues, Score;
      LeafScores(q);
      SharesJoin(q, index.indexedFields, d, shares);
    }

    lemma {:induction false} SharesJoin(q: Query<S>, fields: seq<string>, d: nat, shares: seq<seq<S>>)
      requires q.Leaf() && |shares| == |fields|
      requires forall i | 0 <= i < |shares| :: shares[i] == ar.Scaled(FieldValues(q, fields[i], d), if fields[i] in weights then weights[fields[i]] else ar.one)
      ensures LeafValues(q, fields, d) == Concat(shares)
    {
      hide FieldValues;
      if fields != [] {
        var n := |fields| - 1;
        SharesJoin(q, fields[..n], d, shares[..n]);
      }
    }

    /** One posting of the term at the document: its score is the similarity's, from the collection's
        document frequency, the posting's term frequency, and the field's length there and on average. */
    lemma {:induction false} PostedScore(field: string, text: string, k: nat)
      requires var ps := index.postings(field, text);
               k < |ps| && forall i | 0 <= i < |ps| && i != k :: ps[i].0 != ps[k].0
      ensures var (d, tf) := index.postings(field, text)[k];
              var s := index.score(index.idf(index.docFreq(field, text)), tf, index.fieldLen(d, field), index.avgFieldLen(field));
              Score(Term(Some(field), text), d) == Some(ar.add(ar.zero, ar.mul(s, if field in weights then weights[field] else ar.one)))
    {
      hide Arith.AddAll;
      var q: Query<S> := Term(Some(field), text);
      var (d, tf) := index.postings(field, text)[k];
      var hits := Sc().Hits(field, text);
      WeightedInField(q, field, d);
      OnlyValue(hits, k);
      var w := if field in weights then weights[field] else ar.one;
      assert ar.Scaled([hits[k].1], w) == [ar.mul(hits[k].1, w)];
      Sc().AddSingle(None, ar.mul(hits[k].1, w));
    }

    // ----- a boolean's score, clause by clause -----

    /** The score of a matching query. */
    ghost function Worth(q: Query<S>, d: nat): S {
      match Score(q, d)
      case Some(v) => v
      case None => ar.zero
    }

    /** The scores at `d` of the clauses listed in `at`. */
    ghost function ScoresAt(clauses: seq<Clause<S>>, at: seq<nat>, d: nat): (xs: seq<S>)
      ensures |xs| == |at|
    {
      seq(|at|, i requires 0 <= i < |at| => if at[i] < |clauses| then Worth(clauses[at[i]].query, d) else ar.zero)
    }

    /** `at` lists, in declared order, exactly the clauses of the sign that match. */
    ghost predicate ListsMatching(at: seq<nat>, clauses: seq<Clause<S>>, o: Occur, d: nat) {
      && (forall i, j | 0 <= i < j < |at| :: at[i] < at[j])
      && (forall i | 0 <= i < |at| :: at[i] < |clauses| && clauses[at[i]].occur == o && Matches(clauses[at[i]].query, d))
      && (forall c: nat | c < |clauses| && clauses[c].occur == o && Matches(clauses[c].query, d) :: c in at)
    }

    /** A matching boolean's score: its matching clauses' scores summed, musts before shoulds and each in
        declared order, times the share of its musts and shoulds that match. */
    lemma {:induction false} BooleanScored(clauses: seq<Clause<S>>, d: nat, musts: seq<nat>, shoulds: seq<nat>)
      requires Matches(Boolean(clauses), d)
      requires ListsMatching(musts, clauses, Must, d) && ListsMatching(shoulds, clauses, Should, d)
      ensures var counted := |set c | 0 <= c < |clauses| && !clauses[c].occur.MustNot? :: c|;
              var start := if musts == [] then ar.zero else ar.Fold(ar.emptySum, ScoresAt(clauses, musts, d));
              Score(Boolean(clauses), d)
              == Some(ar.mul(ar.Fold(start, ScoresAt(clauses, shoulds, d)), ar.ratio(|musts| + |shoulds|, counted)))
    {
      hide Score, Signed, NoneSome, AllSome, Somes, Arith.Fold, ScoresAt, ListsMatching;
      var rs := seq(|clauses|, i requires 0 <= i < |clauses| => Score(clauses[i].query, d));
      Unfolded(clauses, rs, d);
      SignedResults(clauses, rs, Must);
      SignedResults(clauses, rs, Should);
      SomesListed(clauses, rs, Must, d, musts);
      SomesListed(clauses, rs, Should, d, shoulds);
      SignedCounted(clauses, rs);
      AllCounted(Signed(clauses, rs, Must));
    }

    /** Two shoulds on their own. */
    lemma {:induction false} TwoShoulds(a: Query<S>, b: Query<S>, d: nat)
      ensures var q := Boolean([Clause(Should, a), Clause(Should, b)]);
              && (Matches(a, d) && Matches(b, d) ==>
                    Score(q, d) == Some(ar.mul(ar.add(ar.add(ar.zero, Worth(a, d)), Worth(b, d)), ar.ratio(2, 2))))
              && (Matches(a, d) && !Matches(b, d) ==> Score(q, d) == Some(ar.mul(ar.add(ar.zero, Worth(a, d)), ar.ratio(1, 2))))
              && (!Matches(a, d) && Matches(b, d) ==> Score(q, d) == Some(ar.mul(ar.add(ar.zero, Worth(b, d)), ar.ratio(1, 2))))
    {
      hide Score, Worth, Matches, Arith.Fold;
      var at: seq<nat> := (if Matches(a, d) then [0] else []) + (if Matches(b, d) then [1] else []);
      if at != [] {
        ShouldsOf(a, b, d, at);
        FoldShort(ar.zero, ScoresAt([Clause(Should, a), Clause(Should, b)], at, d));
      }
    }

    lemma {:induction false} ShouldsOf(a: Query<S>, b: Query<S>, d: nat, at: seq<nat>)
      requires at == (if Matches(a, d) then [0] else []) + (if Matches(b, d) then [1] else []) && at != []
      ensures var cs := [Clause(Should, a), Clause(Should, b)];
              Score(Boolean(cs), d) == Some(ar.mul(ar.Fold(ar.zero, ScoresAt(cs, at, d)), ar.ratio(|at|, 2)))
    {
      hide Score, Worth, Matches, Arith.Fold, ScoresAt, ListsMatching;
      var cs := [Clause(Should, a), Clause(Should, b)];
      assert cs[0].query == a && cs[1].query == b;
      assert Matches(Boolean(cs), d) by {
        BooleanMatches(cs, d);
      }
      ShouldsListed(a, b, d, at);
      BooleanScored(cs, d, [], at);
      assert (set c | 0 <= c < |cs| && !cs[c].occur.MustNot? :: c) == {0, 1};
    }

    lemma {:induction false} ShouldsListed(a: Query<S>, b: Query<S>, d: nat, at: seq<nat>)
      requires at == (if Matches(a, d) then [0] else []) + (if Matches(b, d) then [1] else [])
      ensures ListsMatching([], [Clause(Should, a), Clause(Should, b)], Must, d)
      ensures ListsMatching(at, [Clause(Should, a), Clause(Should, b)], Should, d)
    {
      hide Matches;
      var cs := [Clause(Should, a), Clause(Should, b)];
      assert cs[0].query == a && cs[1].query == b && cs[0].occur == cs[1].occur == Should;
    }

    lemma {:induction false} FoldShort(start: S, xs: seq<S>)
      ensures |xs| == 1 ==> ar.Fold(start, xs) == ar.add(start, xs[0])
      ensures |xs| == 2 ==> ar.Fold(start, xs) == ar.add(ar.add(start, xs[0]), xs[1])
    {
      if |xs| == 2 {
        assert xs[..1][..0] == [] && xs == [xs[0]] + [xs[1]] && xs[..1] == [xs[0]];
        FoldMore(start, [xs[0]], xs[1]);
        FoldShort(start, [xs[0]]);
      }
    }

    lemma {:induction false} SomesListed(clauses: seq<Clause<S>>, rs: seq<Option<S>>, o: Occur, d: nat, at: seq<nat>)
      requires |rs| == |clauses| && (forall i | 0 <= i < |clauses| :: rs[i] == Score(clauses[i].query, d)) && ListsMatching(at, clauses, o, d)
      ensures Somes(Signed(clauses, rs, o)) == ScoresAt(clauses, at, d)
    {
      hide Score, Worth, ScoresAt, ListsMatching, Somes, Matches;
      if clauses == [] {
        NoClausesListed(clauses, rs, at, o, d);
      } else {
        var n := |clauses| - 1;
        var before := Signed(clauses[..n], rs[..n], o);
        ScoreOfMatch(clauses[n].query, d);
        if clauses[n].occur == o {
          SomesMore(before, rs[n]);
        } else {
          assert before + [] == before;
        }
        if clauses[n].occur == o && rs[n].Some? {
          LastListed(at, clauses, o, d);
          SomesListed(clauses[..n], rs[..n], o, d, at[..|at| - 1]);
          ScoresShrink(clauses, at, o, d);
        } else {
          NotListed(at, clauses, o, d);
          SomesListed(clauses[..n], rs[..n], o, d, at);
          ScoresStay(clauses, at, o, d);
        }
      }
    }

    lemma {:induction false} NoClausesListed(clauses: seq<Clause<S>>, rs: seq<Option<S>>, at: seq<nat>, o: Occur, d: nat)
      requires clauses == [] && rs == [] && ListsMatching(at, clauses, o, d)
      ensures Somes(Signed(clauses, rs, o)) == [] && ScoresAt(clauses, at, d) == []
    {
      hide Score, Worth, Matches;
      BoundedPlaces(at, |clauses|);
      assert Signed(clauses, rs, o) == [] && Somes<S>([]) == [];
    }

    lemma {:induction false} ScoreOfMatch(q: Query<S>, d: nat)
      ensures Matches(q, d) <==> Score(q, d).Some?
      ensures Matches(q, d) ==> Score(q, d) == Some(Worth(q, d))
    {
      hide Score;
    }

    lemma {:induction false} ScoresShrink(clauses: seq<Clause<S>>, at: seq<nat>, o: Occur, d: nat)
      requires clauses != [] && at != [] && at[|at| - 1] == |clauses| - 1 && ListsMatching(at[..|at| - 1], clauses[..|clauses| - 1], o, d)
      ensures ScoresAt(clauses, at, d) == ScoresAt(clauses[..|clauses| - 1], at[..|at| - 1], d) + [Worth(clauses[|clauses| - 1].query, d)]
    {
      hide Score, Worth, Matches;
      var n, shorter := |clauses| - 1, at[..|at| - 1];
      forall i | 0 <= i < |shorter| ensures ScoresAt(clauses, at, d)[i] == ScoresAt(clauses[..n], shorter, d)[i] {
        assert shorter[i] == at[i] && shorter[i] < |clauses[..n]|;
        assert clauses[..n][at[i]] == clauses[at[i]];
      }
      assert ScoresAt(clauses, at, d)[|shorter|] == Worth(clauses[n].query, d);
    }

    lemma {:induction false} ScoresStay(clauses: seq<Clause<S>>, at: seq<nat>, o: Occur, d: nat)
      requires clauses != [] && ListsMatching(at, clauses[..|clauses| - 1], o, d)
      ensures ScoresAt(clauses, at, d) == ScoresAt(clauses[..|clauses| - 1], at, d)
    {
      hide Score, Worth, Matches;
    }

    /** The last clause, when it is listed, is listed last. */
    lemma {:induction false} LastListed(at: seq<nat>, clauses: seq<Clause<S>>, o: Occur, d: nat)
      requires clauses != [] && ListsMatching(at, clauses, o, d)
      requires clauses[|clauses| - 1].occur == o && Matches(clauses[|clauses| - 1].query, d)
      ensures at != [] && at[|at| - 1] == |clauses| - 1 && ListsMatching(at[..|at| - 1], clauses[..|clauses| - 1], o, d)
    {
      hide Matches;
      var n := |clauses| - 1;
      assert n in at;
      var i :| 0 <= i < |at| && at[i] == n;
      LastIsLargest(at, i);
      forall c: nat | c < n && clauses[c].occur == o && Matches(clauses[c].query, d) ensures c in at[..|at| - 1] {
        var k :| 0 <= k < |at| && at[k] == c;
        assert at[..|at| - 1][k] == c;
      }
    }

    lemma {:induction false} NotListed(at: seq<nat>, clauses: seq<Clause<S>>, o: Occur, d: nat)
      requires clauses != [] && ListsMatching(at, clauses, o, d)
      requires clauses[|clauses| - 1].occur != o || !Matches(clauses[|clauses| - 1].query, d)
      ensures ListsMatching(at, clauses[..|clauses| - 1], o, d)
    {
      hide Matches;
    }

    /** Musts and shoulds counted. */
    lemma {:induction false} SignedCounted(clauses: seq<Clause<S>>, rs: seq<Option<S>>)
      requires |rs| == |clauses|
      ensures |Signed(clauses, rs, Must)| + |Signed(clauses, rs, Should)| == |set c | 0 <= c < |clauses| && !clauses[c].occur.MustNot? :: c|
    {
      var all := set c | 0 <= c < |clauses| && !clauses[c].occur.MustNot? :: c;
      if clauses == [] {
        assert all == {};
      } else {
        var n := |clauses| - 1;
        SignedCounted(clauses[..n], rs[..n]);
        var before := set c | 0 <= c < n && !clauses[..n][c].occur.MustNot? :: c;
        assert all == if clauses[n].occur.MustNot? then before else before + {n};
      }
    }

    lemma {:induction false} AllCounted(rs: seq<Option<S>>)
      ensures AllSome(rs) ==> |Somes(rs)| == |rs|
    {
      if rs != [] {
        AllCounted(rs[..|rs| - 1]);
      }
    }

    lemma {:induction false} Unfolded(clauses: seq<Clause<S>>, rs: seq<Option<S>>, d: nat)
      requires rs == seq(|clauses|, i requires 0 <= i < |clauses| => Score(clauses[i].query, d))
      ensures Score(Boolean(clauses), d) == Combine(Signed(clauses, rs, Must), Signed(clauses, rs, Should), Signed(clauses, rs, MustNot))
    {
      hide Combine, Signed;
    }
  }

  /** Keeps the smaller set and probes the larger. */
  method IntersectInPlace(a: set<nat>, b: set<nat>) returns (r: set<nat>)
    ensures r == a * b
  {
    var keep, probe := a, b;
    if |b| < |a| {
      keep, probe := b, a;
    }
    r := set d | d in keep && d in probe;
  }
}
