/** Leaf scorers over an index reader: which documents a term, a union of terms, a fuzzy expansion or
    a phrase matches in one field, and with what score. A score is any type with the operations the
    code uses; nothing is assumed of them, in particular addition need not be associative. */
module Scoring {
  import opened Wrappers

  datatype Arith<!S> = Arith(zero: S, emptySum: S, one: S, add: (S, S) -> S, mul: (S, S) -> S, ratio: (nat, nat) -> S) {

    /** `start + xs[0] + xs[1] + ...`, in that order. */
    function Fold(start: S, xs: seq<S>): S {
      if xs == [] then start else add(Fold(start, xs[..|xs| - 1]), xs[|xs| - 1])
    }

    /** `*entry.or_insert(0.0) += x` for each of `xs`. */
    function AddAll(o: Option<S>, xs: seq<S>): Option<S> {
      if xs == [] then o else Some(Fold(if o.Some? then o.value else zero, xs))
    }

    function Scaled(xs: seq<S>, w: S): (r: seq<S>)
      ensures |r| == |xs| && forall i | 0 <= i < |xs| :: r[i] == mul(xs[i], w)
    {
      seq(|xs|, i requires 0 <= i < |xs| => mul(xs[i], w))
    }

    lemma {:induction false} AddOne(o: Option<S>, xs: seq<S>, x: S)
      ensures AddAll(o, xs + [x]) == Some(add(match AddAll(o, xs) case Some(v) => v case None => zero, x))
    {
      assert (xs + [x])[..|xs|] == xs;
    }

    lemma {:induction false} AddMore(o: Option<S>, xs: seq<S>, ys: seq<S>)
      ensures AddAll(AddAll(o, xs), ys) == AddAll(o, xs + ys)
    {
      hide Fold;
      if ys == [] {
        assert xs + ys == xs;
      } else {
        var before, y := ys[..|ys| - 1], ys[|ys| - 1];
        AddMore(o, xs, before);
        assert ys == before + [y] && xs + ys == (xs + before) + [y];
        AddOne(AddAll(o, xs), before, y);
        AddOne(o, xs + before, y);
      }
    }
  }

  /** A hash map's value at a document. */
  function Get<V>(m: map<nat, V>, d: nat): Option<V> {
    if d in m then Some(m[d]) else None
  }

  /** `restrict` limits which documents may be returned; `None` limits nothing. */
  predicate Allows(restrict: Option<set<nat>>, d: nat) {
    restrict.Some? ==> d in restrict.value
  }

  /** The documents `r` scores are exactly the allowed ones that `full` scores, each with that score. */
  ghost predicate Gives<S(!new)>(r: map<nat, S>, restrict: Option<set<nat>>, full: nat -> Option<S>) {
    forall d: nat :: Get(r, d) == if Allows(restrict, d) then full(d) else None
  }

  function Values<S>(hits: seq<(nat, S)>, d: nat): seq<S> {
    if hits == [] then []
    else Values(hits[..|hits| - 1], d) + (if hits[|hits| - 1].0 == d then [hits[|hits| - 1].1] else [])
  }

  function Kept<S>(hits: seq<(nat, S)>, restrict: Option<set<nat>>): seq<(nat, S)> {
    if hits == [] then []
    else Kept(hits[..|hits| - 1], restrict) + (if Allows(restrict, hits[|hits| - 1].0) then [hits[|hits| - 1]] else [])
  }

  lemma {:induction false} ValuesAppend<S>(hits: seq<(nat, S)>, h: (nat, S), d: nat)
    ensures Values(hits + [h], d) == Values(hits, d) + if h.0 == d then [h.1] else []
  {
    assert (hits + [h])[..|hits|] == hits;
  }

  lemma {:induction false} ValuesKept<S>(hits: seq<(nat, S)>, restrict: Option<set<nat>>, d: nat)
    ensures Values(Kept(hits, restrict), d) == if Allows(restrict, d) then Values(hits, d) else []
  {
    if hits != [] {
      var before, h := hits[..|hits| - 1], hits[|hits| - 1];
      ValuesKept(before, restrict, d);
      ValuesAppend(Kept(before, restrict), h, d);
      assert Kept(before, restrict) + [] == Kept(before, restrict);
    }
  }

  datatype Reader<!S> = Reader(
    totalDocs: nat, deleted: nat -> bool, indexedFields: seq<string>,
    docFreq: (string, string) -> nat, postings: (string, string) -> seq<(nat, nat)>,
    positions: (string, string) -> map<nat, seq<nat>>, fieldLen: (nat, string) -> nat, avgFieldLen: string -> S,
    idf: nat -> S, score: (S, nat, nat, S) -> S,
    accentTerms: (string, string) -> seq<string>, wildcardTerms: (string, string, nat, bool) -> seq<string>,
    fuzzyTerms: (string, string, S, nat, bool) -> seq<(string, S)>)

  datatype Scorer<!S(!new)> = Scorer(ar: Arith<S>, index: Reader<S>) {

    predicate Live(d: nat) {
      d < index.totalDocs && !index.deleted(d)
    }

    // ----- what each leaf means for one document, whatever is searched for beside it -----

    /** Every posting of a term, scored. */
    function Hits(field: string, term: string): seq<(nat, S)> {
      var ps, idf, avg := index.postings(field, term), index.idf(index.docFreq(field, term)), index.avgFieldLen(field);
      seq(|ps|, i requires 0 <= i < |ps| => (ps[i].0, index.score(idf, ps[i].1, index.fieldLen(ps[i].0, field), avg)))
    }

    function TermValues(field: string, term: string, d: nat): seq<S> {
      Values(Hits(field, term), d)
    }

    /** Contributions to a document of each term in turn. */
    function UnionValues(field: string, terms: seq<string>, d: nat): seq<S> {
      if terms == [] then []
      else UnionValues(field, terms[..|terms| - 1], d) + TermValues(field, terms[|terms| - 1], d)
    }

    function FuzzyValues(field: string, terms: seq<(string, S)>, d: nat): seq<S> {
      if terms == [] then []
      else
        var (t, boost) := terms[|terms| - 1];
        FuzzyValues(field, terms[..|terms| - 1], d) + ar.Scaled(TermValues(field, t, d), boost)
    }

    /** Positions of a phrase word, which is any of `variants`. */
    function WordPositions(field: string, variants: seq<string>, d: nat): Option<seq<nat>> {
      if variants == [] then None
      else
        Joined(WordPositions(field, variants[..|variants| - 1], d), Get(index.positions(field, variants[|variants| - 1]), d))
    }

    function WordFreq(field: string, variants: seq<string>): nat {
      if variants == [] then 0
      else WordFreq(field, variants[..|variants| - 1]) + index.docFreq(field, variants[|variants| - 1])
    }

    function Variants(field: string, word: string, accentInsensitive: bool): seq<string> {
      if accentInsensitive then index.accentTerms(field, word) else [word]
    }

    function WordValue(field: string, word: string, accentInsensitive: bool, d: nat): S {
      var variants := Variants(field, word, accentInsensitive);
      var ps := WordPositions(field, variants, d);
      index.score(index.idf(WordFreq(field, variants)), if ps.Some? then |ps.value| else 0, index.fieldLen(d, field), index.avgFieldLen(field))
    }

    /** The words occur side by side, in order, from some position on. */
    ghost predicate PhraseIn(field: string, words: seq<string>, accentInsensitive: bool, d: nat) {
      && words != []
      && (forall i | 0 <= i < |words| :: WordPositions(field, Variants(field, words[i], accentInsensitive), d).Some?)
      && exists p | p in WordPositions(field, Variants(field, words[0], accentInsensitive), d).value ::
           forall i | 1 <= i < |words| :: p + i in WordPositions(field, Variants(field, words[i], accentInsensitive), d).value
    }

    function WordValues(field: string, words: seq<string>, accentInsensitive: bool, d: nat): seq<S> {
      seq(|words|, i requires 0 <= i < |words| => WordValue(field, words[i], accentInsensitive, d))
    }

    ghost function PhraseScore(field: string, words: seq<string>, accentInsensitive: bool, d: nat): Option<S> {
      if PhraseIn(field, words, accentInsensitive, d)
      then Some(ar.Fold(ar.emptySum, WordValues(field, words, accentInsensitive, d)))
      else None
    }

    // ----- the scorers -----

    function TermScores(field: string, term: string, restrict: Option<set<nat>>): seq<(nat, S)> {
      Kept(Hits(field, term), restrict)
    }

    /** `for (id, s) in hits { *acc.entry(id).or_insert(0.0) += s * w }` */
    method Accumulate(acc: map<nat, S>, hits: seq<(nat, S)>, w: S) returns (r: map<nat, S>)
      ensures forall d: nat :: Get(r, d) == ar.AddAll(Get(acc, d), ar.Scaled(Values(hits, d), w))
    {
      hide Arith.AddAll;
      r := acc;
      assert hits[..0] == [];
      NothingAdded();
      for k := 0 to |hits|
        invariant forall d: nat :: Get(r, d) == ar.AddAll(Get(acc, d), ar.Scaled(Values(hits[..k], d), w))
      {
        var (id, s) := hits[k];
        var x := ar.mul(s, w);
        forall d: nat
          ensures ar.Scaled(Values(hits[..k + 1], d), w) == ar.Scaled(Values(hits[..k], d), w) + if d == id then [x] else []
        {
          assert hits[..k + 1] == hits[..k] + [hits[k]];
          ValuesAppend(hits[..k], hits[k], d);
        }
        ar.AddOne(Get(acc, id), ar.Scaled(Values(hits[..k], id), w), x);
        r := r[id := ar.add(if id in r then r[id] else ar.zero, x)];
        forall d: nat ensures Get(r, d) == ar.AddAll(Get(acc, d), ar.Scaled(Values(hits[..k + 1], d), w)) {
          assert ar.Scaled(Values(hits[..k], d), w) + [] == ar.Scaled(Values(hits[..k], d), w);
        }
      }
      assert hits[..|hits|] == hits;
    }

    lemma {:induction false} NothingAdded()
      ensures forall o: Option<S> :: ar.AddAll(o, []) == o
    {
    }

    lemma {:induction false} AddSingle(o: Option<S>, x: S)
      ensures ar.AddAll(o, [x]) == Some(ar.add(match o case Some(v) => v case None => ar.zero, x))
    {
      hide Arith.AddAll;
      NothingAdded();
      ar.AddOne(o, [], x);
      assert [] + [x] == [x];
    }

    /** The same over a hash map, whose entries come in no particular order. */
    method AccumulateMap(acc: map<nat, S>, m: map<nat, S>, w: S) returns (r: map<nat, S>)
      ensures forall d: nat :: Get(r, d) == if d in m then ar.AddAll(Get(acc, d), [ar.mul(m[d], w)]) else Get(acc, d)
    {
      hide Arith.AddAll;
      r := acc;
      var left := m.Keys;
      while left != {}
        invariant left <= m.Keys
        invariant forall d: nat :: Get(r, d) == if d in m && d !in left then ar.AddAll(Get(acc, d), [ar.mul(m[d], w)]) else Get(acc, d)
        decreases |left|
      {
        var id :| id in left;
        AddSingle(Get(acc, id), ar.mul(m[id], w));
        ghost var was := r;
        r := r[id := ar.add(if id in r then r[id] else ar.zero, ar.mul(m[id], w))];
        left := left - {id};
        forall d: nat ensures Get(r, d) == if d in m && d !in left then ar.AddAll(Get(acc, d), [ar.mul(m[d], w)]) else Get(acc, d) {
          assert d != id ==> Get(r, d) == Get(was, d);
        }
      }
    }

    method UnionScores(field: string, terms: seq<string>, restrict: Option<set<nat>>) returns (scored: map<nat, S>)
      ensures Gives(scored, restrict, d => ar.AddAll(None, UnionValues(field, terms, d)))
    {
      hide Arith.AddAll, UnionValues;
      scored := map[];
      NoTerms(field);
      assert terms[..0] == [];
      NothingAdded();
      for i := 0 to |terms|
        invariant Gives(scored, restrict, d => ar.AddAll(None, UnionValues(field, terms[..i], d)))
      {
        ghost var before := scored;
        scored := UnionTerm(scored, field, terms[i], restrict);
        forall d: nat ensures Get(scored, d) == if Allows(restrict, d) then ar.AddAll(None, UnionValues(field, terms[..i + 1], d)) else None {
          assert terms[..i + 1] == terms[..i] + [terms[i]];
          UnionMore(field, terms[..i], terms[i], d);
          ar.AddMore(None, UnionValues(field, terms[..i], d), TermValues(field, terms[i], d));
        }
      }
      assert terms[..|terms|] == terms;
    }

    lemma {:induction false} NoTerms(field: string)
      ensures forall d :: UnionValues(field, [], d) == []
      ensures forall d :: FuzzyValues(field, [], d) == []
    {
    }

    lemma {:induction false} UnionMore(field: string, terms: seq<string>, t: string, d: nat)
      ensures UnionValues(field, terms + [t], d) == UnionValues(field, terms, d) + TermValues(field, t, d)
    {
      assert (terms + [t])[..|terms|] == terms;
    }

    /** One term of the union: its postings are filtered one by one. */
    method UnionTerm(before: map<nat, S>, field: string, term: string, restrict: Option<set<nat>>) returns (scored: map<nat, S>)
      ensures forall d: nat :: Get(scored, d)
                            == if Allows(restrict, d) then ar.AddAll(Get(before, d), TermValues(field, term, d)) else Get(before, d)
    {
      hide Arith.AddAll, Allows;
      scored := before;
      var ps, idf, avg := index.postings(field, term), index.idf(index.docFreq(field, term)), index.avgFieldLen(field);
      ghost var hits := Hits(field, term);
      assert hits[..0] == [];
      NothingAdded();
      for k := 0 to |ps|
        invariant forall d: nat :: Get(scored, d)
                            == if Allows(restrict, d) then ar.AddAll(Get(before, d), Values(hits[..k], d)) else Get(before, d)
      {
        var (id, tf) := ps[k];
        assert hits[..k + 1] == hits[..k] + [hits[k]];
        forall d: nat ensures Values(hits[..k + 1], d) == Values(hits[..k], d) + if hits[k].0 == d then [hits[k].1] else [] {
          ValuesAppend(hits[..k], hits[k], d);
        }
        forall d: nat ensures Values(hits[..k], d) + [] == Values(hits[..k], d) {
        }
        if !Allows(restrict, id) {
          continue;
        }
        var x := index.score(idf, tf, index.fieldLen(id, field), avg);
        ar.AddOne(Get(before, id), Values(hits[..k], id), x);
        scored := scored[id := ar.add(if id in scored then scored[id] else ar.zero, x)];
      }
      assert hits[..|ps|] == hits;
    }

    method FuzzyScores(field: string, terms: seq<(string, S)>, restrict: Option<set<nat>>) returns (scored: map<nat, S>)
      ensures Gives(scored, restrict, d => ar.AddAll(None, FuzzyValues(field, terms, d)))
    {
      hide Arith.AddAll, FuzzyValues, Hits;
      scored := map[];
      NoTerms(field);
      assert terms[..0] == [];
      NothingAdded();
      for i := 0 to |terms|
        invariant Gives(scored, restrict, d => ar.AddAll(None, FuzzyValues(field, terms[..i], d)))
      {
        var (t, boost) := terms[i];
        scored := Accumulate(scored, TermScores(field, t, restrict), boost);
        forall d: nat ensures Get(scored, d) == if Allows(restrict, d) then ar.AddAll(None, FuzzyValues(field, terms[..i + 1], d)) else None {
          assert terms[..i + 1] == terms[..i] + [terms[i]];
          FuzzyMore(field, terms[..i], terms[i], d);
          ValuesKept(Hits(field, t), restrict, d);
          assert ar.Scaled([], boost) == [];
          ar.AddMore(None, FuzzyValues(field, terms[..i], d), ar.Scaled(TermValues(field, t, d), boost));
        }
      }
      assert terms[..|terms|] == terms;
    }

    lemma {:induction false} FuzzyMore(field: string, terms: seq<(string, S)>, t: (string, S), d: nat)
      ensures FuzzyValues(field, terms + [t], d) == FuzzyValues(field, terms, d) + ar.Scaled(TermValues(field, t.0, d), t.1)
    {
      assert (terms + [t])[..|terms|] == terms;
    }

    /** Positions and pooled document frequency of one phrase word. */
    method MergedPositions(field: string, variants: seq<string>) returns (merged: map<nat, seq<nat>>, df: nat)
      ensures forall d: nat :: Get(merged, d) == WordPositions(field, variants, d)
      ensures df == WordFreq(field, variants)
    {
      merged, df := map[], 0;
      assert variants[..0] == [];
      for i := 0 to |variants|
        invariant forall d: nat :: Get(merged, d) == WordPositions(field, variants[..i], d)
        invariant df == WordFreq(field, variants[..i])
      {
        assert variants[..i + 1][..i] == variants[..i];
        df := df + index.docFreq(field, variants[i]);
        merged := Extend(merged, index.positions(field, variants[i]));
      }
      assert variants[..|variants|] == variants;
    }

    method PhraseScores(field: string, words: seq<string>, accentInsensitive: bool, restrict: Option<set<nat>>)
      returns (scored: map<nat, S>)
      ensures Gives(scored, restrict, d => PhraseScore(field, words, accentInsensitive, d))
    {
      hide PhraseScore, WordPositions, WordFreq, Holds;
      scored := map[];
      if words == [] {
        NoPhrase(field, accentInsensitive);
        return;
      }
      var avg := index.avgFieldLen(field);
      var perWord: seq<(map<nat, seq<nat>>, S)> := [];
      for i := 0 to |words|
        invariant |perWord| == i && forall j | 0 <= j < i :: Holds(perWord[j], field, words[j], accentInsensitive)
      {
        var merged, df := MergedPositions(field, Variants(field, words[i], accentInsensitive));
        HoldsWord((merged, index.idf(df)), df, field, words[i], accentInsensitive);
        perWord := perWord + [(merged, index.idf(df))];
      }
      var candidates := Candidates(perWord, restrict);
      ghost var all := candidates;
      while candidates != {}
        invariant candidates <= all
        invariant forall d: nat :: Get(scored, d) == if d in all && d !in candidates then PhraseScore(field, words, accentInsensitive, d) else None
        decreases |candidates|
      {
        var doc :| doc in candidates;
        var s := ScorePhrase(field, words, accentInsensitive, doc, perWord, avg);
        if s.Some? {
          scored := scored[doc := s.value];
        }
        candidates := candidates - {doc};
      }
      forall d: nat | Allows(restrict, d) && d !in all ensures PhraseScore(field, words, accentInsensitive, d).None? {
        NoCandidate(field, words, accentInsensitive, d, perWord);
      }
    }

    /** Documents that hold every word. */
    method Candidates(perWord: seq<(map<nat, seq<nat>>, S)>, restrict: Option<set<nat>>) returns (candidates: set<nat>)
      requires perWord != []
      ensures forall d :: d in candidates <==> Allows(restrict, d) && forall j | 0 <= j < |perWord| :: d in perWord[j].0
    {
      candidates := set d | d in perWord[0].0 && Allows(restrict, d);
      for i := 1 to |perWord|
        invariant forall d :: d in candidates <==> Allows(restrict, d) && forall j | 0 <= j < i :: d in perWord[j].0
      {
        candidates := set d | d in candidates && d in perWord[i].0;
      }
    }

    /** One candidate: matched when some start position continues through every word. */
    method ScorePhrase(field: string, words: seq<string>, accentInsensitive: bool, doc: nat, perWord: seq<(map<nat, seq<nat>>, S)>, avg: S)
      returns (s: Option<S>)
      requires |perWord| == |words| > 0 && avg == index.avgFieldLen(field)
      requires forall j | 0 <= j < |words| :: Holds(perWord[j], field, words[j], accentInsensitive)
      requires forall j | 0 <= j < |words| :: doc in perWord[j].0
      ensures s == PhraseScore(field, words, accentInsensitive, doc)
    {
      hide PhraseIn, WordPositions, WordFreq, Arith.Fold;
      var isMatch := exists p | p in perWord[0].0[doc] :: forall i | 1 <= i < |words| :: p + i in perWord[i].0[doc];
      PhraseDecided(field, words, accentInsensitive, doc, perWord);
      if !isMatch {
        return None;
      }
      var values := seq(|words|, i requires 0 <= i < |words| =>
                          index.score(perWord[i].1, if doc in perWord[i].0 then |perWord[i].0[doc]| else 0, index.fieldLen(doc, field), avg));
      forall i | 0 <= i < |words| ensures values[i] == WordValue(field, words[i], accentInsensitive, doc) {
        assert Holds(perWord[i], field, words[i], accentInsensitive);
        assert Get(perWord[i].0, doc) == Some(perWord[i].0[doc]);
      }
      assert values == WordValues(field, words, accentInsensitive, doc);
      return Some(ar.Fold(ar.emptySum, values));
    }

    ghost predicate Holds(word: (map<nat, seq<nat>>, S), field: string, text: string, accentInsensitive: bool) {
      var variants := Variants(field, text, accentInsensitive);
      && (forall d: nat :: Get(word.0, d) == WordPositions(field, variants, d))
      && word.1 == index.idf(WordFreq(field, variants))
    }

    lemma {:induction false} HoldsWord(word: (map<nat, seq<nat>>, S), df: nat, field: string, text: string, accentInsensitive: bool)
      requires forall d: nat :: Get(word.0, d) == WordPositions(field, Variants(field, text, accentInsensitive), d)
      requires df == WordFreq(field, Variants(field, text, accentInsensitive)) && word.1 == index.idf(df)
      ensures Holds(word, field, text, accentInsensitive)
    {
    }

    lemma {:induction false} NoPhrase(field: string, accentInsensitive: bool)
      ensures forall d :: PhraseScore(field, [], accentInsensitive, d).None?
    {
    }

    lemma {:induction false} PhraseDecided(field: string, words: seq<string>, accentInsensitive: bool, d: nat, perWord: seq<(map<nat, seq<nat>>, S)>)
      requires |perWord| == |words| > 0 && forall j | 0 <= j < |words| :: Holds(perWord[j], field, words[j], accentInsensitive)
      requires forall j | 0 <= j < |words| :: d in perWord[j].0
      ensures PhraseIn(field, words, accentInsensitive, d)
         <==> exists p | p in perWord[0].0[d] :: forall i | 1 <= i < |words| :: p + i in perWord[i].0[d]
    {
      hide WordPositions, WordFreq;
      forall i | 0 <= i < |words|
        ensures WordPositions(field, Variants(field, words[i], accentInsensitive), d) == Some(perWord[i].0[d])
      {
        assert Holds(perWord[i], field, words[i], accentInsensitive);
        assert Get(perWord[i].0, d) == Some(perWord[i].0[d]);
      }
    }

    lemma {:induction false} NoCandidate(field: string, words: seq<string>, accentInsensitive: bool, d: nat, perWord: seq<(map<nat, seq<nat>>, S)>)
      requires |perWord| == |words| > 0 && forall j | 0 <= j < |words| :: Holds(perWord[j], field, words[j], accentInsensitive)
      requires exists j | 0 <= j < |words| :: d !in perWord[j].0
      ensures PhraseScore(field, words, accentInsensitive, d).None?
    {
      hide WordPositions, WordFreq;
      var j :| 0 <= j < |words| && d !in perWord[j].0;
      assert Holds(perWord[j], field, words[j], accentInsensitive);
      assert Get(perWord[j].0, d).None?;
    }
  }

  function Joined(a: Option<seq<nat>>, b: Option<seq<nat>>): Option<seq<nat>> {
    if b.None? then a else Some((if a.Some? then a.value else []) + b.value)
  }

  /** `merged.entry(doc).or_default().extend(pos)` for every entry of `more`, in any order. */
  method Extend(merged: map<nat, seq<nat>>, more: map<nat, seq<nat>>) returns (r: map<nat, seq<nat>>)
    ensures forall d: nat :: Get(r, d) == Joined(Get(merged, d), Get(more, d))
  {
    r := merged;
    var left := more.Keys;
    while left != {}
      invariant left <= more.Keys
      invariant forall d: nat :: Get(r, d) == if d in left then Get(merged, d) else Joined(Get(merged, d), Get(more, d))
      decreases |left|
    {
      var d :| d in left;
      r := r[d := (if d in r then r[d] else []) + more[d]];
      left := left - {d};
    }
  }
}
