/** Allow-lists: the documents that pass every `range` and `match_all` filter, computed up front and
    handed to the evaluator as its restriction. */
module AllowLists {
  import opened Wrappers
  import opened Lex
  import opened Sorting
  import opened Scoring
  import opened Queries

  datatype RangeFilter = RangeFilter(field: string, lower: Option<string>, upper: Option<string>) {
    predicate Bounds(term: string) {
      (lower.Some? ==> AtMost(lower.value, term)) && (upper.Some? ==> AtMost(term, upper.value))
    }
  }

  datatype MatchAllFilter = MatchAllFilter(field: string, text: string)

  /** A list of every live document restricts nothing; only the sizes are compared. */
  function DropIfUniversal(acc: Option<set<nat>>, live: nat): Option<set<nat>> {
    if acc.Some? && acc.value != {} && |acc.value| == live then None else acc
  }

  method IntersectAllow(a: Option<set<nat>>, b: Option<set<nat>>) returns (r: Option<set<nat>>)
    ensures forall d: nat :: Allows(r, d) <==> Allows(a, d) && Allows(b, d)
    ensures r.Some? <==> a.Some? || b.Some?
  {
    if a.None? {
      return b;
    }
    if b.None? {
      return a;
    }
    var both := IntersectInPlace(a.value, b.value);
    return Some(both);
  }

  predicate RarerToken(a: (nat, string), b: (nat, string)) {
    a.0 < b.0
  }

  datatype Corpus<!S(!new)> = Corpus(
    env: Env<S>, numDocs: nat, terms: string -> set<string>,
    termsInRange: (string, Option<string>, Option<string>) -> seq<string>, analyze: string -> seq<string>)
  {
    predicate Live(d: nat) {
      env.Sc().Live(d)
    }

    function LiveDocs(): set<nat> {
      set d: nat | 0 <= d < env.index.totalDocs && Live(d)
    }

    function Docs(field: string, term: string): set<nat> {
      var ps := env.index.postings(field, term);
      set i | 0 <= i < |ps| :: ps[i].0
    }

    /** What the index reader promises. */
    ghost predicate Lawful() {
      && numDocs == |LiveDocs()|
      && (forall f: string, t: string :: Docs(f, t) <= LiveDocs())
      && (forall f: string, t: string :: env.index.docFreq(f, t) == 0 ==> env.index.postings(f, t) == [])
      && (forall f: string, t: string :: env.index.positions(f, t).Keys <= LiveDocs())
      && (forall f: RangeFilter, t: string ::
            t in termsInRange(f.field, f.lower, f.upper) <==> t in terms(f.field) && f.Bounds(t))
    }

    // ----- what passing a filter means -----

    ghost predicate PassesRange(f: RangeFilter, d: nat) {
      exists t: string :: t in terms(f.field) && f.Bounds(t) && d in Docs(f.field, t)
    }

    predicate PassesMatchAll(f: MatchAllFilter, d: nat) {
      var words := analyze(f.text);
      forall i | 0 <= i < |words| :: d in Docs(f.field, words[i])
    }

    ghost predicate Passes(ranges: seq<RangeFilter>, words: seq<MatchAllFilter>, d: nat) {
      && (forall i | 0 <= i < |ranges| :: PassesRange(ranges[i], d))
      && (forall i | 0 <= i < |words| :: PassesMatchAll(words[i], d))
    }

    /** On live documents `list` allows exactly what `pass` holds of, and it lists no other document. */
    ghost predicate Lists(list: Option<set<nat>>, pass: nat -> bool) {
      && (forall d: nat | Live(d) :: Allows(list, d) <==> pass(d))
      && (list.Some? ==> list.value <= LiveDocs())
    }

    lemma {:induction false} LiveIn(d: nat)
      ensures d in LiveDocs() <==> Live(d)
    {
    }

    /** As many live documents as there are is all of them. */
    lemma {:induction false} UniversalListsAll(acc: Option<set<nat>>, pass: nat -> bool)
      requires Lawful() && Lists(acc, pass)
      ensures Lists(DropIfUniversal(acc, numDocs), pass)
      ensures DropIfUniversal(acc, numDocs).None? <==> acc.None? || (LiveDocs() != {} && forall d: nat | Live(d) :: pass(d))
    {
      if acc.Some? && forall d: nat | Live(d) :: pass(d) {
        forall d ensures d in acc.value <==> d in LiveDocs() {
          LiveIn(d);
        }
        assert acc.value == LiveDocs();
      }
      if acc.Some? && |acc.value| == numDocs {
        SubsetOfSize(acc.value, LiveDocs());
        forall d: nat | Live(d) ensures pass(d) {
          LiveIn(d);
        }
      }
    }

    // ----- ranges -----

    method RangeAllowList(filters: seq<RangeFilter>) returns (r: Option<set<nat>>)
      requires Lawful()
      ensures Lists(r, (d: nat) => forall i | 0 <= i < |filters| :: PassesRange(filters[i], d))
      ensures r.None? <==> filters == []
                           || (LiveDocs() != {} && forall d: nat | Live(d) :: forall i | 0 <= i < |filters| :: PassesRange(filters[i], d))
    {
      hide PassesRange;
      if filters == [] {
        return None;
      }
      var acc: Option<set<nat>> := None;
      for k := 0 to |filters|
        invariant acc.Some? <==> k > 0
        invariant Lists(acc, (d: nat) => forall i | 0 <= i < k :: PassesRange(filters[i], d))
      {
        var docs := RangeDocs(filters[k]);
        ghost var before := acc;
        match acc {
          case Some(prev) => docs := IntersectInPlace(prev, docs);
          case None =>
        }
        acc := Some(docs);
        forall d: nat | Live(d) ensures Allows(acc, d) <==> forall i | 0 <= i < k + 1 :: PassesRange(filters[i], d) {
          assert Allows(before, d) <==> forall i | 0 <= i < k :: PassesRange(filters[i], d);
        }
      }
      UniversalListsAll(acc, (d: nat) => forall i | 0 <= i < |filters| :: PassesRange(filters[i], d));
      return DropIfUniversal(acc, numDocs);
    }

    method RangeDocs(f: RangeFilter) returns (docs: set<nat>)
      requires Lawful()
      ensures docs <= LiveDocs() && forall d :: d in docs <==> PassesRange(f, d)
    {
      docs := {};
      var ts := termsInRange(f.field, f.lower, f.upper);
      for k := 0 to |ts|
        invariant docs <= LiveDocs()
        invariant forall d :: d in docs <==> exists i | 0 <= i < k :: d in Docs(f.field, ts[i])
      {
        var ps := env.index.postings(f.field, ts[k]);
        ghost var before := docs;
        for j := 0 to |ps|
          invariant docs == before + set i | 0 <= i < j :: ps[i].0
        {
          docs := docs + {ps[j].0};
        }
        assert docs == before + Docs(f.field, ts[k]);
      }
      forall d ensures d in docs <==> PassesRange(f, d) {
        if i :| 0 <= i < |ts| && d in Docs(f.field, ts[i]) {
          assert ts[i] in ts;
        }
        if t: string :| t in terms(f.field) && f.Bounds(t) && d in Docs(f.field, t) {
          assert t in ts;
        }
      }
    }

    // ----- match-all -----

    method MatchAllAllowList(filters: seq<MatchAllFilter>) returns (r: Option<set<nat>>)
      requires Lawful()
      ensures Lists(r, (d: nat) => forall i | 0 <= i < |filters| :: PassesMatchAll(filters[i], d))
      ensures r.None? <==> (forall i | 0 <= i < |filters| :: analyze(filters[i].text) == [])
                           || (LiveDocs() != {} && forall d: nat | Live(d) :: forall i | 0 <= i < |filters| :: PassesMatchAll(filters[i], d))
    {
      hide PassesMatchAll;
      var acc: Option<set<nat>> := None;
      var k := 0;
      while k < |filters|
        invariant 0 <= k <= |filters|
        invariant acc.None? <==> forall i | 0 <= i < k :: analyze(filters[i].text) == []
        invariant Lists(acc, (d: nat) => forall i | 0 <= i < k :: PassesMatchAll(filters[i], d))
      {
        var f := filters[k];
        ghost var before := acc;
        k := k + 1;
        var passing := FilterDocs(f);
        match passing {
          case None =>
            // no words: no constraint
            continue;
          case Some(docs) =>
            match acc {
              case None => acc := Some(docs);
              case Some(prev) =>
                var both := IntersectInPlace(prev, docs);
                acc := Some(both);
            }
        }
        forall d: nat | Live(d) ensures Allows(acc, d) <==> forall i | 0 <= i < k :: PassesMatchAll(filters[i], d) {
          assert Allows(before, d) <==> forall i | 0 <= i < k - 1 :: PassesMatchAll(filters[i], d);
        }
        if acc.value == {} {
          NoneLeft(filters, k);
          break;
        }
      }
      UniversalListsAll(acc, (d: nat) => forall i | 0 <= i < |filters| :: PassesMatchAll(filters[i], d));
      return DropIfUniversal(acc, numDocs);
    }

    /** Once no live document passes some of the filters, none passes all. */
    lemma {:induction false} NoneLeft(filters: seq<MatchAllFilter>, k: nat)
      requires k <= |filters|
      requires Lists(Some({}), (d: nat) => forall i | 0 <= i < k :: PassesMatchAll(filters[i], d))
      ensures Lists(Some({}), (d: nat) => forall i | 0 <= i < |filters| :: PassesMatchAll(filters[i], d))
    {
      hide PassesMatchAll;
      forall d: nat | Live(d) ensures !forall i | 0 <= i < |filters| :: PassesMatchAll(filters[i], d) {
        assert !Allows(Some({}), d);
      }
    }

    function Weighed(field: string, words: seq<string>): (toks: seq<(nat, string)>)
      ensures |toks| == |words| && forall i | 0 <= i < |toks| :: toks[i] == (env.index.docFreq(field, words[i]), words[i])
    {
      seq(|words|, i requires 0 <= i < |words| => (env.index.docFreq(field, words[i]), words[i]))
    }

    /** Documents of one filter: its words' postings intersected rarest first, stopping early when a
        word is absent or nothing is left. */
    method FilterDocs(f: MatchAllFilter) returns (r: Option<set<nat>>)
      requires Lawful()
      ensures r.None? <==> analyze(f.text) == []
      ensures r.Some? ==> r.value <= LiveDocs() && forall d: nat :: d in r.value <==> PassesMatchAll(f, d)
      ensures r.None? ==> forall d: nat :: PassesMatchAll(f, d)
    {
      hide Docs, LiveDocs, Lawful;
      var words := analyze(f.text);
      if words == [] {
        return None;
      }
      var toks := Sort(RarerToken, Weighed(f.field, words));
      SortedTokens(f, toks);
      if toks[0].0 == 0 {
        AbsentWord(f.field, toks[0].1);
        return Some({});
      }
      var docs := InAll(f.field, toks);
      return Some(docs);
    }

    method InAll(field: string, toks: seq<(nat, string)>) returns (docs: set<nat>)
      requires Lawful() && toks != []
      ensures docs <= LiveDocs() && forall d: nat :: d in docs <==> forall i | 0 <= i < |toks| :: d in Docs(field, toks[i].1)
    {
      hide Docs, Lawful, LiveDocs;
      docs := DocsOf(field, toks[0].1);
      for k := 1 to |toks|
        invariant docs <= LiveDocs()
        invariant forall d: nat :: d in docs <==> forall i | 0 <= i < k :: d in Docs(field, toks[i].1)
      {
        if docs == {} {
          break;
        }
        var more := DocsOf(field, toks[k].1);
        docs := IntersectInPlace(docs, more);
      }
    }

    method DocsOf(field: string, term: string) returns (docs: set<nat>)
      requires Lawful()
      ensures docs == Docs(field, term) <= LiveDocs()
    {
      var ps := env.index.postings(field, term);
      docs := set i | 0 <= i < |ps| :: ps[i].0;
    }

    lemma {:induction false} AbsentWord(field: string, word: string)
      requires Lawful() && env.index.docFreq(field, word) == 0
      ensures Docs(field, word) == {}
    {
    }

    /** Sorting keeps the words, so the order they are intersected in does not matter. */
    lemma {:induction false} SortedTokens(f: MatchAllFilter, toks: seq<(nat, string)>)
      requires toks == Sort(RarerToken, Weighed(f.field, analyze(f.text)))
      ensures |toks| == |analyze(f.text)|
      ensures forall i | 0 <= i < |toks| :: toks[i].0 == env.index.docFreq(f.field, toks[i].1)
      ensures forall d: nat :: PassesMatchAll(f, d) <==> forall i | 0 <= i < |toks| :: d in Docs(f.field, toks[i].1)
    {
      hide Docs, Sort;
      var words := analyze(f.text);
      var weighed := Weighed(f.field, words);
      SameElements(toks, weighed);
      forall i | 0 <= i < |toks| ensures exists j | 0 <= j < |words| :: toks[i] == weighed[j] {
        var j := IndexOf(weighed, toks[i]);
      }
      forall j | 0 <= j < |words| ensures exists i | 0 <= i < |toks| :: toks[i].1 == words[j] {
        var i := IndexOf(toks, weighed[j]);
      }
    }

    // ----- the list as a restriction -----

    method AllowList(ranges: seq<RangeFilter>, words: seq<MatchAllFilter>) returns (r: Option<set<nat>>)
      requires Lawful()
      ensures Lists(r, (d: nat) => Passes(ranges, words, d))
    {
      hide PassesRange, PassesMatchAll;
      var a := RangeAllowList(ranges);
      var b := MatchAllAllowList(words);
      r := IntersectAllow(a, b);
      if r.Some? {
        forall d: nat | d in r.value ensures d in LiveDocs() {
          assert Allows(a, d) && Allows(b, d);
        }
      }
    }

    /** Only live documents are ever scored. */
    lemma {:induction false} ScoredAreLive(q: Query<S>, d: nat)
      requires Lawful() && env.Matches(q, d)
      ensures Live(d)
      decreases q
    {
      match q {
        case Boolean(clauses) =>
          env.BooleanMatches(clauses, d);
          var i :| 0 <= i < |clauses| && env.Matches(clauses[i].query, d);
          ScoredAreLive(clauses[i].query, d);
        case Boosted(_, inner) => ScoredAreLive(inner, d);
        case MatchAll =>
        case _ => LeafIsLive(q, env.TargetFields(q.field), d);
      }
    }

    lemma {:induction false} LeafIsLive(q: Query<S>, fields: seq<string>, d: nat)
      requires Lawful() && q.Leaf() && env.LeafValues(q, fields, d) != []
      ensures Live(d)
    {
      hide Lawful, Env.FieldValues;
      var before := fields[..|fields| - 1];
      if env.LeafValues(q, before, d) != [] {
        LeafIsLive(q, before, d);
      } else {
        FieldIsLive(q, fields[|fields| - 1], d);
      }
    }

    lemma {:induction false} FieldIsLive(q: Query<S>, field: string, d: nat)
      requires Lawful() && q.Leaf() && env.FieldValues(q, field, d) != []
      ensures Live(d)
    {
      hide Lawful, Scorer.Hits;
      match q {
        case Term(_, text) => TermIsLive(field, text, d);
        case AccentTerm(_, text) => UnionIsLive(field, env.index.accentTerms(field, text), d);
        case Wildcard(_, pattern, n, accents) => UnionIsLive(field, env.index.wildcardTerms(field, pattern, n, accents), d);
        case Fuzzy(_, text, similarity, n, accents) => FuzzyIsLive(field, env.index.fuzzyTerms(field, text, similarity, n, accents), d);
        case Phrase(_, words, accents) => WordIsLive(field, env.Sc().Variants(field, words[0], accents), d);
      }
    }

    lemma {:induction false} TermIsLive(field: string, term: string, d: nat)
      requires Lawful() && env.Sc().TermValues(field, term, d) != []
      ensures Live(d)
    {
      var hits := env.Sc().Hits(field, term);
      assert hits[..|hits|] == hits;
      HitIsPosting(field, term, |hits|, d);
    }

    lemma {:induction false} HitIsPosting(field: string, term: string, k: nat, d: nat)
      requires Lawful() && k <= |env.Sc().Hits(field, term)| && Values(env.Sc().Hits(field, term)[..k], d) != []
      ensures Live(d)
      decreases k
    {
      var hits := env.Sc().Hits(field, term);
      assert hits[..k][..k - 1] == hits[..k - 1];
      if hits[k - 1].0 == d {
        assert env.index.postings(field, term)[k - 1].0 in Docs(field, term);
        LiveIn(d);
      } else {
        HitIsPosting(field, term, k - 1, d);
      }
    }

    lemma {:induction false} UnionIsLive(field: string, ts: seq<string>, d: nat)
      requires Lawful() && env.Sc().UnionValues(field, ts, d) != []
      ensures Live(d)
    {
      hide Lawful, Scorer.Hits;
      if env.Sc().TermValues(field, ts[|ts| - 1], d) != [] {
        TermIsLive(field, ts[|ts| - 1], d);
      } else {
        UnionIsLive(field, ts[..|ts| - 1], d);
      }
    }

    lemma {:induction false} FuzzyIsLive(field: string, ts: seq<(string, S)>, d: nat)
      requires Lawful() && env.Sc().FuzzyValues(field, ts, d) != []
      ensures Live(d)
    {
      hide Lawful, Scorer.Hits;
      if env.Sc().TermValues(field, ts[|ts| - 1].0, d) != [] {
        TermIsLive(field, ts[|ts| - 1].0, d);
      } else {
        FuzzyIsLive(field, ts[..|ts| - 1], d);
      }
    }

    lemma {:induction false} WordIsLive(field: string, variants: seq<string>, d: nat)
      requires Lawful() && env.Sc().WordPositions(field, variants, d).Some?
      ensures Live(d)
    {
      var last := env.index.positions(field, variants[|variants| - 1]);
      if d in last {
        LiveIn(d);
      } else {
        WordIsLive(field, variants[..|variants| - 1], d);
      }
    }

    /** Evaluating under the allow-list gives the unrestricted result filtered to the live documents that
        pass every filter, whatever was short-circuited, reordered or collapsed on the way. */
    lemma {:induction false} AllowListFilters(q: Query<S>, list: Option<set<nat>>, r: map<nat, S>, ranges: seq<RangeFilter>, words: seq<MatchAllFilter>, d: nat)
      requires Lawful() && Lists(list, (d: nat) => Passes(ranges, words, d)) && env.Evaluates(r, q, list)
      ensures Get(r, d) == if Live(d) && Passes(ranges, words, d) then env.Score(q, d) else None
    {
      hide Lawful, Passes, Env.Score;
      if env.Score(q, d).Some? {
        ScoredAreLive(q, d);
      }
    }
  }

  lemma {:induction false} SubsetOfSize(a: set<nat>, b: set<nat>)
    requires a <= b && |a| == |b|
    ensures a == b
  {
    if x :| x in b && x !in a {
      assert a <= b - {x};
      SubsetSize(a, b - {x});
    }
  }

  lemma {:induction false} SubsetSize(a: set<nat>, b: set<nat>)
    requires a <= b
    ensures |a| <= |b|
  {
    if a != {} {
      var x :| x in a;
      SubsetSize(a - {x}, b - {x});
    }
  }
}
