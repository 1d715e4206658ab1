/** Reciprocal rank fusion: several ranked lists into one, by ranks only. */
module Hybrid {
  import opened Wrappers
  import opened Sorting
  import opened Ranking

  predicate DistinctHits(hits: seq<Hit>) {
    forall i, j | 0 <= i < j < |hits| :: hits[i].id != hits[j].id
  }

  // ----- what fusion means -----

  /** The hit of a document in a list that holds it at most once, with its position. */
  function PlaceIn(list: seq<Hit>, id: nat): (r: Option<nat>)
    ensures r.Some? ==> r.value < |list| && list[r.value].id == id
    ensures r.None? ==> forall i | 0 <= i < |list| :: list[i].id != id
  {
    if list == [] then None
    else if list[|list| - 1].id == id then Some(|list| - 1)
    else PlaceIn(list[..|list| - 1], id)
  }

  /** What position `i`, counted from zero, is worth. */
  function Contribution(k: nat, i: nat): real {
    1.0 / ((k + i + 1) as real)
  }

  function Score(rankings: seq<seq<Hit>>, k: nat, id: nat): real {
    if rankings == [] then 0.0
    else
      var place := PlaceIn(rankings[|rankings| - 1], id);
      Score(rankings[..|rankings| - 1], k, id) + if place.Some? then Contribution(k, place.value) else 0.0
  }

  /** The hit of the first list that holds the document. */
  function First(rankings: seq<seq<Hit>>, id: nat): (r: Option<Hit>)
    ensures r.Some? ==> r.value.id == id
    ensures r.Some? <==> exists i, j | 0 <= i < |rankings| && 0 <= j < |rankings[i]| :: rankings[i][j].id == id
  {
    if rankings == [] then None
    else
      var n := |rankings| - 1;
      var before, place := First(rankings[..n], id), PlaceIn(rankings[n], id);
      assert forall i | 0 <= i < n :: rankings[..n][i] == rankings[i];
      if before.Some? then before else if place.Some? then Some(rankings[n][place.value]) else None
  }

  function Fused(rankings: seq<seq<Hit>>, k: nat, id: nat): (h: Hit)
    requires First(rankings, id).Some?
    ensures h.id == id
  {
    Hit(id, Score(rankings, k, id), First(rankings, id).value.fields)
  }

  predicate BetterHit(a: Hit, b: Hit) {
    a.score > b.score || (a.score == b.score && a.id < b.id)
  }

  // ----- the fusion -----

  /** The two maps over the lists so far. */
  ghost predicate Holds(scores: map<nat, real>, repr: map<nat, Hit>, rankings: seq<seq<Hit>>, k: nat) {
    && (forall id: nat :: (id in scores <==> First(rankings, id).Some?) && (id in repr <==> First(rankings, id).Some?))
    && (forall id: nat | id in scores :: scores[id] == Score(rankings, k, id))
    && (forall id: nat | id in repr :: Some(repr[id]) == First(rankings, id))
  }

  /** One list more: each of its hits contributes by rank, and represents its document if none did. */
  method AddList(scores: map<nat, real>, repr: map<nat, Hit>, ghost rankings: seq<seq<Hit>>, list: seq<Hit>, k: nat)
    returns (scores': map<nat, real>, repr': map<nat, Hit>)
    requires Holds(scores, repr, rankings, k) && DistinctHits(list)
    ensures Holds(scores', repr', rankings + [list], k)
  {
    hide Score, First, Contribution, PlaceIn, Adding, Holds;
    scores', repr' := scores, repr;
    NothingAdded(scores, repr, list, k);
    for i := 0 to |list|
      invariant Adding(scores', repr', scores, repr, list, k, i)
    {
      var hit := list[i];
      AddingStep(scores', repr', scores, repr, list, k, i);
      scores' := scores'[hit.id := (if hit.id in scores' then scores'[hit.id] else 0.0) + Contribution(k, i)];
      if hit.id !in repr' {
        repr' := repr'[hit.id := hit];
      }
    }
    ListAdded(scores', repr', scores, repr, rankings, list, k);
  }

  /** The maps after the first `i` hits of the list. */
  ghost predicate Adding(scores': map<nat, real>, repr': map<nat, Hit>, scores: map<nat, real>, repr: map<nat, Hit>, list: seq<Hit>, k: nat, i: nat) {
    forall id: nat ::
      && (id in scores' <==> id in scores || Early(list, id, i))
      && (id in repr' <==> id in repr || Early(list, id, i))
      && (id in scores' ==>
            scores'[id] == (if id in scores then scores[id] else 0.0) + (if Early(list, id, i) then Contribution(k, PlaceIn(list, id).value) else 0.0))
      && (id in repr' ==> repr'[id] == if id in repr then repr[id] else list[PlaceIn(list, id).value])
  }

  lemma {:induction false} NothingAdded(scores: map<nat, real>, repr: map<nat, Hit>, list: seq<Hit>, k: nat)
    ensures Adding(scores, repr, scores, repr, list, k, 0)
  {
    hide Contribution, PlaceIn;
  }

  lemma {:induction false} AddingStep(scores': map<nat, real>, repr': map<nat, Hit>, scores: map<nat, real>, repr: map<nat, Hit>, list: seq<Hit>, k: nat, i: nat)
    requires Adding(scores', repr', scores, repr, list, k, i) && DistinctHits(list) && i < |list|
    ensures var hit := list[i];
            var s := scores'[hit.id := (if hit.id in scores' then scores'[hit.id] else 0.0) + Contribution(k, i)];
            Adding(s, if hit.id in repr' then repr' else repr'[hit.id := hit], scores, repr, list, k, i + 1)
  {
    hide Contribution, PlaceIn, Early;
    var hit := list[i];
    PlaceIs(list, i);
    forall id: nat ensures Early(list, id, i + 1) <==> Early(list, id, i) || id == hit.id
                   ensures !Early(list, hit.id, i) {
      OneMoreEarly(list, id, i);
    }
  }

  lemma {:induction false} ListAdded(scores': map<nat, real>, repr': map<nat, Hit>, scores: map<nat, real>, repr: map<nat, Hit>,
                                     rankings: seq<seq<Hit>>, list: seq<Hit>, k: nat)
    requires Holds(scores, repr, rankings, k) && Adding(scores', repr', scores, repr, list, k, |list|)
    ensures Holds(scores', repr', rankings + [list], k)
  {
    hide Score, First, Contribution, PlaceIn;
    forall id: nat
      ensures (id in scores' <==> First(rankings + [list], id).Some?) && (id in repr' <==> First(rankings + [list], id).Some?)
      ensures id in scores' ==> scores'[id] == Score(rankings + [list], k, id)
      ensures id in repr' ==> Some(repr'[id]) == First(rankings + [list], id)
    {
      OneListMore(rankings, list, k, id);
      assert Early(list, id, |list|) <==> PlaceIn(list, id).Some?;
    }
  }

  /** The document's place in the list is below `i`. */
  predicate Early(list: seq<Hit>, id: nat, i: nat) {
    PlaceIn(list, id).Some? && PlaceIn(list, id).value < i
  }

  lemma {:induction false} OneMoreEarly(list: seq<Hit>, id: nat, i: nat)
    requires DistinctHits(list) && i < |list|
    ensures Early(list, id, i + 1) <==> Early(list, id, i) || id == list[i].id
    ensures !Early(list, list[i].id, i)
  {
    hide PlaceIn;
    PlaceIs(list, i);
    if PlaceIn(list, id) == Some(i) {
      assert id == list[i].id;
    }
  }

  lemma {:induction false} PlaceIs(list: seq<Hit>, i: nat)
    requires DistinctHits(list) && i < |list|
    ensures PlaceIn(list, list[i].id) == Some(i)
  {
  }

  lemma {:induction false} OneListMore(rankings: seq<seq<Hit>>, list: seq<Hit>, k: nat, id: nat)
    ensures var place := PlaceIn(list, id);
            && Score(rankings + [list], k, id) == Score(rankings, k, id) + (if place.Some? then Contribution(k, place.value) else 0.0)
            && First(rankings + [list], id)
            == (if First(rankings, id).Some? then First(rankings, id) else if place.Some? then Some(list[place.value]) else None)
            && (First(rankings, id).None? ==> Score(rankings, k, id) == 0.0)
  {
    assert (rankings + [list])[..|rankings|] == rankings;
    Unlisted(rankings, k, id);
  }

  lemma {:induction false} Unlisted(rankings: seq<seq<Hit>>, k: nat, id: nat)
    ensures First(rankings, id).None? ==> Score(rankings, k, id) == 0.0
  {
    if rankings != [] {
      Unlisted(rankings[..|rankings| - 1], k, id);
    }
  }

  lemma {:induction false} BetterHitOrders(hits: seq<Hit>)
    requires DistinctHits(hits)
    ensures StrictOrder(BetterHit) && Distinguishes(BetterHit, hits)
  {
  }

  /** One hit per document of any list, with its summed score and the fields of the first list that holds
      it, best first; `limit` zero means all. */
  ghost predicate IsFusion(fused: seq<Hit>, rankings: seq<seq<Hit>>, k: nat, limit: nat) {
    && Ascends(BetterHit, fused) && DistinctHits(fused)
    && (forall i | 0 <= i < |fused| :: First(rankings, fused[i].id).Some? && fused[i] == Fused(rankings, k, fused[i].id))
    && (limit > 0 ==> |fused| <= limit)
    && forall id: nat | First(rankings, id).Some? ::
         (exists i | 0 <= i < |fused| :: fused[i].id == id)
         || (limit > 0 && |fused| == limit && forall i | 0 <= i < |fused| :: BetterHit(fused[i], Fused(rankings, k, id)))
  }

  method FuseRrf(rankings: seq<seq<Hit>>, k: nat, limit: nat) returns (fused: seq<Hit>)
    requires forall i | 0 <= i < |rankings| :: DistinctHits(rankings[i])
    ensures IsFusion(fused, rankings, k, limit)
  {
    hide Score, First, Contribution, PlaceIn, Holds, Sort, BetterHit;
    var scores: map<nat, real>, repr: map<nat, Hit> := map[], map[];
    NoLists(k);
    assert rankings[..0] == [];
    for i := 0 to |rankings|
      invariant Holds(scores, repr, rankings[..i], k)
    {
      assert rankings[..i + 1] == rankings[..i] + [rankings[i]];
      scores, repr := AddList(scores, repr, rankings[..i], rankings[i], k);
    }
    assert rankings[..|rankings|] == rankings;
    var all := Collect(scores, repr, rankings, k);
    BetterHitOrders(all);
    SortAscends(BetterHit, all);
    fused := Sort(BetterHit, all);
    SameElements(fused, all);
    if limit != 0 && |fused| > limit {
      fused := fused[..limit];
    }
    Listed(rankings, k, all, fused, limit);
  }

  lemma {:induction false} NoLists(k: nat)
    ensures Holds(map[], map[], [], k)
  {
  }

  lemma {:induction false} Held(scores: map<nat, real>, repr: map<nat, Hit>, rankings: seq<seq<Hit>>, k: nat, id: nat)
    requires Holds(scores, repr, rankings, k)
    ensures id in repr <==> First(rankings, id).Some?
    ensures id in repr ==> id in scores && Hit(repr[id].id, scores[id], repr[id].fields) == Fused(rankings, k, id)
  {
    hide Score, First;
  }

  /** The representatives with their scores, in no particular order. */
  method Collect(scores: map<nat, real>, repr: map<nat, Hit>, ghost rankings: seq<seq<Hit>>, k: nat) returns (all: seq<Hit>)
    requires Holds(scores, repr, rankings, k)
    ensures DistinctHits(all)
    ensures forall i | 0 <= i < |all| :: First(rankings, all[i].id).Some? && all[i] == Fused(rankings, k, all[i].id)
    ensures forall id: nat | First(rankings, id).Some? :: exists i | 0 <= i < |all| :: all[i].id == id
  {
    hide Score, First, Holds, Fused;
    forall id: nat ensures id in repr <==> First(rankings, id).Some?
                   ensures id in repr ==> id in scores && Hit(repr[id].id, scores[id], repr[id].fields) == Fused(rankings, k, id) {
      Held(scores, repr, rankings, k, id);
    }
    all := [];
    var left := repr.Keys;
    while left != {}
      invariant left <= repr.Keys && DistinctHits(all)
      invariant forall i | 0 <= i < |all| :: all[i].id in repr && all[i].id !in left && all[i] == Fused(rankings, k, all[i].id)
      invariant forall id: nat | id in repr && id !in left :: exists i | 0 <= i < |all| :: all[i].id == id
      decreases |left|
    {
      var id :| id in left;
      var hit := Hit(repr[id].id, scores[id], repr[id].fields);
      ghost var before := all;
      all := all + [hit];
      left := left - {id};
      forall e: nat | e in repr && e !in left ensures exists i | 0 <= i < |all| :: all[i].id == e {
        if e == id {
          assert all[|before|].id == e;
        } else {
          var i :| 0 <= i < |before| && before[i].id == e;
          assert all[i].id == e;
        }
      }
    }
  }

  /** What cutting the sorted list leaves. */
  lemma {:induction false} Listed(rankings: seq<seq<Hit>>, k: nat, all: seq<Hit>, fused: seq<Hit>, limit: nat)
    requires DistinctHits(all) && Ascends(BetterHit, Sort(BetterHit, all))
    requires forall i | 0 <= i < |all| :: First(rankings, all[i].id).Some? && all[i] == Fused(rankings, k, all[i].id)
    requires forall id: nat | First(rankings, id).Some? :: exists i | 0 <= i < |all| :: all[i].id == id
    requires fused == if limit != 0 && |all| > limit then Sort(BetterHit, all)[..limit] else Sort(BetterHit, all)
    ensures Ascends(BetterHit, fused) && DistinctHits(fused)
    ensures forall i | 0 <= i < |fused| :: First(rankings, fused[i].id).Some? && fused[i] == Fused(rankings, k, fused[i].id)
    ensures forall id: nat | First(rankings, id).Some? ::
              (exists i | 0 <= i < |fused| :: fused[i].id == id)
              || (limit > 0 && |fused| == limit && forall i | 0 <= i < |fused| :: BetterHit(fused[i], Fused(rankings, k, id)))
  {
    hide Score, First, Sort, Fused;
    var sorted := Sort(BetterHit, all);
    SameElements(sorted, all);
    forall i | 0 <= i < |fused| ensures First(rankings, fused[i].id).Some? && fused[i] == Fused(rankings, k, fused[i].id) {
      assert sorted[i] in all;
    }
    forall i, j | 0 <= i < j < |fused| ensures fused[i].id != fused[j].id {
      assert BetterHit(sorted[i], sorted[j]);
    }
    forall id: nat | First(rankings, id).Some?
      ensures (exists i | 0 <= i < |fused| :: fused[i].id == id)
           || (limit > 0 && |fused| == limit && forall i | 0 <= i < |fused| :: BetterHit(fused[i], Fused(rankings, k, id)))
    {
      var a :| 0 <= a < |all| && all[a].id == id;
      assert all[a] in sorted;
      var s: nat :| s < |sorted| && sorted[s] == all[a];
      if s < |fused| {
        assert fused[s].id == id;
      } else {
        forall i | 0 <= i < |fused| ensures BetterHit(fused[i], Fused(rankings, k, id)) {
          assert BetterHit(sorted[i], sorted[s]);
        }
      }
    }
  }

  lemma {:induction false} FirstOfTwo(a: seq<Hit>, b: seq<Hit>, id: nat)
    ensures First([a, b], id).Some? <==> (exists j | 0 <= j < |a| :: a[j].id == id) || (exists j | 0 <= j < |b| :: b[j].id == id)
  {
    hide First;
    var rankings := [a, b];
    assert rankings[0] == a && rankings[1] == b;
  }

  // ----- what the fused ranking says -----

  function Total(xs: seq<real>): real {
    if xs == [] then 0.0 else Total(xs[..|xs| - 1]) + xs[|xs| - 1]
  }

  /** What a list says of a document: nothing, or a share that shrinks with its place, counted from one. */
  ghost predicate IsShare(x: real, list: seq<Hit>, k: nat, id: nat) {
    && (forall i | 0 <= i < |list| && list[i].id == id :: x * ((k + i + 1) as real) == 1.0)
    && ((forall i | 0 <= i < |list| :: list[i].id != id) ==> x == 0.0)
  }

  lemma {:induction false} ShareIs(list: seq<Hit>, k: nat, id: nat)
    requires DistinctHits(list)
    ensures var place := PlaceIn(list, id);
            IsShare(if place.Some? then Contribution(k, place.value) else 0.0, list, k, id)
  {
    hide PlaceIn;
    forall i | 0 <= i < |list| && list[i].id == id ensures PlaceIn(list, id) == Some(i) && Contribution(k, i) * ((k + i + 1) as real) == 1.0 {
      PlaceIs(list, i);
      Inverted((k + i + 1) as real);
    }
  }

  lemma {:induction false} Inverted(x: real)
    requires x > 0.0
    ensures 1.0 / x * x == 1.0
  {
  }

  /** A document's score is the sum of what each list says of it. */
  lemma {:induction false} ScoreIsTotal(rankings: seq<seq<Hit>>, k: nat, id: nat, shares: seq<real>)
    requires forall i | 0 <= i < |rankings| :: DistinctHits(rankings[i])
    requires |shares| == |rankings| && forall i | 0 <= i < |shares| :: IsShare(shares[i], rankings[i], k, id)
    ensures Score(rankings, k, id) == Total(shares)
  {
    hide Contribution, PlaceIn;
    if rankings != [] {
      var n := |rankings| - 1;
      ScoreIsTotal(rankings[..n], k, id, shares[..n]);
      ShareIs(rankings[n], k, id);
      OneShare(shares[n], if PlaceIn(rankings[n], id).Some? then Contribution(k, PlaceIn(rankings[n], id).value) else 0.0, rankings[n], k, id);
    }
  }

  lemma {:induction false} OneShare(x: real, y: real, list: seq<Hit>, k: nat, id: nat)
    requires IsShare(x, list, k, id) && IsShare(y, list, k, id)
    ensures x == y
  {
    if i :| 0 <= i < |list| && list[i].id == id {
      SameQuotient(x, y, (k + i + 1) as real);
    }
  }

  lemma {:induction false} SameQuotient(x: real, y: real, w: real)
    requires w > 0.0 && x * w == y * w
    ensures x == y
  {
    assert (x - y) * w == 0.0;
    if x - y > 0.0 {
      Positive(x - y, w);
    } else if x - y < 0.0 {
      Positive(y - x, w);
    }
  }

  lemma {:induction false} Positive(x: real, w: real)
    requires x > 0.0 && w > 0.0
    ensures x * w > 0.0
  {
  }

  /** The list does not rank `b` without ranking `a` before it. */
  ghost predicate Before(list: seq<Hit>, a: nat, b: nat) {
    forall j | 0 <= j < |list| && list[j].id == b :: exists i | 0 <= i < j :: list[i].id == a
  }

  ghost predicate Ranks(list: seq<Hit>, id: nat) {
    exists i | 0 <= i < |list| :: list[i].id == id
  }

  /** A document that stands before another in every list, or alone in it, outscores the other. */
  lemma {:induction false} EarlierOutscores(rankings: seq<seq<Hit>>, k: nat, a: nat, b: nat)
    requires a != b && forall i | 0 <= i < |rankings| :: DistinctHits(rankings[i]) && Before(rankings[i], a, b)
    ensures Score(rankings, k, a) >= Score(rankings, k, b)
    ensures (exists i | 0 <= i < |rankings| :: Ranks(rankings[i], a)) ==> Score(rankings, k, a) > Score(rankings, k, b)
  {
    hide Contribution, PlaceIn, Ranks, Before;
    if rankings != [] {
      var n := |rankings| - 1;
      EarlierOutscores(rankings[..n], k, a, b);
      LargerShare(rankings[n], k, a, b);
      if i :| 0 <= i < n && Ranks(rankings[i], a) {
        assert Ranks(rankings[..n][i], a);
      }
    }
  }

  lemma {:induction false} LargerShare(list: seq<Hit>, k: nat, a: nat, b: nat)
    requires a != b && DistinctHits(list) && Before(list, a, b)
    ensures var x := if PlaceIn(list, a).Some? then Contribution(k, PlaceIn(list, a).value) else 0.0;
            var y := if PlaceIn(list, b).Some? then Contribution(k, PlaceIn(list, b).value) else 0.0;
            x >= y && (Ranks(list, a) ==> x > y)
  {
    hide PlaceIn;
    if PlaceIn(list, b).Some? {
      var j := PlaceIn(list, b).value;
      var i :| 0 <= i < j && list[i].id == a;
      PlaceIs(list, i);
      SmallerQuotient((k + i + 1) as real, (k + j + 1) as real);
    } else if PlaceIn(list, a).Some? {
      Reciprocal((k + PlaceIn(list, a).value + 1) as real);
    }
  }

  lemma {:induction false} Reciprocal(x: real)
    requires x > 0.0
    ensures 1.0 / x > 0.0
  {
  }

  lemma {:induction false} SmallerQuotient(x: real, y: real)
    requires 0.0 < x < y
    ensures 1.0 / x > 1.0 / y
  {
    var a, b := 1.0 / x, 1.0 / y;
    Reciprocal(x);
    assert a * x == 1.0 && b * y == 1.0;
    if a <= b {
      Positive(b, y - x);
      Scaled(a, b, x);
    }
  }

  lemma {:induction false} Scaled(a: real, b: real, x: real)
    requires 0.0 < a <= b && x > 0.0
    ensures a * x <= b * x
  {
  }

  /** Everywhere earlier means earlier in the fusion. */
  lemma {:induction false} EarlierStays(rankings: seq<seq<Hit>>, k: nat, limit: nat, fused: seq<Hit>, a: nat, j: nat)
    requires IsFusion(fused, rankings, k, limit) && j < |fused| && a != fused[j].id
    requires forall i | 0 <= i < |rankings| :: DistinctHits(rankings[i]) && Before(rankings[i], a, fused[j].id)
    ensures exists i | 0 <= i < j :: fused[i].id == a
  {
    hide Score, Before, First, Fused;
    var b := fused[j].id;
    SomewhereBefore(rankings, a, b);
    EarlierOutscores(rankings, k, a, b);
    assert BetterHit(Fused(rankings, k, a), fused[j]) && !BetterHit(fused[j], Fused(rankings, k, a)) by {
      FusedScores(rankings, k, a);
      FusedScores(rankings, k, b);
    }
    var i :| 0 <= i < |fused| && fused[i].id == a;
    LaterIsWorse(fused, j, i);
  }

  lemma {:induction false} LaterIsWorse(fused: seq<Hit>, i: nat, j: nat)
    requires Ascends(BetterHit, fused) && i < |fused| && j < |fused|
    ensures i < j ==> BetterHit(fused[i], fused[j])
  {
    hide BetterHit;
  }

  lemma {:induction false} FusedScores(rankings: seq<seq<Hit>>, k: nat, id: nat)
    requires First(rankings, id).Some?
    ensures Fused(rankings, k, id).score == Score(rankings, k, id)
  {
    hide Score, First;
  }

  lemma {:induction false} SomewhereBefore(rankings: seq<seq<Hit>>, a: nat, b: nat)
    requires First(rankings, b).Some? && forall i | 0 <= i < |rankings| :: Before(rankings[i], a, b)
    ensures First(rankings, a).Some? && exists i | 0 <= i < |rankings| :: Ranks(rankings[i], a)
  {
    hide First;
    var i, j :| 0 <= i < |rankings| && 0 <= j < |rankings[i]| && rankings[i][j].id == b;
    var e :| 0 <= e < j && rankings[i][e].id == a;
    assert Ranks(rankings[i], a);
  }

  /** Fusing one list keeps its hits in order, cut at the limit; the hit at place `i` scores one over
      `k` plus its rank. */
  lemma {:induction false} OneListKept(list: seq<Hit>, k: nat, limit: nat, fused: seq<Hit>)
    requires DistinctHits(list) && IsFusion(fused, [list], k, limit)
    ensures |fused| == if limit == 0 || limit >= |list| then |list| else limit
    ensures forall i | 0 <= i < |fused| ::
              fused[i].id == list[i].id && fused[i].fields == list[i].fields && fused[i].score * ((k + i + 1) as real) == 1.0
  {
    hide IsFusion, Contribution, BetterHit;
    var expected := InOrder(list, k);
    InOrderAscends(list, k);
    BetterHitOrders(list);
    FusedWithin(list, k, limit, fused);
    forall j | 0 <= j < |expected| && expected[j] !in fused
      ensures limit > 0 && |fused| == limit && forall x | x in fused :: BetterHit(x, expected[j])
    {
      NotFused(list, k, limit, fused, expected, j);
    }
    LeadingPrefix(BetterHit, fused, expected);
    if |fused| < |list| {
      NextMissing(fused, expected, list);
    }
    forall i | 0 <= i < |fused| ensures fused[i].score * ((k + i + 1) as real) == 1.0 {
      assert fused[i] == expected[i];
      ContributionIs(k, i);
    }
  }

  lemma {:induction false} FusedWithin(list: seq<Hit>, k: nat, limit: nat, fused: seq<Hit>)
    requires DistinctHits(list) && IsFusion(fused, [list], k, limit)
    ensures Ascends(BetterHit, fused) && (limit > 0 ==> |fused| <= limit)
    ensures forall x | x in fused :: x in InOrder(list, k)
  {
    hide Score, First, Contribution, PlaceIn, BetterHit, Fused;
    forall x | x in fused ensures x in InOrder(list, k) {
      var i :| 0 <= i < |fused| && fused[i] == x;
      SingleFused(list, k, fused[i].id);
      var j :| 0 <= j < |list| && list[j].id == fused[i].id;
      assert InOrder(list, k)[j] == x;
    }
  }

  lemma {:induction false} ContributionIs(k: nat, i: nat)
    ensures Contribution(k, i) * ((k + i + 1) as real) == 1.0
  {
    Inverted((k + i + 1) as real);
  }

  /** The hits with their shares by place. */
  ghost function InOrder(list: seq<Hit>, k: nat): (es: seq<Hit>)
    ensures |es| == |list| && forall i | 0 <= i < |es| :: es[i] == Hit(list[i].id, Contribution(k, i), list[i].fields)
  {
    seq(|list|, i requires 0 <= i < |list| => Hit(list[i].id, Contribution(k, i), list[i].fields))
  }

  lemma {:induction false} InOrderAscends(list: seq<Hit>, k: nat)
    ensures Ascends(BetterHit, InOrder(list, k))
  {
    forall i, j | 0 <= i < j < |list| ensures Contribution(k, i) > Contribution(k, j) {
      SmallerQuotient((k + i + 1) as real, (k + j + 1) as real);
    }
  }

  lemma {:induction false} SingleFused(list: seq<Hit>, k: nat, id: nat)
    requires DistinctHits(list)
    ensures First([list], id).Some? <==> Ranks(list, id)
    ensures forall j | 0 <= j < |list| && list[j].id == id :: First([list], id).Some? && Fused([list], k, id) == Hit(id, Contribution(k, j), list[j].fields)
  {
    hide Contribution;
    OneListMore([], list, k, id);
    assert [] + [list] == [list];
    forall j | 0 <= j < |list| && list[j].id == id ensures PlaceIn(list, id) == Some(j) {
      PlaceIs(list, j);
    }
  }

  lemma {:induction false} NotFused(list: seq<Hit>, k: nat, limit: nat, fused: seq<Hit>, expected: seq<Hit>, j: nat)
    requires DistinctHits(list) && IsFusion(fused, [list], k, limit) && expected == InOrder(list, k)
    requires j < |expected| && expected[j] !in fused
    ensures limit > 0 && |fused| == limit && forall x | x in fused :: BetterHit(x, expected[j])
  {
    hide Score, First, Contribution, PlaceIn, BetterHit, Fused;
    SingleFused(list, k, list[j].id);
    assert Fused([list], k, list[j].id) == expected[j];
    forall i | 0 <= i < |fused| ensures fused[i].id != list[j].id {
      assert fused[i] in fused;
    }
  }

  lemma {:induction false} NextMissing(fused: seq<Hit>, expected: seq<Hit>, list: seq<Hit>)
    requires DistinctHits(list) && |expected| == |list| && forall i | 0 <= i < |list| :: expected[i].id == list[i].id
    requires |fused| < |expected| && fused == expected[..|fused|]
    ensures expected[|fused|] !in fused
  {
    forall i | 0 <= i < |fused| ensures fused[i] != expected[|fused|] {
      assert fused[i].id == list[i].id;
    }
  }
}
