/** Where each hit of a page stands: how many matches come before it, counted over all matches, with no
    sorting in sight. */
module Pages {
  import opened Wrappers
  import opened Sorting
  import opened Ranking

  lemma {:induction false} DistinctCount(ids: seq<nat>)
    requires forall i, j | 0 <= i < j < |ids| :: ids[i] != ids[j]
    ensures |set i | 0 <= i < |ids| :: ids[i]| == |ids|
  {
    var all := set i | 0 <= i < |ids| :: ids[i];
    if ids == [] {
      assert all == {};
    } else {
      var n := |ids| - 1;
      DistinctCount(ids[..n]);
      var before := set i | 0 <= i < n :: ids[..n][i];
      assert all == before + {ids[n]};
    }
  }

  /** The page is cut from `count` matches. */
  predicate IsCut(size: nat, count: nat, offset: nat, limit: nat) {
    if count <= offset then size == 0 else if count - offset <= limit then size == count - offset else size == limit
  }

  // ----- by relevance -----

  /** The matches at or above the threshold. */
  function Kept(xs: seq<Scored>, minScore: real): set<nat> {
    set i | 0 <= i < |xs| && xs[i].score >= minScore :: xs[i].id
  }

  /** Those of them that come before a hit. */
  function BeforeHit(xs: seq<Scored>, minScore: real, h: Hit): set<nat> {
    set i | 0 <= i < |xs| && xs[i].score >= minScore && Outranks(xs[i].score, xs[i].id, h.score, h.id) :: xs[i].id
  }

  /** The hit is a match at or above the threshold, with its stored fields. */
  ghost predicate IsMatch(h: Hit, xs: seq<Scored>, minScore: real, stored: nat -> map<string, string>) {
    h.score >= minScore && h.fields == stored(h.id) && exists j | 0 <= j < |xs| :: xs[j] == Scored(h.id, h.score)
  }

  lemma {:induction false} SortedIds(xs: seq<Scored>, minScore: real, sorted: seq<Scored>)
    requires DistinctIds(xs) && sorted == Sort(Better, AtLeast(xs, minScore))
    ensures forall i, j | 0 <= i < j < |sorted| :: sorted[i].id != sorted[j].id
  {
    hide Sort, AtLeast, Better;
    SortedOutranks(xs, minScore);
    forall i, j | 0 <= i < j < |sorted| ensures sorted[i].id != sorted[j].id {
      assert sorted[i] in sorted && sorted[j] in sorted;
      var a, b := IndexOf(xs, sorted[i]), IndexOf(xs, sorted[j]);
      assert Outranks(sorted[i].score, sorted[i].id, sorted[j].score, sorted[j].id);
    }
  }

  /** A page by relevance has as many hits as the matches leave from `offset` on, up to `limit`; the hit at
      place `i` has exactly `offset + i` matches before it. */
  lemma {:induction false} RelevancePlaces(xs: seq<Scored>, stored: nat -> map<string, string>, minScore: real, offset: nat, limit: nat)
    requires DistinctIds(xs)
    ensures var hits := Hydrate(Page(Sort(Better, AtLeast(xs, minScore)), offset, limit), stored);
            && IsCut(|hits|, |Kept(xs, minScore)|, offset, limit)
            && forall i | 0 <= i < |hits| :: IsMatch(hits[i], xs, minScore, stored) && |BeforeHit(xs, minScore, hits[i])| == offset + i
  {
    hide Sort, AtLeast, Better, Outranks, DistinctIds;
    var sorted := Sort(Better, AtLeast(xs, minScore));
    var hits := Hydrate(Page(sorted, offset, limit), stored);
    SortedOutranks(xs, minScore);
    SortedIds(xs, minScore, sorted);
    KeptCount(xs, minScore, sorted);
    forall i | 0 <= i < |hits| ensures IsMatch(hits[i], xs, minScore, stored) && |BeforeHit(xs, minScore, hits[i])| == offset + i {
      assert sorted[offset + i] in sorted;
      var j := IndexOf(xs, sorted[offset + i]);
      BeforeCount(xs, minScore, sorted, offset + i, hits[i]);
    }
  }

  lemma {:induction false} KeptCount(xs: seq<Scored>, minScore: real, sorted: seq<Scored>)
    requires forall x :: x in sorted <==> x in xs && x.score >= minScore
    requires forall i, j | 0 <= i < j < |sorted| :: sorted[i].id != sorted[j].id
    ensures |Kept(xs, minScore)| == |sorted|
  {
    var ids := seq(|sorted|, i requires 0 <= i < |sorted| => sorted[i].id);
    DistinctCount(ids);
    forall d: nat ensures d in Kept(xs, minScore) <==> d in set i | 0 <= i < |ids| :: ids[i] {
      if i :| 0 <= i < |xs| && xs[i].score >= minScore && xs[i].id == d {
        assert xs[i] in sorted;
        var k := IndexOf(sorted, xs[i]);
        assert ids[k] == d;
      }
      if k :| 0 <= k < |ids| && ids[k] == d {
        assert sorted[k] in sorted;
        var i := IndexOf(xs, sorted[k]);
      }
    }
    assert Kept(xs, minScore) == set i | 0 <= i < |ids| :: ids[i];
  }

  lemma {:induction false} LaterRanked(sorted: seq<Scored>, p: nat, k: nat)
    requires p < |sorted| && k < |sorted|
    requires forall i, j | 0 <= i < j < |sorted| :: Outranks(sorted[i].score, sorted[i].id, sorted[j].score, sorted[j].id)
    ensures p < k ==> Outranks(sorted[p].score, sorted[p].id, sorted[k].score, sorted[k].id)
  {
    hide Outranks;
  }

  lemma {:induction false} BeforeCount(xs: seq<Scored>, minScore: real, sorted: seq<Scored>, p: nat, h: Hit)
    requires p < |sorted| && h.id == sorted[p].id && h.score == sorted[p].score
    requires forall x :: x in sorted <==> x in xs && x.score >= minScore
    requires forall i, j | 0 <= i < j < |sorted| :: sorted[i].id != sorted[j].id
    requires forall i, j | 0 <= i < j < |sorted| :: Outranks(sorted[i].score, sorted[i].id, sorted[j].score, sorted[j].id)
    ensures |BeforeHit(xs, minScore, h)| == p
  {
    var ids := seq(p, i requires 0 <= i < p => sorted[i].id);
    DistinctCount(ids);
    forall d: nat ensures d in BeforeHit(xs, minScore, h) <==> d in set i | 0 <= i < |ids| :: ids[i] {
      if i :| 0 <= i < |xs| && xs[i].score >= minScore && Outranks(xs[i].score, xs[i].id, h.score, h.id) && xs[i].id == d {
        assert xs[i] in sorted;
        var k := IndexOf(sorted, xs[i]);
        LaterRanked(sorted, p, k);
        assert ids[k] == d;
      }
      if k :| 0 <= k < |ids| && ids[k] == d {
        assert sorted[k] in sorted;
        var i := IndexOf(xs, sorted[k]);
      }
    }
    assert BeforeHit(xs, minScore, h) == set i | 0 <= i < |ids| :: ids[i];
  }

  // ----- by a field -----

  /** The matches at or above the threshold that come before a hit by their keys. */
  ghost function BeforeByKey(xs: seq<Scored>, source: SortSource, table: Option<seq<Option<int>>>, minScore: real, ascending: bool, h: Hit): set<nat> {
    set i | 0 <= i < |xs| && xs[i].score >= minScore && Stands(ascending, source.EntryOf(table, xs[i]), source.EntryOf(table, Scored(h.id, h.score))) ::
      xs[i].id
  }

  /** The sorted entries are those of the kept matches, each before the later ones. */
  lemma {:induction false} SortedStands(xs: seq<Scored>, source: SortSource, table: Option<seq<Option<int>>>, minScore: real, ascending: bool, all: seq<Entry>)
    requires DistinctIds(xs) && all == Sort(EntryOrder(ascending), source.Entries(table, AtLeast(xs, minScore)))
    ensures forall i, j | 0 <= i < j < |all| :: Stands(ascending, all[i], all[j]) && !Stands(ascending, all[j], all[i]) && all[i].id != all[j].id
    ensures forall x :: source.EntryOf(table, x) in all <==> x in xs && x.score >= minScore
    ensures forall i | 0 <= i < |all| :: all[i] == source.EntryOf(table, Scored(all[i].id, all[i].score))
  {
    hide AtLeast, Sort, EntryOrder, SortSource.KeyFrom, Earlier, Stands;
    var kept := AtLeast(xs, minScore);
    var es := source.Entries(table, kept);
    AtLeastKeeps(xs, minScore);
    assert forall i | 0 <= i < |es| :: es[i].id == kept[i].id;
    EntriesOrdered(ascending, es);
    SortAscends(EntryOrder(ascending), es);
    SameElements(all, es);
    forall i | 0 <= i < |all| ensures all[i] == source.EntryOf(table, Scored(all[i].id, all[i].score)) && exists k | 0 <= k < |es| :: es[k] == all[i] {
      var k := IndexOf(es, all[i]);
    }
    forall x ensures source.EntryOf(table, x) in all <==> x in xs && x.score >= minScore {
      if source.EntryOf(table, x) in all {
        var k := IndexOf(es, source.EntryOf(table, x));
        assert kept[k] == x;
      }
      if x in xs && x.score >= minScore {
        var k := IndexOf(kept, x);
        assert es[k] == source.EntryOf(table, x);
      }
    }
    forall i, j | 0 <= i < j < |all| ensures Stands(ascending, all[i], all[j]) && !Stands(ascending, all[j], all[i]) && all[i].id != all[j].id {
      EarlierInOrder(ascending, all, i, j);
      EarlierStands(ascending, all[i], all[j]);
      EarlierStands(ascending, all[j], all[i]);
      EarlierChains(ascending, all[i], all[j], all[i]);
      ApartAfterSorting(es, all, i, j);
    }
  }

  lemma {:induction false} ApartAfterSorting(es: seq<Entry>, all: seq<Entry>, i: nat, j: nat)
    requires DistinctEntries(es) && multiset(all) == multiset(es) && i < j < |all|
    ensures all[i].id != all[j].id
  {
    SameElements(all, es);
    var a, b := IndexOf(es, all[i]), IndexOf(es, all[j]);
    if a == b {
      Twice(all, i, j);
      assert multiset(es)[es[a]] >= 2;
      var c, d := TwoPlaces(es, es[a]);
    }
  }

  /** A page by a field: as many hits as the matches leave, each with exactly `offset + i` matches before it. */
  lemma {:induction false} FieldPlaces(xs: seq<Scored>, stored: nat -> map<string, string>, source: SortSource, table: Option<seq<Option<int>>>, minScore: real,
                                       ascending: bool, offset: nat, limit: nat)
    requires DistinctIds(xs)
    ensures var hits := SortedPage(xs, stored, source, table, minScore, ascending, offset, limit);
            && IsCut(|hits|, |Kept(xs, minScore)|, offset, limit)
            && forall i | 0 <= i < |hits| ::
                 IsMatch(hits[i], xs, minScore, stored) && |BeforeByKey(xs, source, table, minScore, ascending, hits[i])| == offset + i
  {
    hide Sort, AtLeast, Stands, DistinctIds, SortSource.KeyFrom, EntryOrder;
    var all := Sort(EntryOrder(ascending), source.Entries(table, AtLeast(xs, minScore)));
    var hits := SortedPage(xs, stored, source, table, minScore, ascending, offset, limit);
    SortedStands(xs, source, table, minScore, ascending, all);
    var sorted := seq(|all|, i requires 0 <= i < |all| => Scored(all[i].id, all[i].score));
    forall x ensures x in sorted <==> x in xs && x.score >= minScore {
      if x in sorted {
        var k := IndexOf(sorted, x);
        assert all[k] in all && all[k] == source.EntryOf(table, x);
      }
      if x in xs && x.score >= minScore {
        var k := IndexOf(all, source.EntryOf(table, x));
        assert sorted[k] == x;
      }
    }
    KeptCount(xs, minScore, sorted);
    forall i | 0 <= i < |hits|
      ensures IsMatch(hits[i], xs, minScore, stored) && |BeforeByKey(xs, source, table, minScore, ascending, hits[i])| == offset + i
    {
      assert sorted[offset + i] in sorted;
      var j := IndexOf(xs, sorted[offset + i]);
      KeyCount(xs, source, table, minScore, ascending, all, offset + i, hits[i]);
    }
  }

  lemma {:induction false} KeyCount(xs: seq<Scored>, source: SortSource, table: Option<seq<Option<int>>>, minScore: real, ascending: bool, all: seq<Entry>,
                                    p: nat, h: Hit)
    requires p < |all| && h.id == all[p].id && h.score == all[p].score
    requires forall i, j | 0 <= i < j < |all| :: Stands(ascending, all[i], all[j]) && !Stands(ascending, all[j], all[i]) && all[i].id != all[j].id
    requires forall x :: source.EntryOf(table, x) in all <==> x in xs && x.score >= minScore
    requires forall i | 0 <= i < |all| :: all[i] == source.EntryOf(table, Scored(all[i].id, all[i].score))
    ensures |BeforeByKey(xs, source, table, minScore, ascending, h)| == p
  {
    hide Stands, SortSource.KeyFrom;
    var ids := seq(p, i requires 0 <= i < p => all[i].id);
    DistinctCount(ids);
    assert !Stands(ascending, all[p], all[p]) by {
      StandsBeforeNone(ascending, all[p]);
    }
    forall d: nat ensures d in BeforeByKey(xs, source, table, minScore, ascending, h) <==> d in set i | 0 <= i < |ids| :: ids[i] {
      if i :| 0 <= i < |xs| && xs[i].score >= minScore && Stands(ascending, source.EntryOf(table, xs[i]), all[p]) && xs[i].id == d {
        var k := IndexOf(all, source.EntryOf(table, xs[i]));
        assert k < p;
        assert ids[k] == d;
      }
      if k :| 0 <= k < |ids| && ids[k] == d {
        var x := Scored(all[k].id, all[k].score);
        assert source.EntryOf(table, x) in all;
        var i := IndexOf(xs, x);
      }
    }
    assert BeforeByKey(xs, source, table, minScore, ascending, h) == set i | 0 <= i < |ids| :: ids[i];
  }

  lemma {:induction false} StandsBeforeNone(ascending: bool, e: Entry)
    ensures !Stands(ascending, e, e)
  {
  }
}
