/** When the choice between a field's sort table and its stored values can be seen in a ranking. */
module SortVisibility {
  import opened Wrappers
  import opened Lex
  import opened Sorting
  import opened Ranking
  import opened SortTables

  /** The key part of the entry order. */
  predicate Precedes(ascending: bool, a: SortKey, b: SortKey) {
    if a.Missing? != b.Missing? then b.Missing?
    else a != b && if ascending then KeyBefore(a, b) else KeyBefore(b, a)
  }

  /** The ranking without its keys. */
  function Bare(es: seq<Entry>): (xs: seq<Scored>)
    ensures |xs| == |es| && forall i | 0 <= i < |xs| :: xs[i] == Scored(es[i].id, es[i].score)
  {
    seq(|es|, i requires 0 <= i < |es| => Scored(es[i].id, es[i].score))
  }

  function RankedBy(source: SortSource, table: Option<seq<Option<int>>>, ascending: bool, xs: seq<Scored>): seq<Scored> {
    Bare(Sort(EntryOrder(ascending), source.Entries(table, xs)))
  }

  /** Whatever of the documents match, with whatever scores, both sources rank them alike. */
  ghost predicate Unseen(source: SortSource, table: seq<Option<int>>, ids: set<nat>) {
    forall xs: seq<Scored>, ascending: bool | DistinctIds(xs) && IdsOf(xs) <= ids ::
      RankedBy(source, Some(table), ascending, xs) == RankedBy(source, None, ascending, xs)
  }

  /** Both sources put two documents in the same order, in both directions. */
  predicate SameWay(source: SortSource, table: seq<Option<int>>, a: nat, b: nat) {
    forall ascending: bool ::
      Precedes(ascending, source.FromTable(table, a), source.FromTable(table, b)) == Precedes(ascending, source.FromStored(a), source.FromStored(b))
  }

  /** The exact condition under which reading the table instead of the stored values changes no ranking:
      any two of the documents compare the same way by both. */
  lemma {:induction false} UnseenExactly(source: SortSource, table: seq<Option<int>>, ids: set<nat>)
    ensures Unseen(source, table, ids) <==> forall a, b | a in ids && b in ids && a != b :: SameWay(source, table, a, b)
  {
    hide Unseen, SameWay, RankedBy;
    if Unseen(source, table, ids) {
      forall a, b | a in ids && b in ids && a != b ensures SameWay(source, table, a, b) {
        PairSeen(source, table, ids, a, b);
      }
    }
    if forall a, b | a in ids && b in ids && a != b :: SameWay(source, table, a, b) {
      AllAlike(source, table, ids);
    }
  }

  lemma {:induction false} AllAlike(source: SortSource, table: seq<Option<int>>, ids: set<nat>)
    requires forall a, b | a in ids && b in ids && a != b :: SameWay(source, table, a, b)
    ensures Unseen(source, table, ids)
  {
    hide SameWay, RankedBy;
    forall xs: seq<Scored>, ascending: bool | DistinctIds(xs) && IdsOf(xs) <= ids
      ensures RankedBy(source, Some(table), ascending, xs) == RankedBy(source, None, ascending, xs)
    {
      RankedAlike(source, table, ascending, xs);
    }
  }

  /** The order of two entries, by their keys and then by score and id. */
  lemma {:induction false} EarlierIs(ascending: bool, a: Entry, b: Entry)
    ensures Earlier(ascending, a, b) <==>
            Precedes(ascending, a.key, b.key) || (!Precedes(ascending, b.key, a.key) && (a.score > b.score || (a.score == b.score && a.id < b.id)))
  {
    hide KeyBefore;
    KeysOrdered(a.key, b.key, a.key);
    KeysOrdered(b.key, a.key, b.key);
  }

  lemma {:induction false} SortPair(ascending: bool, a: Entry, b: Entry)
    requires a.id != b.id
    ensures Sort(EntryOrder(ascending), [a, b]) == if Earlier(ascending, a, b) then [a, b] else [b, a]
  {
    hide Earlier, EntryOrder, Ascends, StrictOrder, Distinguishes;
    var less := EntryOrder(ascending);
    var sorted := Sort(less, [a, b]);
    EntriesOrdered(ascending, [a, b]);
    SortAscends(less, [a, b]);
    assert multiset(sorted) == multiset{a, b} && |sorted| == 2;
    EarlierInOrder(ascending, sorted, 0, 1);
    EarlierChains(ascending, a, b, a);
    assert sorted == [sorted[0], sorted[1]] && multiset(sorted) == multiset{sorted[0], sorted[1]};
    TwoElements(sorted[0], sorted[1], a, b);
  }

  lemma {:induction false} TwoElements<T>(x: T, y: T, a: T, b: T)
    requires multiset{x, y} == multiset{a, b}
    ensures (x == a && y == b) || (x == b && y == a)
  {
    assert x in multiset{a, b} && y in multiset{a, b};
    assert multiset{x, y}[a] == multiset{a, b}[a] && multiset{x, y}[b] == multiset{a, b}[b];
  }

  lemma {:induction false} OrderIs(ascending: bool, a: Entry, b: Entry)
    ensures EntryOrder(ascending)(a, b) == Earlier(ascending, a, b)
  {
  }

  /** Matched alone, with scores that favour one or the other, two documents show how they compare. */
  lemma {:induction false} PairSeen(source: SortSource, table: seq<Option<int>>, ids: set<nat>, a: nat, b: nat)
    requires Unseen(source, table, ids) && a in ids && b in ids && a != b
    ensures SameWay(source, table, a, b)
  {
    hide Earlier, Sort, EntryOrder, SortSource.FromTable, SortSource.FromStored, Precedes, Unseen;
    forall ascending: bool
      ensures Precedes(ascending, source.FromTable(table, a), source.FromTable(table, b)) == Precedes(ascending, source.FromStored(a), source.FromStored(b))
    {
      var xs := [Scored(a, 0.0), Scored(b, 1.0)];
      PairRanked(source, Some(table), ascending, a, b);
      PairRanked(source, None, ascending, a, b);
      SeenTogether(source, table, ids, ascending, xs);
    }
  }

  lemma {:induction false} SeenTogether(source: SortSource, table: seq<Option<int>>, ids: set<nat>, ascending: bool, xs: seq<Scored>)
    requires Unseen(source, table, ids) && DistinctIds(xs) && forall i | 0 <= i < |xs| :: xs[i].id in ids
    ensures RankedBy(source, Some(table), ascending, xs) == RankedBy(source, None, ascending, xs)
  {
    hide RankedBy;
    assert IdsOf(xs) <= ids;
  }

  /** With the higher score at `b`, `a` comes first exactly when its key does. */
  lemma {:induction false} PairRanked(source: SortSource, table: Option<seq<Option<int>>>, ascending: bool, a: nat, b: nat)
    requires a != b
    ensures var xs := [Scored(a, 0.0), Scored(b, 1.0)];
            RankedBy(source, table, ascending, xs) ==
              if Precedes(ascending, source.KeyFrom(table, a), source.KeyFrom(table, b)) then xs else [xs[1], xs[0]]
  {
    hide Earlier, Sort, EntryOrder, SortSource.KeyFrom, Precedes;
    var xs := [Scored(a, 0.0), Scored(b, 1.0)];
    var x, y := source.EntryOf(table, xs[0]), source.EntryOf(table, xs[1]);
    assert source.Entries(table, xs) == [x, y];
    SortPair(ascending, x, y);
    EarlierIs(ascending, x, y);
  }

  /** An entry re-keyed from the stored values. */
  function Rekeyed(source: SortSource, es: seq<Entry>): (r: seq<Entry>)
    ensures |r| == |es| && forall i | 0 <= i < |r| :: r[i] == Entry(source.FromStored(es[i].id), es[i].id, es[i].score)
  {
    seq(|es|, i requires 0 <= i < |es| => Entry(source.FromStored(es[i].id), es[i].id, es[i].score))
  }

  lemma {:induction false} RankedAlike(source: SortSource, table: seq<Option<int>>, ascending: bool, xs: seq<Scored>)
    requires DistinctIds(xs) && forall a, b | a in IdsOf(xs) && b in IdsOf(xs) && a != b :: SameWay(source, table, a, b)
    ensures RankedBy(source, Some(table), ascending, xs) == RankedBy(source, None, ascending, xs)
  {
    hide Earlier, Sort, EntryOrder, SortSource.FromTable, SortSource.FromStored, Precedes, SameWay, IdsOf, StrictOrder;
    var less := EntryOrder(ascending);
    var et, es := source.Entries(Some(table), xs), source.Entries(None, xs);
    EntriesOrdered(ascending, et);
    EntriesOrdered(ascending, es);
    SortAscends(less, et);
    SortAscends(less, es);
    var sorted := Sort(less, et);
    var re := Rekeyed(source, sorted);
    RekeyedElements(source, table, xs, sorted);
    forall i, j | 0 <= i < j < |re| ensures less(re[i], re[j]) {
      EarlierInOrder(ascending, sorted, i, j);
      RekeyedEarlier(source, table, ascending, xs, sorted, i, j);
      OrderIs(ascending, re[i], re[j]);
    }
    assert Ascends(less, re);
    AscendingUnique(less, re, Sort(less, es));
    assert Bare(re) == Bare(sorted);
  }

  lemma {:induction false} RekeyedElements(source: SortSource, table: seq<Option<int>>, xs: seq<Scored>, sorted: seq<Entry>)
    requires DistinctIds(xs) && multiset(sorted) == multiset(source.Entries(Some(table), xs))
    ensures multiset(Rekeyed(source, sorted)) == multiset(source.Entries(None, xs))
  {
    hide SortSource.FromTable, SortSource.FromStored;
    var et, es, re := source.Entries(Some(table), xs), source.Entries(None, xs), Rekeyed(source, sorted);
    SameElements(sorted, et);
    SortedIds(source, table, xs, sorted);
    forall x: Entry ensures x in re <==> x in es {
      if x in re {
        var i := IndexOf(re, x);
        var k := IndexOf(et, sorted[i]);
        assert es[k] == x;
      }
      if x in es {
        var k := IndexOf(es, x);
        assert et[k] in sorted;
        var i := IndexOf(sorted, et[k]);
        assert re[i] == x;
      }
    }
    SameSet(re, es);
  }

  /** The sorted entries are those of the matches, each once. */
  lemma {:induction false} SortedIds(source: SortSource, table: seq<Option<int>>, xs: seq<Scored>, sorted: seq<Entry>)
    requires DistinctIds(xs) && multiset(sorted) == multiset(source.Entries(Some(table), xs))
    ensures forall i | 0 <= i < |sorted| :: sorted[i].id in IdsOf(xs) && sorted[i].key == source.FromTable(table, sorted[i].id)
    ensures forall i, j | 0 <= i < j < |sorted| :: sorted[i].id != sorted[j].id
  {
    hide SortSource.FromTable, SortSource.FromStored;
    var et := source.Entries(Some(table), xs);
    SameElements(sorted, et);
    forall i | 0 <= i < |sorted| ensures sorted[i].id in IdsOf(xs) && sorted[i].key == source.FromTable(table, sorted[i].id) {
      var k := IndexOf(et, sorted[i]);
      assert xs[k].id in IdsOf(xs);
    }
    forall i, j | 0 <= i < j < |sorted| ensures sorted[i].id != sorted[j].id {
      if sorted[i] == sorted[j] {
        Twice(sorted, i, j);
        var k, l := TwoPlaces(et, sorted[i]);
        assert false;
      } else {
        var k, l := IndexOf(et, sorted[i]), IndexOf(et, sorted[j]);
        assert k != l;
        assert xs[k].id != xs[l].id;
      }
    }
  }

  lemma {:induction false} RekeyedEarlier(source: SortSource, table: seq<Option<int>>, ascending: bool, xs: seq<Scored>, sorted: seq<Entry>, i: nat, j: nat)
    requires DistinctIds(xs) && forall a, b | a in IdsOf(xs) && b in IdsOf(xs) && a != b :: SameWay(source, table, a, b)
    requires multiset(sorted) == multiset(source.Entries(Some(table), xs)) && i < j < |sorted| && Earlier(ascending, sorted[i], sorted[j])
    ensures Earlier(ascending, Rekeyed(source, sorted)[i], Rekeyed(source, sorted)[j])
  {
    hide Earlier, SortSource.FromTable, SortSource.FromStored, Precedes, IdsOf, SortSource.Entries;
    var re := Rekeyed(source, sorted);
    SortedIds(source, table, xs, sorted);
    var a, b := sorted[i].id, sorted[j].id;
    assert SameWay(source, table, a, b) && SameWay(source, table, b, a);
    EarlierIs(ascending, sorted[i], sorted[j]);
    EarlierIs(ascending, re[i], re[j]);
  }

  /** Agreeing keys cannot be told apart. */
  lemma {:induction false} AgreeingUnseen(source: SortSource, ids: set<nat>)
    requires source.numericTable.Some? && source.Agrees(ids)
    ensures Unseen(source, source.numericTable.value, ids)
  {
    hide Unseen, SortSource.FromTable, SortSource.FromStored, Precedes;
    UnseenExactly(source, source.numericTable.value, ids);
  }

  /** An empty keyword beside a number: with two matches the stored values are read and, descending, the
      empty text comes first; a third match brings in the table, by which the same document is missing
      and comes last. */
  lemma {:induction false} EmptyKeywordSeen(parse: string -> Option<int>)
    requires parse("") == None && parse("7") == Some(7)
    ensures var source := SortSource((id: nat) => ValueAt([Some(""), Some("7")], id), Some([None, Some(7)]), parse, 384);
            var two := [Scored(0, 0.0), Scored(1, 1.0)];
            && source.Chosen(2) == None && source.Chosen(3) == source.numericTable
            && RankedBy(source, source.Chosen(2), false, two) == two
            && RankedBy(source, source.Chosen(3), false, two) == [two[1], two[0]]
  {
    hide RankedBy;
    var source := SortSource((id: nat) => ValueAt([Some(""), Some("7")], id), Some([None, Some(7)]), parse, 384);
    PairRanked(source, None, false, 0, 1);
    PairRanked(source, source.numericTable, false, 0, 1);
  }
}
