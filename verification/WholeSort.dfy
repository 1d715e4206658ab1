/** Sorting the whole index by a field: when its joint table, put together from the segments', says what
    the stored values say. */
module WholeSort {
  import opened Wrappers
  import opened Ranking
  import opened SortTables
  import opened SortDocuments
  import opened SortVisibility
  import opened WholeIndex
  import Inverter
  import Segments

  /** The first stored value of the owning segment's document. */
  function StoredValue(w: Whole, name: string, id: nat): Option<string>
    requires |w.index.entries| == |w.parts|
  {
    match w.Owner(id)
    case None => None
    case Some((i, d)) => if d < |w.parts[i].docs| then FirstStored(w.parts[i].docs[d].fields, name) else None
  }

  /** Each segment offers its own table, or none. */
  ghost predicate SegmentTables(w: Whole, name: string, parse: string -> Option<int>)
    requires |w.index.entries| == |w.parts|
  {
    forall i | 0 <= i < |w.parts| :: IsTable(w.index.entries[i].seg.numericSortValues(name), w.parts[i].docs, name, w.analyze, parse)
  }

  /** What putting them together gives. */
  ghost predicate Joint(w: Whole, name: string, r: Option<seq<Option<int>>>) {
    && (r.None? <==> exists i | 0 <= i < |w.index.entries| :: w.index.entries[i].seg.numericSortValues(name).None?)
    && (r.Some? ==> |r.value| == w.index.TotalDocs())
    && (r.Some? ==> forall i: nat, d: nat | i < |w.index.entries| && d < w.index.entries[i].maxDoc :: w.index.Says(r.value, name, i, d))
  }

  method JointTable(w: Whole, name: string) returns (r: Option<seq<Option<int>>>)
    requires w.Valid()
    ensures Joint(w, name, r)
  {
    w.IndexValid();
    r := w.index.NumericSortValues(name);
  }

  /** A document's tokens say what its stored value says. */
  ghost predicate Agreeing(w: Whole, name: string, parse: string -> Option<int>, id: nat)
    requires |w.index.entries| == |w.parts|
  {
    w.Owner(id).Some? ==>
      var (i, d) := w.Owner(id).value;
      d < |w.parts[i].docs| ==> TokensSay(w.parts[i].docs[d], name, w.analyze, parse)
  }

  function SourceOf(w: Whole, name: string, parse: string -> Option<int>, r: Option<seq<Option<int>>>): SortSource
    requires |w.index.entries| == |w.parts|
  {
    SortSource((id: nat) => StoredValue(w, name, id), r, parse, w.index.TotalDocs())
  }

  lemma {:induction false} OneDocument(w: Whole, name: string, parse: string -> Option<int>, r: seq<Option<int>>, id: nat)
    requires w.Valid() && SegmentTables(w, name, parse) && Joint(w, name, Some(r))
    ensures var source := SourceOf(w, name, parse, Some(r));
            source.FromTable(r, id) == source.FromStored(id) <==> Agreeing(w, name, parse, id)
  {
    hide Part.Written, TokensSay, Segments.Chained, Offers, HasToken, FirstStored, Segments.Index.Find;
    w.index.LocateExact(id);
    if w.Owner(id).Some? {
      var (i, d) := w.Owner(id).value;
      var own := w.index.entries[i].seg.numericSortValues(name);
      EntrySize(w, i);
      assert w.index.Says(r, name, i, d);
      assert own.Some? && IsTable(own, w.parts[i].docs, name, w.analyze, parse);
      assert TableSaysWhere(w.parts[i].docs, name, w.analyze, parse, own.value, 0, {d});
      OwnDocument(w.parts[i].docs, name, w.analyze, parse, own.value, d);
    }
  }

  lemma {:induction false} EntrySize(w: Whole, i: nat)
    requires w.Valid() && i < |w.parts|
    ensures w.index.entries[i].maxDoc == |w.parts[i].docs|
  {
    hide Part.Written;
  }

  lemma {:induction false} OwnDocument(docs: seq<Inverter.Doc>, name: string, analyze: string -> seq<string>, parse: string -> Option<int>, table: seq<Option<int>>, d: nat)
    requires d < |docs| && TableSaysWhere(docs, name, analyze, parse, table, 0, {d})
    ensures var source := SortSource((id: nat) => ValueAt(StoredValues(docs, name), id), Some(table), parse, 0);
            source.FromTable(table, d) == source.FromStored(d) <==> TokensSay(docs[d], name, analyze, parse)
  {
    hide TokensSay, FirstStored;
    var source := SortSource((id: nat) => ValueAt(StoredValues(docs, name), id), Some(table), parse, 0);
    assert source.Agrees({d}) <==> source.FromTable(table, d) == source.FromStored(d);
  }

  /** The joint table is offered when every segment's documents allow it. It gives some documents the keys
      their stored values give exactly when the tokens of each of them say what its stored value says. */
  lemma {:induction false} JointAgrees(w: Whole, name: string, parse: string -> Option<int>, r: Option<seq<Option<int>>>, ids: set<nat>)
    requires w.Valid() && SegmentTables(w, name, parse) && Joint(w, name, r)
    ensures r.Some? <==> forall i | 0 <= i < |w.parts| :: Offers(w.parts[i].docs, name, w.analyze, parse)
    ensures r.Some? ==> (SourceOf(w, name, parse, r).Agrees(ids) <==> forall id | id in ids :: Agreeing(w, name, parse, id))
  {
    hide Part.Written, Part.ShownBy, Agreeing, Segments.Chained, Offers, TableSaysWhere, HasToken, SortSource.FromTable, SortSource.FromStored;
    if r.Some? {
      forall id: nat
        ensures var source := SourceOf(w, name, parse, r); source.FromTable(r.value, id) == source.FromStored(id) <==> Agreeing(w, name, parse, id)
      {
        OneDocument(w, name, parse, r.value, id);
      }
    }
  }

  /** Where every live document agrees, no search can tell which source its ranking was sorted by. */
  lemma {:induction false} AgreeingUnseen(w: Whole, name: string, parse: string -> Option<int>, r: seq<Option<int>>, live: set<nat>)
    requires w.Valid() && SegmentTables(w, name, parse) && Joint(w, name, Some(r))
    requires forall id | id in live :: Agreeing(w, name, parse, id)
    ensures Unseen(SourceOf(w, name, parse, Some(r)), r, live)
  {
    hide Part.Written, Part.ShownBy, Agreeing, Segments.Chained, Joint, SegmentTables, Unseen, SortSource.Agrees;
    JointAgrees(w, name, parse, Some(r), live);
    SortVisibility.AgreeingUnseen(SourceOf(w, name, parse, Some(r)), live);
  }
}
