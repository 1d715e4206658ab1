/** The multi-segment view: global document ids, merged postings and merged term lists. */
module Segments {
  import opened Wrappers
  import opened Lex
  import opened Sorting

  datatype Segment = Segment(
    maxDoc: nat, postings: (string, string) -> seq<(nat, nat)>, termsWithPrefix: (string, string) -> seq<string>,
    numericSortValues: string -> Option<seq<Option<int>>>)
  {
    /** Postings ascend within the segment, term lists ascend, tables cover every document. */
    ghost predicate Lawful() {
      && (forall f: string, t: string, i, j | 0 <= i < j < |postings(f, t)| :: postings(f, t)[i].0 < postings(f, t)[j].0)
      && (forall f: string, t: string, i | 0 <= i < |postings(f, t)| :: postings(f, t)[i].0 < maxDoc)
      && (forall f: string, p: string :: Ascends(Less, termsWithPrefix(f, p)))
      && (forall f: string :: numericSortValues(f).Some? ==> |numericSortValues(f).value| == maxDoc)
    }
  }

  datatype Entry = Entry(base: nat, maxDoc: nat, seg: Segment)

  /** Each entry starts where the one before it ends. */
  predicate Chained(entries: seq<Entry>) {
    forall i | 0 <= i < |entries| ::
      entries[i].maxDoc == entries[i].seg.maxDoc && entries[i].base == End(entries[..i])
  }

  function End(entries: seq<Entry>): nat {
    if entries == [] then 0 else entries[|entries| - 1].base + entries[|entries| - 1].maxDoc
  }

  lemma {:induction false} BasesAscend(entries: seq<Entry>, i: nat, j: nat)
    requires Chained(entries) && i < j < |entries|
    ensures entries[i].base + entries[i].maxDoc <= entries[j].base
  {
    assert entries[..j][j - 1] == entries[j - 1];
    if i < j - 1 {
      BasesAscend(entries, i, j - 1);
    }
  }

  datatype Index = Index(entries: seq<Entry>) {

    ghost predicate Valid() {
      Chained(entries) && forall i | 0 <= i < |entries| :: entries[i].seg.Lawful()
    }

    function TotalDocs(): nat {
      End(entries)
    }

    // ----- global ids -----

    function Find(from: nat, id: nat): (r: Option<(nat, nat)>)
      requires from <= |entries|
      ensures r.Some? ==> r.value.0 < |entries|
      decreases |entries| - from
    {
      if from == |entries| then None
      else if entries[from].base <= id < entries[from].base + entries[from].maxDoc then Some((from, id - entries[from].base))
      else Find(from + 1, id)
    }

    /** The entry that owns a global id, and the id within it. */
    function Locate(id: nat): (r: Option<(nat, nat)>)
      ensures r.Some? ==> r.value.0 < |entries|
    {
      Find(0, id)
    }

    lemma {:induction false} FindOwner(from: nat, i: nat, local: nat)
      requires Chained(entries) && from <= i < |entries| && local < entries[i].maxDoc
      ensures Find(from, entries[i].base + local) == Some((i, local))
      decreases i - from
    {
      if from < i {
        BasesAscend(entries, from, i);
        FindOwner(from + 1, i, local);
      }
    }

    /** Locating inverts base plus local id. */
    lemma {:induction false} LocateInverts(i: nat, local: nat)
      requires Chained(entries) && i < |entries| && local < entries[i].maxDoc
      ensures Locate(entries[i].base + local) == Some((i, local))
    {
      FindOwner(0, i, local);
    }

    lemma {:induction false} FindSound(from: nat, id: nat)
      requires from <= |entries|
      ensures var r := Find(from, id);
              && (r.Some? ==> r.value.0 < |entries| && r.value.1 < entries[r.value.0].maxDoc && id == entries[r.value.0].base + r.value.1)
              && (r.None? ==> forall i | from <= i < |entries| :: !(entries[i].base <= id < entries[i].base + entries[i].maxDoc))
      decreases |entries| - from
    {
      if from < |entries| {
        FindSound(from + 1, id);
      }
    }

    lemma {:induction false} Covered(id: nat, k: nat)
      requires Chained(entries) && k <= |entries| && id < End(entries[..k])
      ensures exists i | 0 <= i < k :: entries[i].base <= id < entries[i].base + entries[i].maxDoc
      decreases k
    {
      assert entries[..k][k - 1] == entries[k - 1];
      if id < entries[k - 1].base {
        Covered(id, k - 1);
      } else {
        assert entries[k - 1].base <= id < entries[k - 1].base + entries[k - 1].maxDoc;
      }
    }

    /** Exactly the ids below the total are owned, each by one segment. */
    lemma {:induction false} LocateExact(id: nat)
      requires Chained(entries)
      ensures Locate(id).Some? <==> id < TotalDocs()
      ensures Locate(id).Some? ==> var (i, local) := Locate(id).value; i < |entries| && local < entries[i].maxDoc && id == entries[i].base + local
    {
      hide Find, Chained, Segment.Lawful;
      FindSound(0, id);
      if id < TotalDocs() {
        assert entries[..|entries|] == entries;
        Covered(id, |entries|);
      } else if Locate(id).Some? {
        var i := Locate(id).value.0;
        if i < |entries| - 1 {
          BasesAscend(entries, i, |entries| - 1);
        }
      }
    }

    // ----- postings -----

    /** Segment by segment, local ids shifted: strictly ascending overall, and exactly the postings of
        the segment that owns each id. */
    method PostingsFor(field: string, term: string) returns (out: seq<(nat, nat)>)
      requires Valid()
      ensures forall i, j | 0 <= i < j < |out| :: out[i].0 < out[j].0
      ensures forall id: nat, tf: nat :: (id, tf) in out <==>
                Locate(id).Some? && (Locate(id).value.1, tf) in entries[Locate(id).value.0].seg.postings(field, term)
    {
      hide Segment.Lawful;
      out := [];
      for k := 0 to |entries|
        invariant forall i, j | 0 <= i < j < |out| :: out[i].0 < out[j].0
        invariant forall i | 0 <= i < |out| :: k > 0 && out[i].0 < entries[k - 1].base + entries[k - 1].maxDoc
        invariant forall id: nat, tf: nat :: (id, tf) in out <==> exists i | 0 <= i < k :: Holds(entries[i], field, term, id, tf)
      {
        var e := entries[k];
        var shifted := Shifted(e, field, term);
        forall id: nat, tf: nat ensures (id, tf) in out + shifted <==> exists i | 0 <= i < k + 1 :: Holds(entries[i], field, term, id, tf) {
          assert (id, tf) in shifted <==> Holds(entries[k], field, term, id, tf);
        }
        out := out + shifted;
      }
      forall id: nat, tf: nat ensures (id, tf) in out <==>
                Locate(id).Some? && (Locate(id).value.1, tf) in entries[Locate(id).value.0].seg.postings(field, term)
      {
        OwnerHolds(field, term, id, tf);
      }
    }

    lemma {:induction false} OwnerHolds(field: string, term: string, id: nat, tf: nat)
      requires Valid()
      ensures (exists i | 0 <= i < |entries| :: Holds(entries[i], field, term, id, tf)) <==>
              Locate(id).Some? && (Locate(id).value.1, tf) in entries[Locate(id).value.0].seg.postings(field, term)
    {
      hide Segment.Lawful, Find;
      FindSound(0, id);
      if i :| 0 <= i < |entries| && Holds(entries[i], field, term, id, tf) {
        LocalBelow(entries[i].seg, field, term, id - entries[i].base, tf);
        LocateInverts(i, id - entries[i].base);
      }
      if Locate(id).Some? && (Locate(id).value.1, tf) in entries[Locate(id).value.0].seg.postings(field, term) {
        assert Holds(entries[Locate(id).value.0], field, term, id, tf);
      }
    }

    // ----- the sort table -----

    function Tables(field: string, k: nat): seq<Option<int>>
      requires k <= |entries| && forall i | 0 <= i < k :: entries[i].seg.numericSortValues(field).Some?
    {
      if k == 0 then [] else Tables(field, k - 1) + entries[k - 1].seg.numericSortValues(field).value
    }

    lemma {:induction false} TableLength(field: string, k: nat)
      requires Valid() && k <= |entries| && forall i | 0 <= i < k :: entries[i].seg.numericSortValues(field).Some?
      ensures |Tables(field, k)| == End(entries[..k])
    {
      if k > 0 {
        TableLength(field, k - 1);
        assert entries[..k][k - 1] == entries[k - 1] && entries[k - 1].seg.Lawful();
      }
    }

    lemma {:induction false} TableAt(field: string, k: nat, i: nat, d: nat)
      requires Valid() && k <= |entries| && forall i | 0 <= i < k :: entries[i].seg.numericSortValues(field).Some?
      requires i < k && d < entries[i].maxDoc && |entries[i].seg.numericSortValues(field).value| == entries[i].maxDoc
      ensures entries[i].base + d < |Tables(field, k)| && Tables(field, k)[entries[i].base + d] == entries[i].seg.numericSortValues(field).value[d]
      decreases k
    {
      hide Segment.Lawful, End;
      if i < k - 1 {
        TableAt(field, k - 1, i, d);
      } else {
        TableLength(field, k - 1);
      }
    }

    /** At the global id of document `d` of segment `i`, the table says what the segment's own says. */
    predicate Says(table: seq<Option<int>>, field: string, i: nat, d: nat)
      requires i < |entries|
    {
      var own := entries[i].seg.numericSortValues(field);
      own.Some? && d < |own.value| && entries[i].base + d < |table| && table[entries[i].base + d] == own.value[d]
    }

    /** The segments' tables back to back, unless one of them cannot answer. */
    method NumericSortValues(field: string) returns (r: Option<seq<Option<int>>>)
      requires Valid()
      ensures r.None? <==> exists i | 0 <= i < |entries| :: entries[i].seg.numericSortValues(field).None?
      ensures r.Some? ==> |r.value| == TotalDocs()
      ensures r.Some? ==> forall i: nat, d: nat | i < |entries| && d < entries[i].maxDoc :: Says(r.value, field, i, d)
    {
      hide Valid, TotalDocs, Tables;
      var table := [];
      NoTables(field);
      for k := 0 to |entries|
        invariant forall i | 0 <= i < k :: entries[i].seg.numericSortValues(field).Some?
        invariant table == Tables(field, k)
      {
        var more := entries[k].seg.numericSortValues(field);
        if more.None? {
          return None;
        }
        TablesStep(field, k + 1);
        table := table + more.value;
      }
      TablesDone(field);
      return Some(table);
    }

    lemma {:induction false} NoTables(field: string)
      ensures Tables(field, 0) == []
    {
    }

    lemma {:induction false} TablesStep(field: string, k: nat)
      requires 0 < k <= |entries| && forall i | 0 <= i < k :: entries[i].seg.numericSortValues(field).Some?
      ensures Tables(field, k) == Tables(field, k - 1) + entries[k - 1].seg.numericSortValues(field).value
    {
    }

    lemma {:induction false} TablesDone(field: string)
      requires Valid() && forall i | 0 <= i < |entries| :: entries[i].seg.numericSortValues(field).Some?
      ensures |Tables(field, |entries|)| == TotalDocs()
      ensures forall i: nat, d: nat | i < |entries| && d < entries[i].maxDoc :: Says(Tables(field, |entries|), field, i, d)
    {
      hide Valid, Tables, End;
      assert entries[..|entries|] == entries;
      TableLength(field, |entries|);
      forall i: nat, d: nat | i < |entries| && d < entries[i].maxDoc ensures Says(Tables(field, |entries|), field, i, d) {
        TableCovers(i, field);
        TableAt(field, |entries|, i, d);
      }
    }

    lemma {:induction false} TableCovers(i: nat, field: string)
      requires Valid() && i < |entries| && entries[i].seg.numericSortValues(field).Some?
      ensures |entries[i].seg.numericSortValues(field).value| == entries[i].maxDoc
    {
      assert entries[i].seg.Lawful();
    }

    // ----- terms -----

    function Lists(field: string, prefix: string): (ls: seq<seq<string>>)
      ensures |ls| == |entries| && forall i | 0 <= i < |ls| :: ls[i] == entries[i].seg.termsWithPrefix(field, prefix)
    {
      seq(|entries|, i requires 0 <= i < |entries| => entries[i].seg.termsWithPrefix(field, prefix))
    }

    method TermsWithPrefix(field: string, prefix: string) returns (r: seq<string>)
      ensures Merges(r, Lists(field, prefix))
    {
      r := MergeSets(Lists(field, prefix));
    }

    /** Each segment is asked for its own first `limit` terms only; the answer is the first `limit` of
        all terms. */
    method TermsWithPrefixLimited(field: string, prefix: string, limit: nat) returns (r: seq<string>)
      requires Valid()
      ensures forall all: seq<string> | Merges(all, Lists(field, prefix)) :: r == FirstN(all, limit)
    {
      hide Merges;
      var merged := MergeSets(Cut(Lists(field, prefix), limit));
      forall i | 0 <= i < |entries| ensures Ascends(Less, Lists(field, prefix)[i]) {
        assert entries[i].seg.Lawful();
      }
      forall all: seq<string> | Merges(all, Lists(field, prefix)) ensures FirstN(merged, limit) == FirstN(all, limit) {
        LimitedMerge(all, merged, Lists(field, prefix), limit);
      }
      return FirstN(merged, limit);
    }
  }

  /** Document `id` of the whole is in this entry's postings. */
  ghost predicate Holds(e: Entry, field: string, term: string, id: nat, tf: nat) {
    id >= e.base && (id - e.base, tf) in e.seg.postings(field, term)
  }

  lemma {:induction false} LocalBelow(seg: Segment, field: string, term: string, local: nat, tf: nat)
    requires seg.Lawful() && (local, tf) in seg.postings(field, term)
    ensures local < seg.maxDoc
  {
  }

  method Shifted(e: Entry, field: string, term: string) returns (out: seq<(nat, nat)>)
    requires e.seg.Lawful() && e.maxDoc == e.seg.maxDoc
    ensures forall i, j | 0 <= i < j < |out| :: out[i].0 < out[j].0
    ensures forall i | 0 <= i < |out| :: e.base <= out[i].0 < e.base + e.maxDoc
    ensures forall id: nat, tf: nat :: (id, tf) in out <==> Holds(e, field, term, id, tf)
  {
    var ps := e.seg.postings(field, term);
    out := [];
    for j := 0 to |ps|
      invariant |out| == j && forall i | 0 <= i < j :: out[i] == (e.base + ps[i].0, ps[i].1)
    {
      out := out + [(e.base + ps[j].0, ps[j].1)];
    }
    ShiftedHold(e, field, term, out);
  }

  lemma {:induction false} ShiftedHold(e: Entry, field: string, term: string, out: seq<(nat, nat)>)
    requires var ps := e.seg.postings(field, term); |out| == |ps| && forall i | 0 <= i < |ps| :: out[i] == (e.base + ps[i].0, ps[i].1)
    ensures forall id: nat, tf: nat :: (id, tf) in out <==> Holds(e, field, term, id, tf)
  {
    var ps := e.seg.postings(field, term);
    forall id: nat, tf: nat ensures (id, tf) in out <==> Holds(e, field, term, id, tf) {
      if (id, tf) in out {
        var i :| 0 <= i < |out| && out[i] == (id, tf);
        assert ps[i] == (id - e.base, tf);
      }
      if Holds(e, field, term, id, tf) {
        var i :| 0 <= i < |ps| && ps[i] == (id - e.base, tf);
        assert out[i] == (id, tf);
      }
    }
  }

  lemma {:induction false} OneSegmentMore(entries: seq<Entry>, seg: Segment)
    requires Chained(entries)
    ensures Chained(entries + [Entry(End(entries), seg.maxDoc, seg)])
    ensures End(entries + [Entry(End(entries), seg.maxDoc, seg)]) == End(entries) + seg.maxDoc
  {
    var all := entries + [Entry(End(entries), seg.maxDoc, seg)];
    forall i | 0 <= i < |all| ensures all[i].maxDoc == all[i].seg.maxDoc && all[i].base == End(all[..i]) {
      assert all[..i] == entries[..i];
      if i == |entries| {
        assert entries[..i] == entries;
      } else {
        assert all[i] == entries[i];
      }
    }
  }

  /** Opening gives each segment its base. */
  method Open(segs: seq<Segment>) returns (index: Index)
    requires forall i | 0 <= i < |segs| :: segs[i].Lawful()
    ensures index.Valid() && |index.entries| == |segs| && forall i | 0 <= i < |segs| :: index.entries[i].seg == segs[i]
  {
    hide Segment.Lawful;
    var entries: seq<Entry> := [];
    var base: nat := 0;
    for k := 0 to |segs|
      invariant |entries| == k && Chained(entries) && base == End(entries)
      invariant forall i | 0 <= i < k :: entries[i].seg == segs[i]
    {
      ghost var before := entries;
      entries := entries + [Entry(base, segs[k].maxDoc, segs[k])];
      OneSegmentMore(before, segs[k]);
      base := base + segs[k].maxDoc;
    }
    return Index(entries);
  }

  // ----- merging term lists -----

  /** `merged` is the ordered set of everything in the lists. */
  ghost predicate Merges(merged: seq<string>, lists: seq<seq<string>>) {
    Ascends(Less, merged) && forall t :: t in merged <==> exists i | 0 <= i < |lists| :: t in lists[i]
  }

  /** Insertion into an ordered set. */
  function InsertOrdered(s: seq<string>, t: string): seq<string> {
    if s == [] || Less(t, s[0]) then [t] + s
    else if t == s[0] then s
    else [s[0]] + InsertOrdered(s[1..], t)
  }

  lemma {:induction false} InsertedOrdered(s: seq<string>, t: string)
    requires Ascends(Less, s)
    ensures Ascends(Less, InsertOrdered(s, t)) && forall x :: x in InsertOrdered(s, t) <==> x in s || x == t
  {
    hide Less;
    LessOrders();
    if s != [] && !Less(t, s[0]) && t != s[0] {
      Total(t, s[0]);
      var rest := InsertOrdered(s[1..], t);
      InsertedOrdered(s[1..], t);
      assert s == [s[0]] + s[1..];
      forall j | 0 <= j < |rest| ensures Less(s[0], rest[j]) {
        assert rest[j] in rest;
      }
    }
  }

  /** Collects every list into one ordered set. */
  method MergeSets(lists: seq<seq<string>>) returns (merged: seq<string>)
    ensures Merges(merged, lists)
  {
    hide Less, InsertOrdered;
    merged := [];
    for i := 0 to |lists|
      invariant Ascends(Less, merged)
      invariant forall t :: t in merged <==> exists k | 0 <= k < i :: t in lists[k]
    {
      ghost var before := merged;
      for j := 0 to |lists[i]|
        invariant Ascends(Less, merged)
        invariant forall t :: t in merged <==> t in before || t in lists[i][..j]
      {
        InsertedOrdered(merged, lists[i][j]);
        assert lists[i][..j + 1] == lists[i][..j] + [lists[i][j]];
        merged := InsertOrdered(merged, lists[i][j]);
      }
      assert lists[i][..|lists[i]|] == lists[i];
    }
  }

  lemma {:induction false} LessOrders()
    ensures StrictOrder(Less)
  {
    hide Less;
    forall a: string, b: string, c: string
      ensures !Less(a, a) && (Less(a, b) && Less(b, c) ==> Less(a, c)) && (Less(a, c) ==> Less(a, b) || Less(b, c))
    {
      Irreflexive(a);
      Total(a, b);
      if Less(a, b) && Less(b, c) {
        Transitive(a, b, c);
      }
      if Less(b, a) && Less(a, c) {
        Transitive(b, a, c);
      }
    }
  }

  lemma {:induction false} AscendingPlaces(l: seq<string>, i: nat, j: nat)
    requires Ascends(Less, l) && i < |l| && j < |l|
    ensures Less(l[i], l[j]) ==> i < j
    ensures l[i] == l[j] ==> i == j
  {
    hide Less;
    LessOrders();
  }

  /** An element of an ascending list sits no deeper there than in any ascending list that holds it all. */
  lemma {:induction false} NoDeeper(l: seq<string>, all: seq<string>, p: nat, k: nat)
    requires Ascends(Less, l) && Ascends(Less, all) && forall t | t in l :: t in all
    requires p < |l| && k < |all| && l[p] == all[k]
    ensures p <= k
    decreases p
  {
    hide Less;
    if p > 0 {
      assert l[p - 1] in l;
      var m: nat :| m < |all| && all[m] == l[p - 1];
      AscendingPlaces(all, m, k);
      NoDeeper(l, all, p - 1, m);
    }
  }

  /** Two ascending lists, one within the other, start alike as far as the smaller holds the larger's start. */
  lemma {:induction false} SameStart(b: seq<string>, a: seq<string>, n: nat)
    requires Ascends(Less, a) && Ascends(Less, b) && (forall t | t in b :: t in a)
    requires n <= |a| && forall i | 0 <= i < n :: a[i] in b
    ensures n <= |b| && b[..n] == a[..n]
    decreases n
  {
    hide Less;
    if n > 0 {
      SameStart(b, a, n - 1);
      var x := a[n - 1];
      var m: nat :| m < |b| && b[m] == x;
      NoDeeper(b, a, m, n - 1);
      if m < n - 1 {
        assert b[m] == b[..n - 1][m];
        AscendingPlaces(a, m, n - 1);
      }
      assert b[..n] == b[..n - 1] + [b[n - 1]] && a[..n] == a[..n - 1] + [a[n - 1]];
    }
  }

  /** Merging each segment's first `limit` terms gives the first `limit` of all of them. */
  lemma {:induction false} LimitedMerge(merged: seq<string>, limited: seq<string>, lists: seq<seq<string>>, limit: nat)
    requires forall i | 0 <= i < |lists| :: Ascends(Less, lists[i])
    requires Merges(merged, lists) && Merges(limited, Cut(lists, limit))
    ensures FirstN(limited, limit) == FirstN(merged, limit)
  {
    hide Less, Merges, Ascends, Cut;
    var n := if limit <= |merged| then limit else |merged|;
    MergesAscends(merged, lists);
    MergesAscends(limited, Cut(lists, limit));
    LimitedWithin(merged, limited, lists, limit);
    forall k | 0 <= k < n ensures merged[k] in limited {
      EarlyKept(merged, limited, lists, limit, k);
    }
    SameStart(limited, merged, n);
    if n < limit {
      NotLonger(limited, merged);
    }
  }

  lemma {:induction false} MergesAscends(merged: seq<string>, lists: seq<seq<string>>)
    requires Merges(merged, lists)
    ensures Ascends(Less, merged)
  {
  }

  lemma {:induction false} LimitedWithin(merged: seq<string>, limited: seq<string>, lists: seq<seq<string>>, limit: nat)
    requires Merges(merged, lists) && Merges(limited, Cut(lists, limit))
    ensures forall t | t in limited :: t in merged
  {
    hide Less;
    forall t | t in limited ensures t in merged {
      var i :| 0 <= i < |lists| && t in Cut(lists, limit)[i];
      assert t in lists[i];
    }
  }

  /** A term among the first `limit` overall is among the first `limit` of its segment. */
  lemma {:induction false} EarlyKept(merged: seq<string>, limited: seq<string>, lists: seq<seq<string>>, limit: nat, k: nat)
    requires forall i | 0 <= i < |lists| :: Ascends(Less, lists[i])
    requires Merges(merged, lists) && Merges(limited, Cut(lists, limit)) && k < |merged| && k < limit
    ensures merged[k] in limited
  {
    hide Less;
    assert merged[k] in merged;
    var i: nat :| i < |lists| && merged[k] in lists[i];
    var p: nat :| p < |lists[i]| && lists[i][p] == merged[k];
    NoDeeper(lists[i], merged, p, k);
    assert Cut(lists, limit)[i][p] == merged[k];
  }

  function Cut(lists: seq<seq<string>>, limit: nat): (r: seq<seq<string>>)
    ensures |r| == |lists| && forall i | 0 <= i < |r| :: r[i] == FirstN(lists[i], limit)
  {
    seq(|lists|, i requires 0 <= i < |lists| => FirstN(lists[i], limit))
  }

  lemma {:induction false} NotLonger(b: seq<string>, a: seq<string>)
    requires Ascends(Less, a) && Ascends(Less, b) && (forall t | t in b :: t in a)
    ensures |b| <= |a|
  {
    hide Less;
    if b != [] {
      var last := |b| - 1;
      assert b[last] in a;
      var k: nat :| k < |a| && a[k] == b[last];
      NoDeeper(b, a, last, k);
    }
  }
}
