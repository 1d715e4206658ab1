/** The two finalizers: the page `[offset, offset + limit)` of the ranking, by relevance or by a field's
    value, without sorting everything. Scores are real numbers (no NaN). */
module Ranking {
  import opened Wrappers
  import opened Lex
  import opened Sorting

  const USIZE_MAX: nat := 0xFFFF_FFFF_FFFF_FFFF

  datatype Scored = Scored(id: nat, score: real)

  datatype Hit = Hit(id: nat, score: real, fields: map<string, string>)

  datatype Outcome = Outcome(hits: seq<Hit>, total: nat, totalCapped: bool)

  function SaturatingAdd(a: nat, b: nat): nat {
    if a + b > USIZE_MAX then USIZE_MAX else a + b
  }

  predicate DistinctIds(xs: seq<Scored>) {
    forall i, j | 0 <= i < j < |xs| :: xs[i].id != xs[j].id
  }

  function AtLeast(xs: seq<Scored>, minScore: real): seq<Scored> {
    if xs == [] then []
    else AtLeast(xs[..|xs| - 1], minScore) + (if xs[|xs| - 1].score >= minScore then [xs[|xs| - 1]] else [])
  }

  /** `skip(offset).take(limit)` */
  function Page<T>(xs: seq<T>, offset: nat, limit: nat): seq<T> {
    if offset >= |xs| then [] else if limit <= |xs| - offset then xs[offset..offset + limit] else xs[offset..]
  }

  /** Consecutive pages tile the ranking. */
  lemma {:induction false} PagesTile<T>(xs: seq<T>, offset: nat, a: nat, b: nat)
    ensures Page(xs, offset, a) + Page(xs, offset + a, b) == Page(xs, offset, a + b)
    ensures Page(xs, 0, |xs|) == xs
  {
  }

  /** A page needs only the elements before its end. */
  lemma {:induction false} PageOfPrefix<T>(xs: seq<T>, n: nat, offset: nat, limit: nat)
    requires n <= |xs| && (n == |xs| || offset + limit <= n)
    ensures Page(xs[..n], offset, limit) == Page(xs, offset, limit)
  {
  }

  /** Elements that all come before the others make up the front of the sorted whole. */
  lemma {:induction false} TopIsPrefix<T(!new)>(less: (T, T) -> bool, top: seq<T>, rest: seq<T>, all: seq<T>)
    requires StrictOrder(less) && Distinguishes(less, all)
    requires multiset(all) == multiset(top) + multiset(rest)
    requires forall t, r | t in top && r in rest :: less(t, r)
    ensures |top| <= |all| && Sort(less, top) == Sort(less, all)[..|top|]
  {
    hide Sort, Distinguishes;
    assert multiset(all) == multiset(top + rest);
    SameElements(all, top + rest);
    SplitDistinguishes(less, top, rest, all);
    SortAscends(less, top);
    SortAscends(less, rest);
    SortAscends(less, all);
    var joined := Sort(less, top) + Sort(less, rest);
    SameElements(Sort(less, top), top);
    SameElements(Sort(less, rest), rest);
    forall i, j | 0 <= i < j < |joined| ensures less(joined[i], joined[j]) {
      if i < |top| <= j {
        assert joined[i] in Sort(less, top) && joined[j] in Sort(less, rest);
      }
    }
    AscendingUnique(less, joined, Sort(less, all));
  }

  lemma {:induction false} SplitDistinguishes<T(!new)>(less: (T, T) -> bool, top: seq<T>, rest: seq<T>, all: seq<T>)
    requires StrictOrder(less) && Distinguishes(less, all) && multiset(all) == multiset(top + rest)
    ensures Distinguishes(less, top) && Distinguishes(less, rest)
  {
    var both := top + rest;
    SameElements(all, both);
    forall i, j | 0 <= i < j < |both| ensures less(both[i], both[j]) || less(both[j], both[i]) {
      if both[i] == both[j] {
        Twice(both, i, j);
        var a, b := TwoPlaces(all, both[i]);
        Related(less, all, a, b);
        assert false;
      } else {
        Related(less, all, IndexOf(all, both[i]), IndexOf(all, both[j]));
      }
    }
    forall i, j | 0 <= i < j < |top| ensures less(top[i], top[j]) || less(top[j], top[i]) {
      assert both[i] == top[i] && both[j] == top[j];
    }
    forall i, j | 0 <= i < j < |rest| ensures less(rest[i], rest[j]) || less(rest[j], rest[i]) {
      assert both[|top| + i] == rest[i] && both[|top| + j] == rest[j];
    }
  }

  // ----- by relevance -----

  /** Score descending, then id ascending. */
  predicate Better(a: Scored, b: Scored) {
    a.score > b.score || (a.score == b.score && a.id < b.id)
  }

  lemma {:induction false} BetterOrders(xs: seq<Scored>)
    requires DistinctIds(xs)
    ensures StrictOrder(Better) && Distinguishes(Better, xs)
  {
  }

  lemma {:induction false} AtLeastKeeps(xs: seq<Scored>, minScore: real)
    requires DistinctIds(xs)
    ensures DistinctIds(AtLeast(xs, minScore)) && |AtLeast(xs, minScore)| <= |xs|
    ensures forall x :: x in AtLeast(xs, minScore) <==> x in xs && x.score >= minScore
  {
    if xs != [] {
      var before, last := xs[..|xs| - 1], xs[|xs| - 1];
      AtLeastKeeps(before, minScore);
      assert xs == before + [last];
      forall i | 0 <= i < |AtLeast(before, minScore)| ensures AtLeast(before, minScore)[i].id != last.id {
        assert AtLeast(before, minScore)[i] in before;
      }
    }
  }

  /** Higher score first, then smaller id. */
  predicate Outranks(s: real, a: nat, t: real, b: nat) {
    s > t || (s == t && a < b)
  }

  lemma {:induction false} SortedOutranks(xs: seq<Scored>, minScore: real)
    requires DistinctIds(xs)
    ensures var sorted := Sort(Better, AtLeast(xs, minScore));
            && (forall i, j | 0 <= i < j < |sorted| :: Outranks(sorted[i].score, sorted[i].id, sorted[j].score, sorted[j].id))
            && (forall x :: x in sorted <==> x in xs && x.score >= minScore)
            && |sorted| <= |xs|
  {
    hide AtLeast, Sort, Better, StrictOrder, Distinguishes, Outranks;
    var kept := AtLeast(xs, minScore);
    var sorted := Sort(Better, kept);
    AtLeastKeeps(xs, minScore);
    BetterOrders(kept);
    SortAscends(Better, kept);
    SameElements(sorted, kept);
    forall i, j | 0 <= i < j < |sorted| ensures Outranks(sorted[i].score, sorted[i].id, sorted[j].score, sorted[j].id) {
      BetterOutranks(sorted[i], sorted[j]);
    }
  }

  lemma {:induction false} BetterOutranks(a: Scored, b: Scored)
    ensures Better(a, b) <==> Outranks(a.score, a.id, b.score, b.id)
  {
  }

  /** The standard library's selection: afterwards nothing before index `k` is worse than what is there. */
  method SelectNthUnstable(xs: seq<Scored>, k: nat) returns (r: seq<Scored>)
    requires k < |xs| && DistinctIds(xs)
    ensures multiset(r) == multiset(xs) && |r| == |xs|
    ensures forall i, j | 0 <= i < k <= j < |r| :: Better(r[i], r[j])
  {
    BetterOrders(xs);
    SortAscends(Better, xs);
    r := Sort(Better, xs);
  }

  function Hydrate(xs: seq<Scored>, storedFields: nat -> map<string, string>): seq<Hit> {
    seq(|xs|, i requires 0 <= i < |xs| => Hit(xs[i].id, xs[i].score, storedFields(xs[i].id)))
  }

  function CappedTotal(count: nat, cap: Option<nat>): nat {
    if cap.Some? && cap.value < count then cap.value else count
  }

  /** Whatever order the matches come in: exactly the slice of all matches at or above `minScore`,
      sorted; `total` counts them all, up to the cap. */
  method FinalizePaged(scored: seq<Scored>, storedFields: nat -> map<string, string>, minScore: real, offset: nat, limit: nat, totalCap: Option<nat>)
    returns (r: Outcome)
    requires DistinctIds(scored) && |scored| <= USIZE_MAX
    ensures r.hits == Hydrate(Page(Sort(Better, AtLeast(scored, minScore)), offset, limit), storedFields)
    ensures r.total == CappedTotal(|AtLeast(scored, minScore)|, totalCap)
    ensures r.totalCapped <==> totalCap.Some? && |AtLeast(scored, minScore)| > totalCap.value
  {
    hide AtLeast, Sort, Better, StrictOrder, Distinguishes;
    var ranked := AtLeast(scored, minScore);
    ghost var all := ranked;
    AtLeastKeeps(scored, minScore);
    BetterOrders(all);
    var count := |ranked|;
    var need := SaturatingAdd(offset, limit);
    if need < |ranked| {
      var parted := SelectNthUnstable(ranked, need);
      assert parted == parted[..need] + parted[need..];
      TopIsPrefix(Better, parted[..need], parted[need..], all);
      ranked := parted[..need];
    }
    assert all == all[..|all|] && Sort(Better, all) == Sort(Better, all)[..|all|];
    ranked := Sort(Better, ranked);
    PageOfPrefix(Sort(Better, all), |ranked|, offset, limit);
    return Outcome(Hydrate(Page(ranked, offset, limit), storedFields), CappedTotal(count, totalCap),
                   totalCap.Some? && count > totalCap.value);
  }

  // ----- by a field's value -----

  /** Numbers before texts before nothing; the order of the declaration. */
  datatype SortKey = Num(n: int) | Text(s: string) | Missing

  predicate KeyBefore(a: SortKey, b: SortKey) {
    match a
    case Num(n) => if b.Num? then n < b.n else true
    case Text(s) => if b.Text? then Less(s, b.s) else b.Missing?
    case Missing => false
  }

  lemma {:induction false} KeysOrdered(a: SortKey, b: SortKey, c: SortKey)
    ensures !KeyBefore(a, a) && (KeyBefore(a, b) || a == b || KeyBefore(b, a))
    ensures KeyBefore(a, b) && KeyBefore(b, c) ==> KeyBefore(a, c)
  {
    if a.Text? {
      Irreflexive(a.s);
      if b.Text? {
        Total(a.s, b.s);
        if c.Text? && Less(a.s, b.s) && Less(b.s, c.s) {
          Transitive(a.s, b.s, c.s);
        }
      }
    }
  }

  datatype Entry = Entry(key: SortKey, id: nat, score: real)

  /** Missing values last in both directions, then the value, then score descending, then id ascending. */
  predicate Earlier(ascending: bool, a: Entry, b: Entry) {
    if a.key.Missing? != b.key.Missing? then b.key.Missing?
    else if a.key != b.key then (if ascending then KeyBefore(a.key, b.key) else KeyBefore(b.key, a.key))
    else a.score > b.score || (a.score == b.score && a.id < b.id)
  }

  function EntryOrder(ascending: bool): (Entry, Entry) -> bool {
    (a, b) => Earlier(ascending, a, b)
  }

  lemma {:induction false} EarlierChains(ascending: bool, a: Entry, b: Entry, c: Entry)
    ensures !Earlier(ascending, a, a)
    ensures Earlier(ascending, a, b) && Earlier(ascending, b, c) ==> Earlier(ascending, a, c)
    ensures a.id != b.id ==> Earlier(ascending, a, b) || Earlier(ascending, b, a)
    ensures Earlier(ascending, a, c) ==> Earlier(ascending, a, b) || Earlier(ascending, b, c)
    ensures a.key.Missing? && !b.key.Missing? ==> Earlier(ascending, b, a) && !Earlier(ascending, a, b)
  {
    hide KeyBefore;
    KeysOrdered(a.key, b.key, c.key);
    KeysOrdered(c.key, b.key, a.key);
    KeysOrdered(a.key, c.key, b.key);
    KeysOrdered(b.key, a.key, c.key);
    KeysOrdered(b.key, c.key, a.key);
    KeysOrdered(c.key, a.key, b.key);
  }

  /** How two entries stand in a field-sorted ranking, case by case: numbers by size, texts by code points,
      numbers before texts, all turned around when descending; then by score and id; missing values last. */
  ghost predicate Stands(ascending: bool, a: Entry, b: Entry) {
    match (a.key, b.key)
    case (Num(m), Num(n)) => if m == n then Outranks(a.score, a.id, b.score, b.id) else if ascending then m < n else m > n
    case (Text(s), Text(t)) => if s == t then Outranks(a.score, a.id, b.score, b.id) else if ascending then Less(s, t) else Less(t, s)
    case (Num(_), Text(_)) => ascending
    case (Text(_), Num(_)) => !ascending
    case (Missing, Missing) => Outranks(a.score, a.id, b.score, b.id)
    case (_, Missing) => true
    case (Missing, _) => false
  }

  lemma {:induction false} EarlierStands(ascending: bool, a: Entry, b: Entry)
    ensures Earlier(ascending, a, b) <==> Stands(ascending, a, b)
  {
  }

  predicate DistinctEntries(es: seq<Entry>) {
    forall i, j | 0 <= i < j < |es| :: es[i].id != es[j].id
  }

  lemma {:induction false} EntriesOrdered(ascending: bool, es: seq<Entry>)
    requires DistinctEntries(es)
    ensures StrictOrder(EntryOrder(ascending)) && Distinguishes(EntryOrder(ascending), es)
  {
    hide Earlier;
    var less := EntryOrder(ascending);
    forall a, b, c
      ensures !less(a, a) && (less(a, b) && less(b, c) ==> less(a, c)) && (less(a, c) ==> less(a, b) || less(b, c))
    {
      EarlierChains(ascending, a, b, c);
    }
    forall i, j | 0 <= i < j < |es| ensures less(es[i], es[j]) || less(es[j], es[i]) {
      EarlierChains(ascending, es[i], es[j], es[i]);
    }
  }

  /** Where sort values come from: each document's stored value, or a table of the whole numeric field. */
  datatype SortSource = SortSource(
    storedValue: nat -> Option<string>, numericTable: Option<seq<Option<int>>>, parse: string -> Option<int>, totalDocs: nat)
  {
    function FromStored(id: nat): SortKey {
      match storedValue(id)
      case None => Missing
      case Some(v) => if parse(v).Some? then Num(parse(v).value) else Text(v)
    }

    function FromTable(table: seq<Option<int>>, id: nat): SortKey {
      if id < |table| && table[id].Some? then Num(table[id].value) else Missing
    }

    /** The key of a document: the table's, when one is used. */
    function KeyFrom(table: Option<seq<Option<int>>>, id: nat): SortKey {
      match table
      case None => FromStored(id)
      case Some(t) => FromTable(t, id)
    }

    /** The table is used when the matches are worth one and the reader has one. */
    function Chosen(matches: nat): Option<seq<Option<int>>> {
      if WorthATable(matches, totalDocs) then numericTable else None
    }

    /** A match is worth 128 documents: the table is used from one match on, as soon as one match more
        would be worth more documents than there are. */
    lemma {:induction false} ChosenWhen(matches: nat)
      ensures Chosen(matches) == if matches > 0 && totalDocs < 128 * (matches + 1) then numericTable else None
    {
      var q, r := totalDocs / 128, totalDocs % 128;
      assert totalDocs == 128 * q + r;
    }

    /** For these documents the reader's table, if it has one, says what their stored values say. */
    ghost predicate Agrees(ids: set<nat>) {
      numericTable.Some? ==> forall id | id in ids :: FromTable(numericTable.value, id) == FromStored(id)
    }

    function EntryOf(table: Option<seq<Option<int>>>, x: Scored): Entry {
      Entry(KeyFrom(table, x.id), x.id, x.score)
    }

    function Entries(table: Option<seq<Option<int>>>, xs: seq<Scored>): (es: seq<Entry>)
      ensures |es| == |xs| && forall i | 0 <= i < |xs| :: es[i] == EntryOf(table, xs[i])
    {
      seq(|xs|, i requires 0 <= i < |xs| => EntryOf(table, xs[i]))
    }
  }

  const TABLE_MIN_MATCH_FRACTION: nat := 128

  predicate WorthATable(matches: nat, totalDocs: nat) {
    matches > 0 && matches >= totalDocs / TABLE_MIN_MATCH_FRACTION
  }

  /** `BinaryHeap::peek`: the entry that comes last. */
  method Peek(heap: seq<Entry>, ascending: bool) returns (w: nat)
    requires heap != []
    ensures w < |heap| && forall i | 0 <= i < |heap| :: !Earlier(ascending, heap[w], heap[i])
  {
    hide Earlier;
    w := 0;
    EarlierChains(ascending, heap[0], heap[0], heap[0]);
    for k := 1 to |heap|
      invariant w < |heap|
      invariant forall i | 0 <= i < k :: !Earlier(ascending, heap[w], heap[i])
    {
      EarlierChains(ascending, heap[k], heap[k], heap[k]);
      if Earlier(ascending, heap[w], heap[k]) {
        forall i | 0 <= i < k ensures !Earlier(ascending, heap[k], heap[i]) {
          EarlierChains(ascending, heap[w], heap[k], heap[i]);
        }
        w := k;
      }
    }
  }

  /** The heap holds the first `want` of the entries seen, the others all coming after them. */
  ghost predicate Bounded(ascending: bool, heap: seq<Entry>, dropped: seq<Entry>, seen: seq<Entry>, want: nat) {
    && multiset(seen) == multiset(heap) + multiset(dropped)
    && |heap| <= want && (dropped != [] ==> |heap| == want)
    && forall h, r | h in heap && r in dropped :: Earlier(ascending, h, r)
  }

  /** Offers one entry to the bounded heap. */
  method Offer(heap: seq<Entry>, e: Entry, ascending: bool, want: nat, ghost dropped: seq<Entry>, ghost seen: seq<Entry>)
    returns (heap': seq<Entry>, ghost dropped': seq<Entry>)
    requires want > 0 && Bounded(ascending, heap, dropped, seen, want)
    requires DistinctEntries(seen + [e])
    ensures |heap'| == if |heap| < want then |heap| + 1 else |heap|
    ensures forall h | h in heap' :: h in heap || h == e
    ensures Bounded(ascending, heap', dropped', seen + [e], want)
  {
    hide Earlier, Bounded, DistinctEntries;
    if |heap| < want {
      heap', dropped' := heap + [e], dropped;
      RoomLeft(ascending, heap, dropped, seen, want, e);
    } else {
      var w := Peek(heap, ascending);
      if Earlier(ascending, e, heap[w]) {
        // evict the worst entry kept
        heap', dropped' := heap[..w] + heap[w + 1..] + [e], dropped + [heap[w]];
        Evicted(ascending, heap, dropped, seen, want, e, w);
      } else {
        heap', dropped' := heap, dropped + [e];
        Dropped(ascending, heap, dropped, seen, want, e, w);
      }
    }
  }

  lemma {:induction false} RoomLeft(ascending: bool, heap: seq<Entry>, dropped: seq<Entry>, seen: seq<Entry>, want: nat, e: Entry)
    requires Bounded(ascending, heap, dropped, seen, want) && |heap| < want
    ensures Bounded(ascending, heap + [e], dropped, seen + [e], want)
  {
    hide Earlier;
    assert dropped == [];
  }

  /** An entry not before the worst kept comes after all of them. */
  lemma {:induction false} Dropped(ascending: bool, heap: seq<Entry>, dropped: seq<Entry>, seen: seq<Entry>, want: nat, e: Entry, w: nat)
    requires Bounded(ascending, heap, dropped, seen, want) && |heap| >= want && DistinctEntries(seen + [e])
    requires w < |heap| && !Earlier(ascending, e, heap[w]) && forall i | 0 <= i < |heap| :: !Earlier(ascending, heap[w], heap[i])
    ensures Bounded(ascending, heap, dropped + [e], seen + [e], want)
  {
    hide Earlier, DistinctEntries;
    SeenParts(heap, dropped, seen);
    forall h | h in heap ensures Earlier(ascending, h, e) {
      var i := IndexOf(heap, h);
      NewId(seen, e, h);
      NewId(seen, e, heap[w]);
      EarlierChains(ascending, heap[w], e, h);
      EarlierChains(ascending, h, heap[w], e);
      EarlierChains(ascending, h, e, h);
    }
  }

  lemma {:induction false} NewId(seen: seq<Entry>, e: Entry, x: Entry)
    requires DistinctEntries(seen + [e]) && x in seen
    ensures x.id != e.id
  {
    var k := IndexOf(seen, x);
    assert (seen + [e])[k] == x && (seen + [e])[|seen|] == e;
  }

  lemma {:induction false} SeenParts(heap: seq<Entry>, dropped: seq<Entry>, seen: seq<Entry>)
    requires multiset(seen) == multiset(heap) + multiset(dropped)
    ensures forall x :: x in seen <==> x in heap || x in dropped
  {
    SameElements(seen, heap + dropped);
  }

  lemma {:induction false} HeapDistinct(heap: seq<Entry>, dropped: seq<Entry>, seen: seq<Entry>, e: Entry)
    requires DistinctEntries(seen + [e]) && multiset(seen) == multiset(heap) + multiset(dropped)
    ensures DistinctEntries(heap)
  {
    SeenParts(heap, dropped, seen);
    assert forall i, j | 0 <= i < j < |seen| :: seen[i].id != seen[j].id by {
      assert forall i | 0 <= i < |seen| :: (seen + [e])[i] == seen[i];
    }
    forall i, j | 0 <= i < j < |heap| ensures heap[i].id != heap[j].id {
      if heap[i] == heap[j] {
        Twice(heap, i, j);
        var a, b := TwoPlaces(seen, heap[i]);
        assert false;
      } else {
        var a, b := IndexOf(seen, heap[i]), IndexOf(seen, heap[j]);
      }
    }
  }

  lemma {:induction false} Evicted(ascending: bool, heap: seq<Entry>, dropped: seq<Entry>, seen: seq<Entry>, want: nat, e: Entry, w: nat)
    requires Bounded(ascending, heap, dropped, seen, want) && |heap| >= want && DistinctEntries(seen + [e])
    requires w < |heap| && Earlier(ascending, e, heap[w]) && forall i | 0 <= i < |heap| :: !Earlier(ascending, heap[w], heap[i])
    ensures Bounded(ascending, heap[..w] + heap[w + 1..] + [e], dropped + [heap[w]], seen + [e], want)
  {
    hide Earlier;
    HeapDistinct(heap, dropped, seen, e);
    hide DistinctEntries;
    assert heap == heap[..w] + [heap[w]] + heap[w + 1..];
    forall h, r | h in heap[..w] + heap[w + 1..] + [e] && r in dropped + [heap[w]] ensures Earlier(ascending, h, r) {
      if h == e {
        EarlierChains(ascending, e, heap[w], r);
      } else {
        KeptBeforeWorst(ascending, heap, w, h, seen, dropped, e);
      }
    }
  }

  lemma {:induction false} KeptBeforeWorst(ascending: bool, heap: seq<Entry>, w: nat, h: Entry, seen: seq<Entry>, dropped: seq<Entry>, e: Entry)
    requires w < |heap| && h in heap[..w] + heap[w + 1..] && forall i | 0 <= i < |heap| :: !Earlier(ascending, heap[w], heap[i])
    requires DistinctEntries(seen + [e]) && multiset(seen) == multiset(heap) + multiset(dropped)
    ensures h in heap && Earlier(ascending, h, heap[w])
  {
    hide Earlier;
    HeapDistinct(heap, dropped, seen, e);
    var i: nat :| i < |heap| && i != w && h == heap[i];
    EarlierChains(ascending, h, heap[w], h);
  }

  // ----- the order matches come in does not matter -----

  lemma {:induction false} ShuffledDistinct(a: seq<Scored>, b: seq<Scored>)
    requires DistinctIds(a) && multiset(a) == multiset(b)
    ensures DistinctIds(b)
  {
    SameElements(a, b);
    forall i, j | 0 <= i < j < |b| ensures b[i].id != b[j].id {
      if b[i] == b[j] {
        Twice(b, i, j);
        var k, l := TwoPlaces(a, b[i]);
        assert false;
      } else {
        var k, l := IndexOf(a, b[i]), IndexOf(a, b[j]);
      }
    }
  }

  lemma {:induction false} ShuffledRelevance(a: seq<Scored>, b: seq<Scored>, minScore: real)
    requires DistinctIds(a) && multiset(a) == multiset(b)
    ensures Sort(Better, AtLeast(a, minScore)) == Sort(Better, AtLeast(b, minScore))
  {
    hide AtLeast, Sort, Better;
    ShuffledDistinct(a, b);
    SameElements(a, b);
    var ka, kb := AtLeast(a, minScore), AtLeast(b, minScore);
    AtLeastKeeps(a, minScore);
    AtLeastKeeps(b, minScore);
    SameSet(ka, kb);
    BetterOrders(ka);
    BetterOrders(kb);
    SortAscends(Better, ka);
    SortAscends(Better, kb);
    AscendingUnique(Better, Sort(Better, ka), Sort(Better, kb));
  }

  lemma {:induction false} ShuffledField(source: SortSource, table: Option<seq<Option<int>>>, ascending: bool, a: seq<Scored>, b: seq<Scored>, minScore: real)
    requires DistinctIds(a) && multiset(a) == multiset(b)
    ensures |AtLeast(a, minScore)| == |AtLeast(b, minScore)|
    ensures Sort(EntryOrder(ascending), source.Entries(table, AtLeast(a, minScore))) == Sort(EntryOrder(ascending), source.Entries(table, AtLeast(b, minScore)))
  {
    hide AtLeast, Sort, Earlier, EntryOrder, StrictOrder, SortSource.KeyFrom;
    ShuffledDistinct(a, b);
    SameElements(a, b);
    var ka, kb := AtLeast(a, minScore), AtLeast(b, minScore);
    AtLeastKeeps(a, minScore);
    AtLeastKeeps(b, minScore);
    var ea, eb := source.Entries(table, ka), source.Entries(table, kb);
    SameSet(ka, kb);
    SameElements(ka, kb);
    forall x: Entry ensures x in ea <==> x in eb {
      if x in ea {
        var i := IndexOf(ea, x);
        var j := IndexOf(kb, ka[i]);
        assert eb[j] == x;
      }
      if x in eb {
        var i := IndexOf(eb, x);
        var j := IndexOf(ka, kb[i]);
        assert ea[j] == x;
      }
    }
    SameSet(ea, eb);
    var less := EntryOrder(ascending);
    EntriesOrdered(ascending, ea);
    EntriesOrdered(ascending, eb);
    SortAscends(less, ea);
    SortAscends(less, eb);
    AscendingUnique(less, Sort(less, ea), Sort(less, eb));
  }

  predicate SmallerId(a: Scored, b: Scored) {
    a.id < b.id
  }

  function HydrateEntries(es: seq<Entry>, storedFields: nat -> map<string, string>): seq<Hit> {
    seq(|es|, i requires 0 <= i < |es| => Hit(es[i].id, es[i].score, storedFields(es[i].id)))
  }

  lemma {:induction false} HydrateJoins(a: seq<Entry>, b: seq<Entry>, storedFields: nat -> map<string, string>)
    ensures HydrateEntries(a, storedFields) + HydrateEntries(b, storedFields) == HydrateEntries(a + b, storedFields)
  {
  }

  lemma {:induction false} AtLeastStep(xs: seq<Scored>, k: nat, minScore: real)
    requires k < |xs|
    ensures AtLeast(xs[..k + 1], minScore) == if xs[k].score >= minScore then AtLeast(xs[..k], minScore) + [xs[k]] else AtLeast(xs[..k], minScore)
  {
    assert xs[..k + 1][..k] == xs[..k];
    assert AtLeast(xs[..k], minScore) + [] == AtLeast(xs[..k], minScore);
  }

  lemma {:induction false} PrefixEntries(source: SortSource, table: Option<seq<Option<int>>>, xs: seq<Scored>, k: nat, minScore: real)
    requires DistinctIds(xs) && k <= |xs|
    ensures DistinctEntries(source.Entries(table, AtLeast(xs[..k], minScore)))
  {
    hide AtLeast, SortSource.KeyFrom;
    AtLeastKeeps(xs[..k], minScore);
  }

  /** The walk over the matches, feeding the bounded heap. */
  method Retain(order: seq<Scored>, source: SortSource, table: Option<seq<Option<int>>>, minScore: real, ascending: bool, want: nat)
    returns (count: nat, heap: seq<Entry>)
    requires DistinctIds(order)
    ensures count == |AtLeast(order, minScore)|
    ensures var all := Sort(EntryOrder(ascending), source.Entries(table, AtLeast(order, minScore)));
            |heap| <= |all| && Sort(EntryOrder(ascending), heap) == all[..|heap|] && (|heap| == |all| || |heap| == want)
  {
    hide AtLeast, Sort, Earlier, EntryOrder, SortSource.KeyFrom, DistinctEntries;
    count, heap := 0, [];
    ghost var dropped: seq<Entry>, seen: seq<Entry> := [], [];
    NothingSeen(source, table, order, minScore);
    for k := 0 to |order|
      invariant seen == source.Entries(table, AtLeast(order[..k], minScore)) && count == |seen|
      invariant Bounded(ascending, heap, dropped, seen, want)
    {
      var x := order[k];
      AtLeastStep(order, k, minScore);
      if x.score < minScore {
        continue;
      }
      count := count + 1;
      PrefixEntries(source, table, order, k + 1, minScore);
      var e := Entry(source.KeyFrom(table, x.id), x.id, x.score);
      assert e == source.EntryOf(table, x);
      assert source.Entries(table, AtLeast(order[..k + 1], minScore)) == seen + [e];
      if want == 0 {
        dropped := dropped + [e];
      } else {
        heap, dropped := Offer(heap, e, ascending, want, dropped, seen);
      }
      seen := seen + [e];
    }
    assert order[..|order|] == order;
    PrefixEntries(source, table, order, |order|, minScore);
    EntriesOrdered(ascending, seen);
    EarlierIsOrder(ascending, heap, dropped);
    TopIsPrefix(EntryOrder(ascending), heap, dropped, seen);
    Sizes(heap, dropped, seen);
  }

  lemma {:induction false} NothingSeen(source: SortSource, table: Option<seq<Option<int>>>, order: seq<Scored>, minScore: real)
    ensures AtLeast(order[..0], minScore) == [] && source.Entries(table, []) == []
  {
  }

  lemma {:induction false} EarlierIsOrder(ascending: bool, heap: seq<Entry>, dropped: seq<Entry>)
    requires forall h, r | h in heap && r in dropped :: Earlier(ascending, h, r)
    ensures forall h, r | h in heap && r in dropped :: EntryOrder(ascending)(h, r)
  {
  }

  lemma {:induction false} Sizes<T>(a: seq<T>, b: seq<T>, all: seq<T>)
    requires multiset(all) == multiset(a) + multiset(b)
    ensures |all| == |a| + |b|
  {
    SameElements(all, a + b);
  }

  /** The documents matched. */
  function IdsOf(xs: seq<Scored>): set<nat> {
    set i | 0 <= i < |xs| :: xs[i].id
  }

  /** Whatever order the matches come in: exactly the slice of all matches at or above `minScore`, sorted
      by the keys of the source chosen for that many matches, with missing values last. Where the
      reader's table agrees with the stored values, that is the slice sorted by the stored values. */
  method FinalizeSorted(scored: seq<Scored>, storedFields: nat -> map<string, string>, source: SortSource, minScore: real, ascending: bool,
                        offset: nat, limit: nat, totalCap: Option<nat>)
    returns (r: Outcome)
    requires DistinctIds(scored) && |scored| <= USIZE_MAX
    ensures r.hits == SortedPage(scored, storedFields, source, source.Chosen(|scored|), minScore, ascending, offset, limit)
    ensures source.Agrees(IdsOf(scored)) ==> r.hits == SortedPage(scored, storedFields, source, None, minScore, ascending, offset, limit)
    ensures forall i, j | 0 <= i < j < |r.hits| ::
              source.KeyFrom(source.Chosen(|scored|), r.hits[i].id).Missing? ==> source.KeyFrom(source.Chosen(|scored|), r.hits[j].id).Missing?
    ensures r.total == CappedTotal(|AtLeast(scored, minScore)|, totalCap)
    ensures r.totalCapped <==> totalCap.Some? && |AtLeast(scored, minScore)| > totalCap.value
  {
    hide AtLeast, Sort, Earlier, EntryOrder, SortSource.KeyFrom, SortSource.Agrees, SortSource.Entries, IdsOf, SmallerId;
    var want := SaturatingAdd(offset, limit);
    var table := if want > 0 && WorthATable(|scored|, source.totalDocs) then source.numericTable else None;
    var order := if table.None? then Sort(SmallerId, scored) else scored;
    ShuffledDistinct(scored, order);
    ShuffledField(source, table, ascending, scored, order, minScore);
    AtLeastKeeps(order, minScore);
    var count, heap := Retain(order, source, table, minScore, ascending, want);
    var top := Sort(EntryOrder(ascending), heap);
    PageOfPrefix(Sort(EntryOrder(ascending), source.Entries(table, AtLeast(order, minScore))), |top|, offset, limit);
    r := Outcome(HydrateEntries(Page(top, offset, limit), storedFields), CappedTotal(count, totalCap),
                 totalCap.Some? && count > totalCap.value);
    MissingLast(scored, storedFields, source, source.Chosen(|scored|), minScore, ascending, offset, limit);
    if source.Agrees(IdsOf(scored)) {
      SameKeys(scored, source, source.Chosen(|scored|), minScore);
    }
  }

  /** The page of all matches at or above `minScore`, sorted by the keys of one source. */
  function SortedPage(scored: seq<Scored>, storedFields: nat -> map<string, string>, source: SortSource, table: Option<seq<Option<int>>>,
                      minScore: real, ascending: bool, offset: nat, limit: nat): (hits: seq<Hit>)
    ensures |hits| <= limit
  {
    HydrateEntries(Page(Sort(EntryOrder(ascending), source.Entries(table, AtLeast(scored, minScore))), offset, limit), storedFields)
  }

  lemma {:induction false} SameKeys(scored: seq<Scored>, source: SortSource, table: Option<seq<Option<int>>>, minScore: real)
    requires DistinctIds(scored) && source.Agrees(IdsOf(scored)) && (table.Some? ==> table == source.numericTable)
    ensures source.Entries(table, AtLeast(scored, minScore)) == source.Entries(None, AtLeast(scored, minScore))
  {
    hide AtLeast, SortSource.FromStored, SortSource.FromTable;
    var kept := AtLeast(scored, minScore);
    AtLeastKeeps(scored, minScore);
    forall i | 0 <= i < |kept| ensures source.EntryOf(table, kept[i]) == source.EntryOf(None, kept[i]) {
      var j := IndexOf(scored, kept[i]);
      assert scored[j].id in IdsOf(scored);
    }
  }

  /** A missing value is followed by missing values only. */
  lemma {:induction false} MissingLast(scored: seq<Scored>, storedFields: nat -> map<string, string>, source: SortSource, table: Option<seq<Option<int>>>,
                                       minScore: real, ascending: bool, offset: nat, limit: nat)
    requires DistinctIds(scored)
    ensures var hits := SortedPage(scored, storedFields, source, table, minScore, ascending, offset, limit);
            forall i, j | 0 <= i < j < |hits| :: source.KeyFrom(table, hits[i].id).Missing? ==> source.KeyFrom(table, hits[j].id).Missing?
  {
    hide AtLeast, Sort, EntryOrder, SortSource.KeyFrom, Earlier;
    var es := source.Entries(table, AtLeast(scored, minScore));
    var all := Sort(EntryOrder(ascending), es);
    AtLeastKeeps(scored, minScore);
    EntriesOrdered(ascending, es);
    SortAscends(EntryOrder(ascending), es);
    SameElements(all, es);
    forall k | 0 <= k < |all| ensures all[k].key == source.KeyFrom(table, all[k].id) {
      var m := IndexOf(es, all[k]);
    }
    forall i, j | 0 <= i < j < |all| ensures all[i].key.Missing? ==> all[j].key.Missing? {
      EarlierInOrder(ascending, all, i, j);
      EarlierChains(ascending, all[i], all[j], all[i]);
    }
  }

  lemma {:induction false} EarlierInOrder(ascending: bool, es: seq<Entry>, i: nat, j: nat)
    requires Ascends(EntryOrder(ascending), es) && i < j < |es|
    ensures Earlier(ascending, es[i], es[j])
  {
    hide Earlier;
    assert EntryOrder(ascending)(es[i], es[j]);
  }
}
