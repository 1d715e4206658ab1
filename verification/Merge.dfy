/** Merging segments: live documents are renumbered densely and each term's postings are copied over,
    never re-tokenized. The streaming merge walks all dictionaries at once with a heap of cursors; the
    batch merge collects a map and sorts it. */
module Merging {
  import opened Wrappers
  import opened Lex
  import opened Sorting
  import opened Postings

  datatype Posted = Posted(key: Key, docs: seq<Posting>)

  /** One segment: its terms in dictionary order with their decoded postings, and its deletions. */
  datatype Source = Source(entries: seq<Posted>, maxDoc: nat, deleted: nat -> bool) {

    /** Terms strictly ascend, and postings name documents of the segment. */
    predicate Lawful() {
      && (forall i, j | 0 <= i < j < |entries| :: KeyLess(entries[i].key, entries[j].key))
      && (forall i, j | 0 <= i < |entries| && 0 <= j < |entries[i].docs| :: entries[i].docs[j].doc < maxDoc)
    }

    /** Live documents below `n`. */
    function LiveBelow(n: nat): nat {
      if n == 0 then 0 else LiveBelow(n - 1) + if deleted(n - 1) then 0 else 1
    }

    function DocsFrom(k: nat, key: Key): seq<Posting>
      requires k <= |entries|
      decreases |entries| - k
    {
      if k == |entries| then [] else if entries[k].key == key then entries[k].docs else DocsFrom(k + 1, key)
    }

    /** The postings of a term, none when the segment lacks it. */
    function DocsOf(key: Key): seq<Posting> {
      DocsFrom(0, key)
    }

    lemma {:induction false} DocsAt(k: nat, i: nat)
      requires Lawful() && k <= i < |entries|
      ensures DocsFrom(k, entries[i].key) == entries[i].docs
      decreases i - k
    {
      hide KeyLess;
      if k < i {
        KeyAsymmetric(entries[k].key, entries[i].key);
        DocsAt(k + 1, i);
      }
    }

    lemma {:induction false} DocsMissing(k: nat, key: Key)
      requires k <= |entries| && forall i | k <= i < |entries| :: entries[i].key != key
      ensures DocsFrom(k, key) == []
      decreases |entries| - k
    {
      if k < |entries| {
        DocsMissing(k + 1, key);
      }
    }
  }

  // ----- dense renumbering -----

  /** Live documents of the first `n` segments. */
  function LiveBefore(sources: seq<Source>, n: nat): nat
    requires n <= |sources|
  {
    if n == 0 then 0 else LiveBefore(sources, n - 1) + sources[n - 1].LiveBelow(sources[n - 1].maxDoc)
  }

  function NewId(src: Source, base: nat, local: nat): Option<nat> {
    if src.deleted(local) then None else Some(base + src.LiveBelow(local))
  }

  method DenseMaps(sources: seq<Source>) returns (maps: seq<seq<Option<nat>>>, count: nat)
    ensures |maps| == |sources| && count == LiveBefore(sources, |sources|)
    ensures forall si | 0 <= si < |sources| ::
              |maps[si]| == sources[si].maxDoc
              && forall l | 0 <= l < |maps[si]| :: maps[si][l] == NewId(sources[si], LiveBefore(sources, si), l)
  {
    maps, count := [], 0;
    for si := 0 to |sources|
      invariant |maps| == si && count == LiveBefore(sources, si)
      invariant forall s | 0 <= s < si ::
                  |maps[s]| == sources[s].maxDoc && forall l | 0 <= l < |maps[s]| :: maps[s][l] == NewId(sources[s], LiveBefore(sources, s), l)
    {
      var src, map0: seq<Option<nat>> := sources[si], [];
      for local := 0 to src.maxDoc
        invariant |map0| == local && count == LiveBefore(sources, si) + src.LiveBelow(local)
        invariant forall l | 0 <= l < local :: map0[l] == NewId(src, LiveBefore(sources, si), l)
      {
        if src.deleted(local) {
          map0 := map0 + [None];
          continue;
        }
        map0 := map0 + [Some(count)];
        count := count + 1;
      }
      maps := maps + [map0];
    }
  }

  // ----- what merging means -----

  /** A segment's live postings under their new ids. */
  function Remapped(src: Source, base: nat, docs: seq<Posting>): seq<Posting> {
    if docs == [] then []
    else
      var last := docs[|docs| - 1];
      Remapped(src, base, docs[..|docs| - 1])
      + (if src.deleted(last.doc) then [] else [Posting(base + src.LiveBelow(last.doc), last.positions)])
  }

  /** A term's postings over the first `n` segments, segment by segment. */
  function MergedDocs(sources: seq<Source>, n: nat, key: Key): seq<Posting>
    requires n <= |sources|
  {
    if n == 0 then []
    else MergedDocs(sources, n - 1, key) + Remapped(sources[n - 1], LiveBefore(sources, n - 1), sources[n - 1].DocsOf(key))
  }

  /** `out` lists, in order, exactly the terms that keep some live document, with their merged postings. */
  ghost predicate IsMerge(out: seq<Posted>, sources: seq<Source>) {
    && (forall i, j | 0 <= i < j < |out| :: KeyLess(out[i].key, out[j].key))
    && (forall i | 0 <= i < |out| :: out[i].docs == MergedDocs(sources, |sources|, out[i].key) != [])
    && (forall key: Key | MergedDocs(sources, |sources|, key) != [] :: exists i | 0 <= i < |out| :: out[i].key == key)
  }

  function PostedLess(): (Posted, Posted) -> bool {
    (a: Posted, b: Posted) => KeyLess(a.key, b.key)
  }

  lemma {:induction false} PostedOrder()
    ensures StrictOrder(PostedLess())
  {
    hide KeyLess;
    forall a: Posted, b: Posted, c: Posted
      ensures !KeyLess(a.key, a.key) && (KeyLess(a.key, b.key) && KeyLess(b.key, c.key) ==> KeyLess(a.key, c.key))
      ensures KeyLess(a.key, c.key) ==> KeyLess(a.key, b.key) || KeyLess(b.key, c.key)
    {
      if KeyLess(a.key, a.key) {
        KeyAsymmetric(a.key, a.key);
      }
      KeyTotal(a.key, b.key);
      if KeyLess(a.key, b.key) && KeyLess(b.key, c.key) {
        KeyTransitive(a.key, b.key, c.key);
      }
      if KeyLess(b.key, a.key) && KeyLess(a.key, c.key) {
        KeyTransitive(b.key, a.key, c.key);
      }
    }
  }

  /** There is one merge: any two ways of merging give the same list, hence the same bytes. */
  lemma {:induction false} MergeUnique(a: seq<Posted>, b: seq<Posted>, sources: seq<Source>)
    requires IsMerge(a, sources) && IsMerge(b, sources)
    ensures a == b
  {
    hide KeyLess, MergedDocs;
    PostedOrder();
    MergeDistinct(a, sources);
    MergeDistinct(b, sources);
    forall x: Posted ensures x in a <==> x in b {
      if x in a {
        MergeWithin(a, b, sources, x);
      }
      if x in b {
        MergeWithin(b, a, sources, x);
      }
    }
    SameSet(a, b);
    AscendingUnique(PostedLess(), a, b);
  }

  lemma {:induction false} MergeDistinct(a: seq<Posted>, sources: seq<Source>)
    requires IsMerge(a, sources)
    ensures forall i, j | 0 <= i < j < |a| :: a[i] != a[j]
    ensures Ascends(PostedLess(), a)
  {
    hide KeyLess, MergedDocs;
    forall i, j | 0 <= i < j < |a| ensures a[i] != a[j] {
      KeyAsymmetric(a[i].key, a[j].key);
    }
  }

  lemma {:induction false} MergeWithin(a: seq<Posted>, b: seq<Posted>, sources: seq<Source>, x: Posted)
    requires IsMerge(a, sources) && IsMerge(b, sources) && x in a
    ensures x in b
  {
    hide KeyLess, MergedDocs;
    var i: nat :| i < |a| && a[i] == x;
    var j :| 0 <= j < |b| && b[j].key == x.key;
    assert b[j] == x;
  }

  // ----- copying one segment's postings -----

  method CopyLive(src: Source, map0: seq<Option<nat>>, ghost base: nat, docs: seq<Posting>, before: seq<Posting>) returns (out: seq<Posting>)
    requires |map0| == src.maxDoc && forall l | 0 <= l < |map0| :: map0[l] == NewId(src, base, l)
    requires forall j | 0 <= j < |docs| :: docs[j].doc < src.maxDoc
    ensures out == before + Remapped(src, base, docs)
  {
    out := before;
    assert docs[..0] == [];
    assert out + [] == out;
    for j := 0 to |docs|
      invariant out == before + Remapped(src, base, docs[..j])
    {
      assert docs[..j + 1][..j] == docs[..j];
      var d := docs[j];
      if src.deleted(d.doc) {
        assert Remapped(src, base, docs[..j]) + [] == Remapped(src, base, docs[..j]);
        continue;
      }
      if map0[d.doc].Some? {
        out := out + [Posting(map0[d.doc].value, d.positions)];
      }
    }
    assert docs[..|docs|] == docs;
  }

  // ----- the streaming merge -----

  /** A heap entry: a segment's current term. */
  datatype Slot = Slot(key: Key, si: nat)

  predicate SlotLess(a: Slot, b: Slot) {
    KeyLess(a.key, b.key) || (a.key == b.key && a.si < b.si)
  }

  predicate InBounds(sources: seq<Source>, pos: seq<nat>) {
    |pos| == |sources| && forall si | 0 <= si < |sources| :: pos[si] <= |sources[si].entries|
  }

  /** The segments that have terms left, each at its current term. */
  function HeapOf(sources: seq<Source>, pos: seq<nat>): (heap: set<Slot>)
    requires InBounds(sources, pos)
  {
    set si | 0 <= si < |sources| && pos[si] < |sources[si].entries| :: Slot(sources[si].entries[pos[si]].key, si)
  }

  /** `BinaryHeap::pop`, least first. */
  method Least(heap: set<Slot>) returns (s: Slot)
    requires heap != {}
    ensures s in heap && forall t | t in heap && t != s :: SlotLess(s, t)
  {
    hide KeyLess;
    s :| s in heap;
    var left := heap - {s};
    while left != {}
      invariant left <= heap && s in heap && s !in left
      invariant forall t | t in heap && t !in left && t != s :: SlotLess(s, t)
      decreases |left|
    {
      var t :| t in left;
      KeyTotal(s.key, t.key);
      if SlotLess(t, s) {
        forall u | u in heap && u !in left && u != s ensures SlotLess(t, u) {
          SlotTransitive(t, s, u);
        }
        s := t;
      }
      left := left - {t};
    }
  }

  lemma {:induction false} SlotTransitive(a: Slot, b: Slot, c: Slot)
    requires SlotLess(a, b) && SlotLess(b, c)
    ensures SlotLess(a, c)
  {
    hide KeyLess;
    if KeyLess(a.key, b.key) && KeyLess(b.key, c.key) {
      KeyTransitive(a.key, b.key, c.key);
    }
  }

  /** Every term already taken precedes every term left. */
  ghost predicate Split(sources: seq<Source>, pos: seq<nat>)
    requires InBounds(sources, pos)
  {
    forall si, i, sj, j | 0 <= si < |sources| && 0 <= i < pos[si] && 0 <= sj < |sources| && pos[sj] <= j < |sources[sj].entries| ::
      KeyLess(sources[si].entries[i].key, sources[sj].entries[j].key)
  }

  /** A segment at the term, with the postings captured there before the cursor moves on. */
  datatype Part = Part(si: nat, docs: seq<Posting>)

  /** The cursors after the segments in `taken` moved past their term. */
  function Moved(pos: seq<nat>, taken: set<nat>): (r: seq<nat>)
    ensures |r| == |pos| && forall si | 0 <= si < |pos| :: r[si] == if si in taken then pos[si] + 1 else pos[si]
  {
    seq(|pos|, si requires 0 <= si < |pos| => if si in taken then pos[si] + 1 else pos[si])
  }

  /** Segment `si` stands at the term. */
  predicate StandsAt(sources: seq<Source>, pos: seq<nat>, key: Key, si: nat) {
    si < |sources| && |pos| == |sources| && pos[si] < |sources[si].entries| && sources[si].entries[pos[si]].key == key
  }

  ghost predicate AllLawful(sources: seq<Source>) {
    forall si | 0 <= si < |sources| :: sources[si].Lawful()
  }

  function PartOrder(): (Part, Part) -> bool {
    (a: Part, b: Part) => a.si < b.si
  }

  /** The parts gathered are of distinct segments standing at the term. */
  ghost predicate Gathered(parts: seq<Part>, taken: set<nat>, sources: seq<Source>, pos: seq<nat>, key: Key) {
    && (forall i | 0 <= i < |parts| :: StandsAt(sources, pos, key, parts[i].si) && parts[i].docs == sources[parts[i].si].entries[pos[parts[i].si]].docs)
    && (forall i, j | 0 <= i < j < |parts| :: parts[i].si != parts[j].si)
    && (forall si: nat :: si in taken <==> exists i | 0 <= i < |parts| :: parts[i].si == si)
  }

  /** Moving a cursor on replaces its heap entry by the next term's. */
  lemma {:induction false} HeapMoves(sources: seq<Source>, pos: seq<nat>, si: nat)
    requires InBounds(sources, pos) && si < |sources| && pos[si] < |sources[si].entries|
    ensures InBounds(sources, pos[si := pos[si] + 1])
    ensures var rest := HeapOf(sources, pos) - {Slot(sources[si].entries[pos[si]].key, si)};
            HeapOf(sources, pos[si := pos[si] + 1]) ==
              if pos[si] + 1 < |sources[si].entries| then rest + {Slot(sources[si].entries[pos[si] + 1].key, si)} else rest
  {
    var pos' := pos[si := pos[si] + 1];
    var rest := HeapOf(sources, pos) - {Slot(sources[si].entries[pos[si]].key, si)};
    var next := if pos'[si] < |sources[si].entries| then rest + {Slot(sources[si].entries[pos'[si]].key, si)} else rest;
    forall t ensures t in HeapOf(sources, pos') <==> t in next {
      if t.si < |sources| && t.si != si {
        assert pos'[t.si] == pos[t.si];
      }
    }
  }

  /** Pops one segment standing at the term and moves its cursor on. */
  method TakeOne(sources: seq<Source>, pos: seq<nat>, heap: set<Slot>, s: Slot) returns (pos': seq<nat>, heap': set<Slot>, part: Part)
    requires InBounds(sources, pos) && heap == HeapOf(sources, pos) && s in heap
    ensures StandsAt(sources, pos, s.key, s.si) && part == Part(s.si, sources[s.si].entries[pos[s.si]].docs)
    ensures pos' == pos[s.si := pos[s.si] + 1] && InBounds(sources, pos') && heap' == HeapOf(sources, pos')
  {
    var docs := sources[s.si].entries[pos[s.si]].docs;
    HeapMoves(sources, pos, s.si);
    pos' := pos[s.si := pos[s.si] + 1];
    heap' := heap - {s};
    if pos'[s.si] < |sources[s.si].entries| {
      heap' := heap' + {Slot(sources[s.si].entries[pos'[s.si]].key, s.si)};
    }
    part := Part(s.si, docs);
  }

  /** The term is the least of those left. */
  ghost predicate LeastLeft(sources: seq<Source>, pos: seq<nat>, key: Key)
    requires InBounds(sources, pos)
  {
    forall si, j | 0 <= si < |sources| && pos[si] <= j < |sources[si].entries| :: KeyAtMost(key, sources[si].entries[j].key)
  }

  lemma {:induction false} LeastIsLeft(sources: seq<Source>, pos: seq<nat>, s: Slot)
    requires AllLawful(sources) && InBounds(sources, pos) && s in HeapOf(sources, pos)
    requires forall t | t in HeapOf(sources, pos) && t != s :: SlotLess(s, t)
    ensures LeastLeft(sources, pos, s.key)
  {
    hide KeyLess;
    forall si, j | 0 <= si < |sources| && pos[si] <= j < |sources[si].entries| ensures KeyAtMost(s.key, sources[si].entries[j].key) {
      var first := sources[si].entries[pos[si]].key;
      assert Slot(first, si) in HeapOf(sources, pos);
      assert sources[si].Lawful();
      if pos[si] < j && KeyLess(s.key, first) {
        KeyTransitive(s.key, first, sources[si].entries[j].key);
      }
    }
  }

  lemma {:induction false} MovedOnce(pos: seq<nat>, taken: set<nat>, si: nat)
    requires si < |pos| && si !in taken
    ensures Moved(pos, taken)[si := Moved(pos, taken)[si] + 1] == Moved(pos, taken + {si})
  {
  }

  /** Gathers every segment standing at the least term, capturing its postings before moving it on. */
  method GatherTerm(sources: seq<Source>, pos: seq<nat>, heap: set<Slot>) returns (key: Key, parts: seq<Part>, pos': seq<nat>, heap': set<Slot>, ghost taken: set<nat>)
    requires AllLawful(sources) && InBounds(sources, pos) && heap == HeapOf(sources, pos) != {}
    ensures LeastLeft(sources, pos, key) && parts != [] && Gathered(parts, taken, sources, pos, key)
    ensures pos' == Moved(pos, taken) && InBounds(sources, pos') && heap' == HeapOf(sources, pos')
    ensures forall si: nat :: StandsAt(sources, pos, key, si) <==> si in taken
  {
    hide KeyLess, Gathered, HeapOf, AllLawful, Source.Lawful;
    var s := Least(heap);
    LeastIsLeft(sources, pos, s);
    key := s.key;
    var part: Part;
    pos', heap', part := TakeOne(sources, pos, heap, s);
    parts, taken := [part], {s.si};
    assert pos' == Moved(pos, taken);
    FirstPart(part, sources, pos, key);
    while heap' != {}
      invariant parts != [] && Gathered(parts, taken, sources, pos, key)
      invariant pos' == Moved(pos, taken) && InBounds(sources, pos') && heap' == HeapOf(sources, pos')
      decreases Left(sources, pos')
    {
      var t := Least(heap');
      if t.key != key {
        break;
      }
      NotTaken(sources, pos, key, parts, taken, t);
      ghost var was := pos';
      pos', heap', part := TakeOne(sources, pos', heap', t);
      LeftShrinks(sources, was, t.si);
      MovedOnce(pos, taken, t.si);
      NextPart(parts, taken, sources, pos, key, part);
      parts, taken := parts + [part], taken + {t.si};
    }
    AllTaken(sources, pos, key, parts, taken, heap');
  }

  /** Terms left to take. */
  ghost function Left(sources: seq<Source>, pos: seq<nat>): nat
    requires InBounds(sources, pos)
  {
    if sources == [] then 0
    else
      var n := |sources| - 1;
      assert forall si | 0 <= si < n :: sources[..n][si] == sources[si] && pos[..n][si] == pos[si];
      Left(sources[..n], pos[..n]) + |sources[n].entries| - pos[n]
  }

  lemma {:induction false} LeftShrinks(sources: seq<Source>, pos: seq<nat>, si: nat)
    requires InBounds(sources, pos) && si < |sources| && pos[si] < |sources[si].entries|
    ensures InBounds(sources, pos[si := pos[si] + 1]) && Left(sources, pos[si := pos[si] + 1]) < Left(sources, pos)
    decreases |sources|
  {
    var n := |sources| - 1;
    assert forall s | 0 <= s < n :: sources[..n][s] == sources[s] && pos[..n][s] == pos[s];
    if si < n {
      LeftShrinks(sources[..n], pos[..n], si);
      assert pos[si := pos[si] + 1][..n] == pos[..n][si := pos[si] + 1];
    } else {
      assert pos[si := pos[si] + 1][..n] == pos[..n];
    }
  }

  lemma {:induction false} FirstPart(part: Part, sources: seq<Source>, pos: seq<nat>, key: Key)
    requires StandsAt(sources, pos, key, part.si) && part.docs == sources[part.si].entries[pos[part.si]].docs
    ensures Gathered([part], {part.si}, sources, pos, key)
  {
    assert [part][0] == part;
  }

  lemma {:induction false} NextPart(parts: seq<Part>, taken: set<nat>, sources: seq<Source>, pos: seq<nat>, key: Key, part: Part)
    requires Gathered(parts, taken, sources, pos, key) && part.si !in taken
    requires StandsAt(sources, pos, key, part.si) && part.docs == sources[part.si].entries[pos[part.si]].docs
    ensures Gathered(parts + [part], taken + {part.si}, sources, pos, key)
  {
    hide StandsAt;
    var all := parts + [part];
    forall si: nat ensures si in taken + {part.si} <==> exists i | 0 <= i < |all| :: all[i].si == si {
      if si in taken {
        var i :| 0 <= i < |parts| && parts[i].si == si;
        assert all[i].si == si;
      }
      if si == part.si {
        assert all[|parts|].si == si;
      }
    }
  }

  /** A heap entry with the term's key is of a segment not taken yet. */
  lemma {:induction false} NotTaken(sources: seq<Source>, pos: seq<nat>, key: Key, parts: seq<Part>, taken: set<nat>, t: Slot)
    requires AllLawful(sources) && InBounds(sources, pos) && InBounds(sources, Moved(pos, taken)) && Gathered(parts, taken, sources, pos, key)
    requires t in HeapOf(sources, Moved(pos, taken)) && t.key == key
    ensures t.si !in taken && StandsAt(sources, pos, key, t.si)
    ensures Moved(pos, taken)[t.si] == pos[t.si]
  {
    hide KeyLess;
    if t.si in taken {
      assert sources[t.si].Lawful();
      KeyAsymmetric(sources[t.si].entries[pos[t.si]].key, sources[t.si].entries[pos[t.si] + 1].key);
    }
  }

  /** When the least entry has another key, every segment standing at the term was taken. */
  lemma {:induction false} AllTaken(sources: seq<Source>, pos: seq<nat>, key: Key, parts: seq<Part>, taken: set<nat>, heap: set<Slot>)
    requires InBounds(sources, pos) && InBounds(sources, Moved(pos, taken)) && Gathered(parts, taken, sources, pos, key)
    requires heap == HeapOf(sources, Moved(pos, taken)) && LeastLeft(sources, pos, key)
    requires heap != {} ==> exists t :: t in heap && t.key != key && forall u | u in heap && u != t :: SlotLess(t, u)
    ensures forall si: nat :: StandsAt(sources, pos, key, si) <==> si in taken
  {
    hide KeyLess;
    forall si: nat | StandsAt(sources, pos, key, si) && si !in taken ensures false {
      var u := Slot(key, si);
      assert u in heap;
      var t :| t in heap && t.key != key && forall u | u in heap && u != t :: SlotLess(t, u);
      assert SlotLess(t, u);
      var j := Moved(pos, taken)[t.si];
      assert KeyAtMost(key, sources[t.si].entries[j].key);
      KeyAsymmetric(t.key, key);
    }
  }

  // ----- one merged term -----

  /** The parts' live postings, part by part. */
  function Copied(sources: seq<Source>, parts: seq<Part>): seq<Posting>
    requires forall i | 0 <= i < |parts| :: parts[i].si < |sources|
  {
    if parts == [] then []
    else
      var last := parts[|parts| - 1];
      Copied(sources, parts[..|parts| - 1]) + Remapped(sources[last.si], LiveBefore(sources, last.si), last.docs)
  }

  /** The parts ascend, are among the first `n` segments, and cover every one of them with the term. */
  ghost predicate Covers(parts: seq<Part>, sources: seq<Source>, n: nat, key: Key)
    requires n <= |sources|
  {
    && (forall i | 0 <= i < |parts| :: parts[i].si < n && parts[i].docs == sources[parts[i].si].DocsOf(key))
    && (forall i, j | 0 <= i < j < |parts| :: parts[i].si < parts[j].si)
    && (forall si | 0 <= si < n && sources[si].DocsOf(key) != [] :: exists i | 0 <= i < |parts| :: parts[i].si == si)
  }

  lemma {:induction false} CoversFewer(parts: seq<Part>, sources: seq<Source>, n: nat, key: Key)
    requires 0 < n <= |sources| && Covers(parts, sources, n, key)
    ensures parts != [] && parts[|parts| - 1].si == n - 1 ==> Covers(parts[..|parts| - 1], sources, n - 1, key)
    ensures parts == [] || parts[|parts| - 1].si != n - 1 ==> Covers(parts, sources, n - 1, key) && sources[n - 1].DocsOf(key) == []
  {
    hide Source.DocsOf;
    var last := |parts| - 1;
    if parts != [] && parts[last].si == n - 1 {
      forall si | 0 <= si < n - 1 && sources[si].DocsOf(key) != [] ensures exists i | 0 <= i < last :: parts[..last][i].si == si {
        var i :| 0 <= i < |parts| && parts[i].si == si;
        assert parts[..last][i] == parts[i];
      }
    }
  }

  /** Ascending parts that cover every segment with the term copy out its merged postings. */
  lemma {:induction false} CopiedIsMerged(sources: seq<Source>, parts: seq<Part>, n: nat, key: Key)
    requires n <= |sources| && Covers(parts, sources, n, key)
    ensures Copied(sources, parts) == MergedDocs(sources, n, key)
    decreases n
  {
    hide Remapped, LiveBefore, Source.DocsOf;
    if n == 0 {
      assert parts == [];
    } else {
      CoversFewer(parts, sources, n, key);
      hide Covers;
      var last := |parts| - 1;
      if parts != [] && parts[last].si == n - 1 {
        CopiedIsMerged(sources, parts[..last], n - 1, key);
      } else {
        CopiedIsMerged(sources, parts, n - 1, key);
        NothingRemapped(sources[n - 1], LiveBefore(sources, n - 1));
        assert MergedDocs(sources, n - 1, key) + [] == MergedDocs(sources, n - 1, key);
      }
    }
  }

  lemma {:induction false} NothingRemapped(src: Source, base: nat)
    ensures Remapped(src, base, []) == []
  {
  }

  /** A segment not standing at the least term does not have it; one standing there has the captured postings. */
  lemma {:induction false} TermDocs(sources: seq<Source>, pos: seq<nat>, key: Key, si: nat)
    requires AllLawful(sources) && InBounds(sources, pos) && Split(sources, pos) && LeastLeft(sources, pos, key)
    requires exists sj: nat :: StandsAt(sources, pos, key, sj)
    requires si < |sources|
    ensures StandsAt(sources, pos, key, si) ==> sources[si].DocsOf(key) == sources[si].entries[pos[si]].docs
    ensures !StandsAt(sources, pos, key, si) ==> sources[si].DocsOf(key) == []
  {
    hide KeyLess;
    var src := sources[si];
    assert src.Lawful();
    if StandsAt(sources, pos, key, si) {
      src.DocsAt(0, pos[si]);
    } else {
      var sj: nat :| StandsAt(sources, pos, key, sj);
      forall i | 0 <= i < |src.entries| ensures src.entries[i].key != key {
        if i < pos[si] {
          assert KeyLess(src.entries[i].key, sources[sj].entries[pos[sj]].key);
          KeyAsymmetric(src.entries[i].key, key);
        } else if pos[si] < i {
          assert KeyAtMost(key, src.entries[pos[si]].key);
          KeyAsymmetric(src.entries[pos[si]].key, src.entries[i].key);
        }
      }
      src.DocsMissing(0, key);
    }
  }

  method MergeTerm(sources: seq<Source>, maps: seq<seq<Option<nat>>>, ghost pos: seq<nat>, key: Key, parts: seq<Part>, ghost taken: set<nat>) returns (docs: seq<Posting>)
    requires AllLawful(sources) && InBounds(sources, pos) && Split(sources, pos) && LeastLeft(sources, pos, key)
    requires parts != [] && Gathered(parts, taken, sources, pos, key) && forall si: nat :: StandsAt(sources, pos, key, si) <==> si in taken
    requires |maps| == |sources| && forall si | 0 <= si < |sources| ::
               |maps[si]| == sources[si].maxDoc && forall l | 0 <= l < |maps[si]| :: maps[si][l] == NewId(sources[si], LiveBefore(sources, si), l)
    ensures docs == MergedDocs(sources, |sources|, key)
  {
    hide KeyLess, Remapped, LiveBefore, Source.DocsOf, Split, LeastLeft, Sort;
    var ordered := Sort(PartOrder(), parts);
    PartsOrdered(sources, pos, key, parts, taken, ordered);
    docs := [];
    assert ordered[..0] == [];
    for i := 0 to |ordered|
      invariant docs == Copied(sources, ordered[..i])
    {
      assert ordered[..i + 1][..i] == ordered[..i];
      var part := ordered[i];
      LocalDocs(sources, pos, key, part);
      docs := CopyLive(sources[part.si], maps[part.si], LiveBefore(sources, part.si), part.docs, docs);
    }
    assert ordered[..|ordered|] == ordered;
    CopiedIsMerged(sources, ordered, |sources|, key);
  }

  lemma {:induction false} LocalDocs(sources: seq<Source>, pos: seq<nat>, key: Key, part: Part)
    requires AllLawful(sources) && StandsAt(sources, pos, key, part.si) && part.docs == sources[part.si].entries[pos[part.si]].docs
    ensures forall j | 0 <= j < |part.docs| :: part.docs[j].doc < sources[part.si].maxDoc
  {
    assert sources[part.si].Lawful();
  }

  /** Sorted by segment, the parts ascend and cover exactly the segments with the term. */
  lemma {:induction false} PartsOrdered(sources: seq<Source>, pos: seq<nat>, key: Key, parts: seq<Part>, taken: set<nat>, ordered: seq<Part>)
    requires AllLawful(sources) && InBounds(sources, pos) && Split(sources, pos) && LeastLeft(sources, pos, key)
    requires parts != [] && Gathered(parts, taken, sources, pos, key) && forall si: nat :: StandsAt(sources, pos, key, si) <==> si in taken
    requires ordered == Sort(PartOrder(), parts)
    ensures forall i | 0 <= i < |ordered| :: StandsAt(sources, pos, key, ordered[i].si) && ordered[i].docs == sources[ordered[i].si].entries[pos[ordered[i].si]].docs
    ensures Covers(ordered, sources, |sources|, key)
  {
    hide KeyLess, Source.DocsOf, Split, LeastLeft, Sort, StandsAt;
    SortAscends(PartOrder(), parts);
    SameElements(ordered, parts);
    assert StandsAt(sources, pos, key, parts[0].si);
    forall i | 0 <= i < |ordered|
      ensures StandsAt(sources, pos, key, ordered[i].si) && ordered[i].si < |sources| && pos[ordered[i].si] < |sources[ordered[i].si].entries|
      ensures ordered[i].docs == sources[ordered[i].si].entries[pos[ordered[i].si]].docs == sources[ordered[i].si].DocsOf(key)
    {
      var k := IndexOf(parts, ordered[i]);
      Standing(sources, pos, key, ordered[i].si);
      TermDocs(sources, pos, key, ordered[i].si);
    }
    forall si | 0 <= si < |sources| && sources[si].DocsOf(key) != [] ensures exists i | 0 <= i < |ordered| :: ordered[i].si == si {
      TermDocs(sources, pos, key, si);
      var k :| 0 <= k < |parts| && parts[k].si == si;
      var i := IndexOf(ordered, parts[k]);
    }
  }

  lemma {:induction false} Standing(sources: seq<Source>, pos: seq<nat>, key: Key, si: nat)
    requires StandsAt(sources, pos, key, si)
    ensures si < |sources| == |pos| && pos[si] < |sources[si].entries|
  {
  }

  // ----- the whole merge -----

  ghost predicate Taken(sources: seq<Source>, pos: seq<nat>, key: Key)
    requires InBounds(sources, pos)
  {
    exists si, i | 0 <= si < |sources| && 0 <= i < pos[si] :: sources[si].entries[i].key == key
  }

  /** The output so far is the merge of the terms taken. */
  ghost predicate MergedSoFar(out: seq<Posted>, sources: seq<Source>, pos: seq<nat>)
    requires InBounds(sources, pos)
  {
    && (forall i, j | 0 <= i < j < |out| :: KeyLess(out[i].key, out[j].key))
    && (forall i | 0 <= i < |out| :: Taken(sources, pos, out[i].key) && out[i].docs == MergedDocs(sources, |sources|, out[i].key) != [])
    && (forall key: Key | Taken(sources, pos, key) && MergedDocs(sources, |sources|, key) != [] :: exists i | 0 <= i < |out| :: out[i].key == key)
  }

  /** Taking the least term keeps taken terms before the others. */
  lemma {:induction false} SplitMoves(sources: seq<Source>, pos: seq<nat>, key: Key, taken: set<nat>)
    requires AllLawful(sources) && InBounds(sources, pos) && InBounds(sources, Moved(pos, taken)) && Split(sources, pos) && LeastLeft(sources, pos, key)
    requires forall si: nat :: StandsAt(sources, pos, key, si) <==> si in taken
    ensures Split(sources, Moved(pos, taken))
  {
    hide KeyLess;
    var pos' := Moved(pos, taken);
    forall si, i, sj, j | 0 <= si < |sources| && 0 <= i < pos'[si] && 0 <= sj < |sources| && pos'[sj] <= j < |sources[sj].entries|
      ensures KeyLess(sources[si].entries[i].key, sources[sj].entries[j].key)
    {
      if i >= pos[si] {
        // the term just taken precedes what is left
        assert sources[si].entries[i].key == key;
        assert KeyAtMost(key, sources[sj].entries[j].key);
        if sources[sj].entries[j].key == key {
          SameKey(sources, pos, key, sj, j);
        }
      }
    }
  }

  /** The least term stands only at a cursor. */
  lemma {:induction false} SameKey(sources: seq<Source>, pos: seq<nat>, key: Key, sj: nat, j: nat)
    requires AllLawful(sources) && InBounds(sources, pos) && LeastLeft(sources, pos, key)
    requires sj < |sources| && pos[sj] <= j < |sources[sj].entries| && sources[sj].entries[j].key == key
    ensures j == pos[sj] && StandsAt(sources, pos, key, sj)
  {
    hide KeyLess;
    if pos[sj] < j {
      assert sources[sj].Lawful();
      assert KeyAtMost(key, sources[sj].entries[pos[sj]].key);
      KeyAsymmetric(sources[sj].entries[pos[sj]].key, key);
    }
  }

  lemma {:induction false} TakenMoves(sources: seq<Source>, pos: seq<nat>, key: Key, taken: set<nat>, k: Key)
    requires InBounds(sources, pos) && InBounds(sources, Moved(pos, taken)) && taken != {}
    requires forall si: nat :: StandsAt(sources, pos, key, si) <==> si in taken
    ensures Taken(sources, Moved(pos, taken), k) <==> Taken(sources, pos, k) || k == key
  {
    var pos' := Moved(pos, taken);
    if Taken(sources, pos', k) {
      var si, i :| 0 <= si < |sources| && 0 <= i < pos'[si] && sources[si].entries[i].key == k;
      assert i < pos[si] || (si in taken && i == pos[si]);
    }
    if Taken(sources, pos, k) {
      var si, i :| 0 <= si < |sources| && 0 <= i < pos[si] && sources[si].entries[i].key == k;
      assert i < pos'[si];
    }
    if k == key {
      var si :| si in taken;
      assert pos[si] < pos'[si] && sources[si].entries[pos[si]].key == k;
    }
  }

  lemma {:induction false} OneTermMore(out: seq<Posted>, sources: seq<Source>, pos: seq<nat>, key: Key, taken: set<nat>, docs: seq<Posting>)
    requires AllLawful(sources) && InBounds(sources, pos) && InBounds(sources, Moved(pos, taken)) && Split(sources, pos) && LeastLeft(sources, pos, key)
    requires taken != {} && forall si: nat :: StandsAt(sources, pos, key, si) <==> si in taken
    requires MergedSoFar(out, sources, pos) && docs == MergedDocs(sources, |sources|, key)
    ensures MergedSoFar(if docs == [] then out else out + [Posted(key, docs)], sources, Moved(pos, taken))
  {
    hide KeyLess, MergedDocs, AllLawful, LeastLeft, Split, Taken, StandsAt;
    var pos' := Moved(pos, taken);
    var out' := if docs == [] then out else out + [Posted(key, docs)];
    forall k: Key ensures Taken(sources, pos', k) <==> Taken(sources, pos, k) || k == key {
      TakenMoves(sources, pos, key, taken, k);
    }
    forall i | 0 <= i < |out| ensures KeyLess(out[i].key, key) {
      TakenBefore(sources, pos, key, taken, out[i].key);
    }
    forall k: Key | Taken(sources, pos', k) && MergedDocs(sources, |sources|, k) != [] ensures exists i | 0 <= i < |out'| :: out'[i].key == k {
      if Taken(sources, pos, k) {
        var i :| 0 <= i < |out| && out[i].key == k;
        assert out'[i].key == k;
      } else {
        assert out'[|out|].key == k;
      }
    }
  }

  lemma {:induction false} TakenBefore(sources: seq<Source>, pos: seq<nat>, key: Key, taken: set<nat>, k: Key)
    requires InBounds(sources, pos) && Split(sources, pos) && taken != {} && Taken(sources, pos, k)
    requires forall si: nat :: StandsAt(sources, pos, key, si) <==> si in taken
    ensures KeyLess(k, key)
  {
    hide KeyLess;
    var sj :| sj in taken;
    assert StandsAt(sources, pos, key, sj);
    var si, i :| 0 <= si < |sources| && 0 <= i < pos[si] && sources[si].entries[i].key == k;
    assert KeyLess(sources[si].entries[i].key, sources[sj].entries[pos[sj]].key);
  }

  /** The streaming merge: a heap of cursors, one term at a time, never more than one posting list in hand. */
  method MergeStreaming(sources: seq<Source>) returns (out: seq<Posted>, count: nat)
    requires AllLawful(sources)
    ensures IsMerge(out, sources) && count == LiveBefore(sources, |sources|)
  {
    hide KeyLess, HeapOf, AllLawful, Split, MergedSoFar, MergedDocs, LeastLeft, Gathered, StandsAt, Left, LiveBefore, IsMerge;
    var maps: seq<seq<Option<nat>>>;
    maps, count := DenseMaps(sources);
    var pos: seq<nat> := seq(|sources|, _ => 0);
    out := [];
    NothingTaken(sources, pos);
    var heap := HeapOf(sources, pos);
    while heap != {}
      invariant InBounds(sources, pos) && heap == HeapOf(sources, pos) && Split(sources, pos) && MergedSoFar(out, sources, pos)
      decreases Left(sources, pos)
    {
      ghost var was := pos;
      var key, parts, pos', heap', taken := GatherTerm(sources, pos, heap);
      TakenSome(sources, pos, key, parts, taken);
      var docs := MergeTerm(sources, maps, pos, key, parts, taken);
      SplitMoves(sources, pos, key, taken);
      OneTermMore(out, sources, pos, key, taken, docs);
      MovedShrinks(sources, pos, taken, key);
      pos, heap := pos', heap';
      if docs != [] {
        out := out + [Posted(key, docs)];
      }
    }
    EverythingTaken(sources, pos, out);
  }

  lemma {:induction false} TakenSome(sources: seq<Source>, pos: seq<nat>, key: Key, parts: seq<Part>, taken: set<nat>)
    requires Gathered(parts, taken, sources, pos, key) && parts != []
    ensures taken != {}
  {
    assert parts[0].si in taken;
  }

  lemma {:induction false} NothingTaken(sources: seq<Source>, pos: seq<nat>)
    requires |pos| == |sources| && forall si | 0 <= si < |pos| :: pos[si] == 0
    ensures InBounds(sources, pos) && Split(sources, pos) && MergedSoFar([], sources, pos)
  {
  }

  lemma {:induction false} MovedShrinks(sources: seq<Source>, pos: seq<nat>, taken: set<nat>, key: Key)
    requires InBounds(sources, pos) && InBounds(sources, Moved(pos, taken)) && taken != {} && forall si: nat :: StandsAt(sources, pos, key, si) <==> si in taken
    ensures Left(sources, Moved(pos, taken)) < Left(sources, pos)
  {
    var si :| si in taken;
    assert StandsAt(sources, pos, key, si);
    assert Moved(pos, taken)[si] > pos[si];
    LeftLess(sources, pos, Moved(pos, taken), si);
  }

  lemma {:induction false} LeftLess(sources: seq<Source>, a: seq<nat>, b: seq<nat>, si: nat)
    requires InBounds(sources, a) && InBounds(sources, b) && forall s | 0 <= s < |sources| :: a[s] <= b[s]
    ensures Left(sources, b) <= Left(sources, a)
    ensures si < |sources| && a[si] < b[si] ==> Left(sources, b) < Left(sources, a)
    decreases |sources|
  {
    if sources != [] {
      var n := |sources| - 1;
      assert forall s | 0 <= s < n :: sources[..n][s] == sources[s] && a[..n][s] == a[s] && b[..n][s] == b[s];
      LeftLess(sources[..n], a[..n], b[..n], si);
    }
  }

  lemma {:induction false} EverythingTaken(sources: seq<Source>, pos: seq<nat>, out: seq<Posted>)
    requires InBounds(sources, pos) && HeapOf(sources, pos) == {} && MergedSoFar(out, sources, pos)
    ensures IsMerge(out, sources)
  {
    hide KeyLess, MergedDocs;
    assert forall si | 0 <= si < |sources| && pos[si] < |sources[si].entries| :: Slot(sources[si].entries[pos[si]].key, si) in HeapOf(sources, pos);
    forall key: Key | MergedDocs(sources, |sources|, key) != [] ensures Taken(sources, pos, key) {
      var si, i := SomeEntry(sources, |sources|, key);
    }
  }

  /** A term with merged postings is some segment's. */
  lemma {:induction false} SomeEntry(sources: seq<Source>, n: nat, key: Key) returns (si: nat, i: nat)
    requires n <= |sources| && MergedDocs(sources, n, key) != []
    ensures si < n && i < |sources[si].entries| && sources[si].entries[i].key == key
  {
    hide Remapped, LiveBefore, Source.DocsFrom;
    if MergedDocs(sources, n - 1, key) != [] {
      si, i := SomeEntry(sources, n - 1, key);
    } else {
      si := n - 1;
      if forall i | 0 <= i < |sources[si].entries| :: sources[si].entries[i].key != key {
        sources[si].DocsMissing(0, key);
        NothingRemapped(sources[si], LiveBefore(sources, si));
        assert false;
      }
      i :| 0 <= i < |sources[si].entries| && sources[si].entries[i].key == key;
    }
  }
}
