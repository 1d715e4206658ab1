/** What the streaming merge must agree with: the batch merge, which collects every posting in a map,
    and inverting the live documents afresh. */
module MergeReference {
  import opened Wrappers
  import opened Lex
  import opened Sorting
  import opened Postings
  import opened Merging
  import opened Inverter
  import RoundTrip

  type DocMap = map<nat, seq<nat>>

  function Entry(tm: map<Key, DocMap>, key: Key): DocMap {
    if key in tm then tm[key] else map[]
  }

  /** Postings name each document once, in order. */
  ghost predicate Ordered(sources: seq<Source>) {
    forall si, e, i, j | 0 <= si < |sources| && 0 <= e < |sources[si].entries| && 0 <= i < j < |sources[si].entries[e].docs| ::
      sources[si].entries[e].docs[i].doc < sources[si].entries[e].docs[j].doc
  }

  // ----- collecting into maps -----

  /** A term's postings after the whole segments below `si` and the first `e` terms of the next. */
  function Partial(sources: seq<Source>, si: nat, e: nat, key: Key): seq<Posting>
    requires si < |sources| && e <= |sources[si].entries|
  {
    MergedDocs(sources, si, key)
    + if exists i | 0 <= i < e :: sources[si].entries[i].key == key then Remapped(sources[si], LiveBefore(sources, si), sources[si].DocsOf(key)) else []
  }

  /** One term of one segment: its live postings go into the term's map under their new ids. */
  method InsertTerm(dm: DocMap, src: Source, map0: seq<Option<nat>>, ghost base: nat, docs: seq<Posting>, ghost before: seq<Posting>) returns (r: DocMap)
    requires |map0| == src.maxDoc && forall l | 0 <= l < |map0| :: map0[l] == NewId(src, base, l)
    requires forall j | 0 <= j < |docs| :: docs[j].doc < src.maxDoc
    requires dm == Collected(before)
    ensures r == Collected(before + Remapped(src, base, docs))
  {
    hide Collected;
    r := dm;
    ghost var all := before;
    assert docs[..0] == [] && before + [] == before;
    for j := 0 to |docs|
      invariant all == before + Remapped(src, base, docs[..j]) && r == Collected(all)
    {
      assert docs[..j + 1][..j] == docs[..j];
      var d := docs[j];
      if src.deleted(d.doc) {
        assert Remapped(src, base, docs[..j]) + [] == Remapped(src, base, docs[..j]);
        continue;
      }
      if map0[d.doc].Some? {
        CollectedStep(all, Posting(map0[d.doc].value, d.positions));
        r := r[map0[d.doc].value := d.positions];
        all := all + [Posting(map0[d.doc].value, d.positions)];
      }
    }
    assert docs[..|docs|] == docs;
  }

  method CollectSegment(tm: map<Key, DocMap>, sources: seq<Source>, si: nat, map0: seq<Option<nat>>) returns (r: map<Key, DocMap>)
    requires AllLawful(sources) && si < |sources|
    requires |map0| == sources[si].maxDoc && forall l | 0 <= l < |map0| :: map0[l] == NewId(sources[si], LiveBefore(sources, si), l)
    requires forall key: Key :: Entry(tm, key) == Collected(MergedDocs(sources, si, key))
    ensures forall key: Key :: Entry(r, key) == Collected(MergedDocs(sources, si + 1, key))
  {
    hide Collected, Remapped, LiveBefore, KeyLess, Partial, MergedDocs, Source.DocsOf;
    r := tm;
    var src := sources[si];
    NoTermsYet(sources, si);
    for e := 0 to |src.entries|
      invariant forall key: Key :: Entry(r, key) == Collected(Partial(sources, si, e, key))
    {
      var key := src.entries[e].key;
      TermNext(sources, si, e);
      var docs := src.DocsOf(key);
      var dm := InsertTerm(Entry(r, key), src, map0, LiveBefore(sources, si), docs, MergedDocs(sources, si, key));
      ghost var was := r;
      r := r[key := dm];
      forall k: Key ensures Entry(r, k) == Collected(Partial(sources, si, e + 1, k)) {
        if k != key {
          assert Entry(r, k) == Entry(was, k);
          assert Partial(sources, si, e + 1, k) == Partial(sources, si, e, k);
        }
      }
    }
    SegmentDone(sources, si);
  }

  lemma {:induction false} NoTermsYet(sources: seq<Source>, si: nat)
    requires si < |sources|
    ensures forall key: Key :: Partial(sources, si, 0, key) == MergedDocs(sources, si, key)
  {
    hide MergedDocs;
  }

  /** The next term is new to the segment, and only its postings change. */
  lemma {:induction false} TermNext(sources: seq<Source>, si: nat, e: nat)
    requires AllLawful(sources) && si < |sources| && e < |sources[si].entries|
    ensures var src, key := sources[si], sources[si].entries[e].key;
            && Partial(sources, si, e, key) == MergedDocs(sources, si, key)
            && Partial(sources, si, e + 1, key) == MergedDocs(sources, si, key) + Remapped(src, LiveBefore(sources, si), src.DocsOf(key))
            && (forall other: Key | other != key :: Partial(sources, si, e + 1, other) == Partial(sources, si, e, other))
            && src.DocsOf(key) == src.entries[e].docs
            && (forall j | 0 <= j < |src.DocsOf(key)| :: src.DocsOf(key)[j].doc < src.maxDoc)
  {
    hide MergedDocs, Remapped, LiveBefore, KeyLess, Source.DocsFrom;
    var src := sources[si];
    assert src.Lawful();
    src.DocsAt(0, e);
    forall i | 0 <= i < e ensures src.entries[i].key != src.entries[e].key {
      KeyAsymmetric(src.entries[i].key, src.entries[e].key);
    }
  }

  lemma {:induction false} SegmentDone(sources: seq<Source>, si: nat)
    requires si < |sources|
    ensures forall key: Key :: Partial(sources, si, |sources[si].entries|, key) == MergedDocs(sources, si + 1, key)
  {
    hide Remapped, LiveBefore, Source.DocsFrom;
    var src := sources[si];
    forall key: Key ensures Partial(sources, si, |src.entries|, key) == MergedDocs(sources, si + 1, key) {
      if forall i | 0 <= i < |src.entries| :: src.entries[i].key != key {
        src.DocsMissing(0, key);
        NothingRemapped(src, LiveBefore(sources, si));
      }
    }
  }

  // ----- reading a map in document order -----

  predicate Strictly(ps: seq<Posting>, bound: nat) {
    (forall i, j | 0 <= i < j < |ps| :: ps[i].doc < ps[j].doc) && forall i | 0 <= i < |ps| :: ps[i].doc < bound
  }

  lemma {:induction false} CollectedOf(ps: seq<Posting>, d: nat)
    ensures d in Collected(ps) <==> exists i | 0 <= i < |ps| :: ps[i].doc == d
    ensures forall i | 0 <= i < |ps| && ps[i].doc == d && (forall j | i < j < |ps| :: ps[j].doc != d) :: Collected(ps)[d] == ps[i].positions
  {
    if ps != [] {
      var before := ps[..|ps| - 1];
      CollectedOf(before, d);
      assert forall i | 0 <= i < |before| :: before[i] == ps[i];
    }
  }

  /** Reading an ascending list's map in order gives the list back. */
  lemma {:induction false} InOrder(ps: seq<Posting>, n: nat)
    requires Strictly(ps, n)
    ensures DocsBelow(Collected(ps), n) == ps
    decreases n
  {
    hide Collected;
    if n == 0 {
      assert ps == [];
    } else {
      CollectedOf(ps, n - 1);
      var dm := Collected(ps);
      if n - 1 in dm {
        var last := |ps| - 1;
        assert ps[last].doc == n - 1;
        Shorter(ps, n);
        InOrder(ps[..last], n - 1);
        SameBelow(dm, Collected(ps[..last]), n - 1);
        assert ps == ps[..last] + [ps[last]] && dm[n - 1] == ps[last].positions;
      } else {
        forall i | 0 <= i < |ps| ensures ps[i].doc < n - 1 {
        }
        InOrder(ps, n - 1);
        assert DocsBelow(dm, n - 1) + [] == DocsBelow(dm, n - 1);
      }
    }
  }

  lemma {:induction false} Shorter(ps: seq<Posting>, n: nat)
    requires Strictly(ps, n) && n > 0 && ps != [] && ps[|ps| - 1].doc == n - 1
    ensures Strictly(ps[..|ps| - 1], n - 1)
    ensures forall d: nat | d < n - 1 :: (d in Collected(ps) <==> d in Collected(ps[..|ps| - 1]))
                                      && (d in Collected(ps) ==> Collected(ps)[d] == Collected(ps[..|ps| - 1])[d])
  {
    var last := |ps| - 1;
    CollectedStep(ps[..last], ps[last]);
    assert ps == ps[..last] + [ps[last]];
  }

  lemma {:induction false} SameBelow(a: DocMap, b: DocMap, n: nat)
    requires forall d: nat | d < n :: (d in a <==> d in b) && (d in a ==> a[d] == b[d])
    ensures DocsBelow(a, n) == DocsBelow(b, n)
  {
    if n > 0 {
      SameBelow(a, b, n - 1);
    }
  }

  lemma {:induction false} LiveMonotone(src: Source, a: nat, b: nat)
    requires a <= b
    ensures src.LiveBelow(a) <= src.LiveBelow(b)
    ensures a < b && !src.deleted(a) ==> src.LiveBelow(a) < src.LiveBelow(b)
    decreases b
  {
    if a < b {
      LiveMonotone(src, a, b - 1);
    }
  }

  /** Renumbering keeps order and stays within the segment's share of the new ids. */
  lemma {:induction false} RemappedAscends(src: Source, base: nat, docs: seq<Posting>, n: nat)
    requires n <= src.maxDoc && Strictly(docs, n)
    ensures var ps := Remapped(src, base, docs);
            Strictly(ps, base + src.LiveBelow(n)) && forall i | 0 <= i < |ps| :: base <= ps[i].doc
    decreases |docs|
  {
    hide Source.LiveBelow;
    if docs != [] {
      var last := docs[|docs| - 1];
      RemappedAscends(src, base, docs[..|docs| - 1], last.doc);
      LiveMonotone(src, last.doc, n);
    }
  }

  lemma {:induction false} NoneStrictly(bound: nat)
    ensures Strictly([], bound)
  {
  }

  lemma {:induction false} StrictlyJoin(a: seq<Posting>, b: seq<Posting>, middle: nat, bound: nat)
    requires middle <= bound && Strictly(a, middle) && Strictly(b, bound) && forall i | 0 <= i < |b| :: middle <= b[i].doc
    ensures Strictly(a + b, bound)
  {
  }

  /** Merged postings strictly ascend: earlier segments get the lower ids. */
  lemma {:induction false} MergedAscends(sources: seq<Source>, n: nat, key: Key)
    requires AllLawful(sources) && Ordered(sources) && n <= |sources|
    ensures Strictly(MergedDocs(sources, n, key), LiveBefore(sources, n))
  {
    hide Remapped, Source.LiveBelow, Source.DocsOf, AllLawful, Ordered, Strictly;
    if n == 0 {
      NoneStrictly(0);
    } else {
      MergedAscends(sources, n - 1, key);
      SourceDocs(sources, n - 1, key);
      RemappedAscends(sources[n - 1], LiveBefore(sources, n - 1), sources[n - 1].DocsOf(key), sources[n - 1].maxDoc);
      StrictlyJoin(MergedDocs(sources, n - 1, key), Remapped(sources[n - 1], LiveBefore(sources, n - 1), sources[n - 1].DocsOf(key)),
                   LiveBefore(sources, n - 1), LiveBefore(sources, n));
    }
  }

  lemma {:induction false} SourceDocs(sources: seq<Source>, si: nat, key: Key)
    requires AllLawful(sources) && Ordered(sources) && si < |sources|
    ensures Strictly(sources[si].DocsOf(key), sources[si].maxDoc)
  {
    hide KeyLess, Source.DocsFrom;
    var src := sources[si];
    assert src.Lawful();
    if e :| 0 <= e < |src.entries| && src.entries[e].key == key {
      src.DocsAt(0, e);
    } else {
      src.DocsMissing(0, key);
    }
  }

  // ----- the batch merge -----

  /** The oracle: all postings in one map, terms without live documents dropped, the rest sorted. */
  method MergeBatch(sources: seq<Source>) returns (out: seq<Posted>, count: nat)
    requires AllLawful(sources) && Ordered(sources)
    ensures IsMerge(out, sources) && count == LiveBefore(sources, |sources|)
  {
    hide Collected, Remapped, LiveBefore, KeyLess, MergedDocs, AllLawful, Ordered, IsMerge;
    var maps: seq<seq<Option<nat>>>;
    maps, count := DenseMaps(sources);
    var tm: map<Key, DocMap> := map[];
    NothingMerged(sources);
    for si := 0 to |sources|
      invariant forall key: Key :: Entry(tm, key) == Collected(MergedDocs(sources, si, key))
    {
      tm := CollectSegment(tm, sources, si, maps[si]);
    }
    var terms := ListTerms(tm, sources, count);
    out := Sort(PostedLess(), terms);
    SortedIsMerge(terms, tm, sources);
  }

  lemma {:induction false} NothingMerged(sources: seq<Source>)
    ensures forall key: Key :: MergedDocs(sources, 0, key) == [] && Collected([]) == map[]
  {
  }

  /** The terms of the map with some document, in no particular order. */
  ghost predicate ListsTerms(terms: seq<Posted>, keys: set<Key>, sources: seq<Source>) {
    && (forall i | 0 <= i < |terms| :: terms[i].key in keys && terms[i].docs == MergedDocs(sources, |sources|, terms[i].key) != [])
    && (forall i, j | 0 <= i < j < |terms| :: terms[i].key != terms[j].key)
    && (forall key | key in keys && MergedDocs(sources, |sources|, key) != [] :: exists i | 0 <= i < |terms| :: terms[i].key == key)
  }

  method ListTerms(tm: map<Key, DocMap>, ghost sources: seq<Source>, count: nat) returns (terms: seq<Posted>)
    requires AllLawful(sources) && Ordered(sources) && count == LiveBefore(sources, |sources|)
    requires forall key: Key :: Entry(tm, key) == Collected(MergedDocs(sources, |sources|, key))
    ensures ListsTerms(terms, tm.Keys, sources)
  {
    hide Collected, LiveBefore, MergedDocs, AllLawful, Ordered, ListsTerms;
    terms := [];
    var keys := tm.Keys;
    NoTermsListed(sources);
    assert tm.Keys - keys == {};
    while keys != {}
      invariant keys <= tm.Keys && ListsTerms(terms, tm.Keys - keys, sources)
      decreases |keys|
    {
      var key :| key in keys;
      var docs := DocsBelow(tm[key], count);
      assert Entry(tm, key) == tm[key];
      MergedAscends(sources, |sources|, key);
      InOrder(MergedDocs(sources, |sources|, key), count);
      TermListed(terms, tm.Keys - keys, sources, key);
      assert tm.Keys - (keys - {key}) == tm.Keys - keys + {key};
      if docs != [] {
        terms := terms + [Posted(key, docs)];
      }
      keys := keys - {key};
    }
    assert tm.Keys - keys == tm.Keys;
  }

  lemma {:induction false} NoTermsListed(sources: seq<Source>)
    ensures ListsTerms([], {}, sources)
  {
  }

  lemma {:induction false} TermListed(terms: seq<Posted>, keys: set<Key>, sources: seq<Source>, key: Key)
    requires ListsTerms(terms, keys, sources) && key !in keys
    ensures var docs := MergedDocs(sources, |sources|, key);
            ListsTerms(if docs == [] then terms else terms + [Posted(key, docs)], keys + {key}, sources)
  {
    hide MergedDocs;
    var docs := MergedDocs(sources, |sources|, key);
    var all := if docs == [] then terms else terms + [Posted(key, docs)];
    forall k | k in keys + {key} && MergedDocs(sources, |sources|, k) != [] ensures exists i | 0 <= i < |all| :: all[i].key == k {
      if k in keys {
        var i :| 0 <= i < |terms| && terms[i].key == k;
        assert all[i].key == k;
      } else {
        assert all[|terms|].key == k;
      }
    }
  }

  lemma {:induction false} SortedIsMerge(terms: seq<Posted>, tm: map<Key, DocMap>, sources: seq<Source>)
    requires ListsTerms(terms, tm.Keys, sources) && forall key: Key :: Entry(tm, key) == Collected(MergedDocs(sources, |sources|, key))
    ensures IsMerge(Sort(PostedLess(), terms), sources)
  {
    hide MergedDocs, KeyLess, Sort, Collected;
    var out := Sort(PostedLess(), terms);
    PostedOrder();
    forall i, j | 0 <= i < j < |terms| ensures PostedLess()(terms[i], terms[j]) || PostedLess()(terms[j], terms[i]) {
      KeyTotal(terms[i].key, terms[j].key);
    }
    SortAscends(PostedLess(), terms);
    SameElements(out, terms);
    forall i | 0 <= i < |out| ensures out[i].docs == MergedDocs(sources, |sources|, out[i].key) != [] {
      var j := IndexOf(terms, out[i]);
    }
    forall key: Key | MergedDocs(sources, |sources|, key) != [] ensures exists i | 0 <= i < |out| :: out[i].key == key {
      NonEmptyCollected(MergedDocs(sources, |sources|, key));
      assert key in tm;
      var j :| 0 <= j < |terms| && terms[j].key == key;
      var i := IndexOf(out, terms[j]);
    }
  }

  lemma {:induction false} NonEmptyCollected(ps: seq<Posting>)
    requires ps != []
    ensures Collected(ps) != map[]
  {
    assert ps[|ps| - 1].doc in Collected(ps);
  }

  // ----- inverting the live documents afresh -----

  function Live(docs: seq<Doc>, deleted: nat -> bool, n: nat): seq<Doc>
    requires n <= |docs|
  {
    if n == 0 then [] else Live(docs, deleted, n - 1) + if deleted(n - 1) then [] else [docs[n - 1]]
  }

  datatype Batch = Batch(docs: seq<Doc>, deleted: nat -> bool)

  function AllLive(batches: seq<Batch>, n: nat): seq<Doc>
    requires n <= |batches|
  {
    if n == 0 then []
    else AllLive(batches, n - 1) + Live(batches[n - 1].docs, batches[n - 1].deleted, |batches[n - 1].docs|)
  }

  /** The segment holds exactly the batch's postings. */
  ghost predicate Indexes(src: Source, b: Batch, analyze: string -> seq<string>) {
    && src.maxDoc == |b.docs| && src.deleted == b.deleted
    && forall name: string, t: string :: src.DocsOf(Key(name, t)) == PostingsOf(b.docs, |b.docs|, name, t, analyze)
  }

  /** Postings of documents numbered from `base` on. */
  function PostingsFrom(docs: seq<Doc>, n: nat, base: nat, name: string, t: string, analyze: string -> seq<string>): seq<Posting>
    requires n <= |docs|
  {
    if n == 0 then []
    else
      var ps := PositionsIn(docs[n - 1].fields, name, t, analyze);
      PostingsFrom(docs, n - 1, base, name, t, analyze) + (if ps == [] then [] else [Posting(base + n - 1, ps)])
  }

  lemma {:induction false} LaterDocs(docs: seq<Doc>, more: seq<Doc>, n: nat, base: nat, name: string, t: string, analyze: string -> seq<string>)
    requires n <= |docs|
    ensures PostingsFrom(docs + more, n, base, name, t, analyze) == PostingsFrom(docs, n, base, name, t, analyze)
  {
    hide PositionsIn;
    if n > 0 {
      LaterDocs(docs, more, n - 1, base, name, t, analyze);
    }
  }

  lemma {:induction false} LiveSize(src: Source, docs: seq<Doc>, n: nat)
    requires n <= |docs|
    ensures |Live(docs, src.deleted, n)| == src.LiveBelow(n)
  {
    if n > 0 {
      LiveSize(src, docs, n - 1);
    }
  }

  lemma {:induction false} RemappedStep(src: Source, base: nat, docs: seq<Posting>, p: Posting)
    ensures Remapped(src, base, docs + [p]) ==
              Remapped(src, base, docs) + if src.deleted(p.doc) then [] else [Posting(base + src.LiveBelow(p.doc), p.positions)]
  {
    assert (docs + [p])[..|docs|] == docs;
  }

  /** Renumbering a batch's postings gives the postings of its live documents. */
  lemma {:induction false} RemappedIsLive(src: Source, docs: seq<Doc>, n: nat, base: nat, name: string, t: string, analyze: string -> seq<string>)
    requires n <= |docs|
    ensures var live := Live(docs, src.deleted, n);
            Remapped(src, base, PostingsOf(docs, n, name, t, analyze)) == PostingsFrom(live, |live|, base, name, t, analyze)
  {
    hide PositionsIn, Remapped, Source.LiveBelow;
    if n == 0 {
      NothingRemapped(src, base);
    } else {
      var before, live := PostingsOf(docs, n - 1, name, t, analyze), Live(docs, src.deleted, n - 1);
      var ps := PositionsIn(docs[n - 1].fields, name, t, analyze);
      RemappedIsLive(src, docs, n - 1, base, name, t, analyze);
      LiveSize(src, docs, n - 1);
      RemappedStep(src, base, before, Posting(n - 1, ps));
      LaterDocs(live, [docs[n - 1]], |live|, base, name, t, analyze);
      assert before + [] == before && live + [] == live;
      assert PostingsFrom(live, |live|, base, name, t, analyze) + [] == PostingsFrom(live, |live|, base, name, t, analyze);
    }
  }

  lemma {:induction false} PostingsJoin(a: seq<Doc>, b: seq<Doc>, k: nat, name: string, t: string, analyze: string -> seq<string>)
    requires k <= |b|
    ensures PostingsOf(a + b, |a| + k, name, t, analyze) == PostingsOf(a, |a|, name, t, analyze) + PostingsFrom(b, k, |a|, name, t, analyze)
  {
    hide PositionsIn;
    if k == 0 {
      PostingsPrefix(a, b, |a|, name, t, analyze);
      assert PostingsOf(a, |a|, name, t, analyze) + [] == PostingsOf(a, |a|, name, t, analyze);
    } else {
      PostingsJoin(a, b, k - 1, name, t, analyze);
    }
  }

  lemma {:induction false} PostingsPrefix(a: seq<Doc>, b: seq<Doc>, n: nat, name: string, t: string, analyze: string -> seq<string>)
    requires n <= |a|
    ensures PostingsOf(a + b, n, name, t, analyze) == PostingsOf(a, n, name, t, analyze)
  {
    hide PositionsIn;
    if n > 0 {
      PostingsPrefix(a, b, n - 1, name, t, analyze);
    }
  }

  /** Merged postings are the postings of the live documents of all batches, one after the other. */
  lemma {:induction false} MergedIsLive(sources: seq<Source>, batches: seq<Batch>, n: nat, name: string, t: string, analyze: string -> seq<string>)
    requires n <= |sources| == |batches| && forall si | 0 <= si < |sources| :: Indexes(sources[si], batches[si], analyze)
    ensures |AllLive(batches, n)| == LiveBefore(sources, n)
    ensures MergedDocs(sources, n, Key(name, t)) == PostingsOf(AllLive(batches, n), |AllLive(batches, n)|, name, t, analyze)
  {
    hide PostingsOf, PostingsFrom, Remapped, Live, Source.LiveBelow, Source.DocsOf;
    if n == 0 {
      NoPostings(name, t, analyze);
    } else {
      var src, b := sources[n - 1], batches[n - 1];
      var live := Live(b.docs, b.deleted, |b.docs|);
      MergedIsLive(sources, batches, n - 1, name, t, analyze);
      assert Indexes(src, b, analyze);
      LiveSize(src, b.docs, |b.docs|);
      RemappedIsLive(src, b.docs, |b.docs|, LiveBefore(sources, n - 1), name, t, analyze);
      PostingsJoin(AllLive(batches, n - 1), live, |live|, name, t, analyze);
    }
  }

  lemma {:induction false} NoPostings(name: string, t: string, analyze: string -> seq<string>)
    ensures PostingsOf([], 0, name, t, analyze) == []
  {
  }

  // ----- inversions as segments -----

  function Listing(inv: Inverted): (r: seq<Posted>)
    ensures |r| == |inv.terms| && forall i | 0 <= i < |r| :: r[i] == Posted(KeyOf(Names(inv.fields), inv.terms[i]), inv.terms[i].docs)
  {
    seq(|inv.terms|, i requires 0 <= i < |inv.terms| => Posted(KeyOf(Names(inv.fields), inv.terms[i]), inv.terms[i].docs))
  }

  /** The terms of an inversion are exactly the terms that occur, with their postings, in order. */
  lemma {:induction false} ListingExact(inv: Inverted, docs: seq<Doc>, analyze: string -> seq<string>)
    requires Inverts(inv, docs, analyze)
    ensures var l := Listing(inv);
            && (forall i, j | 0 <= i < j < |l| :: KeyLess(l[i].key, l[j].key))
            && (forall i | 0 <= i < |l| :: l[i].docs == PostingsOf(docs, |docs|, l[i].key.field, l[i].key.text, analyze) != [])
            && (forall key: Key | PostingsOf(docs, |docs|, key.field, key.text, analyze) != [] :: exists i | 0 <= i < |l| :: l[i].key == key)
  {
    hide PostingsOf, NormsAre, StoredHold, IsIndexed, FirstSeen, KeyLess;
    var l, names := Listing(inv), Names(inv.fields);
    forall i, j | 0 <= i < j < |l| ensures KeyLess(l[i].key, l[j].key) {
      assert TermOrder(names)(inv.terms[i], inv.terms[j]);
    }
    forall key: Key | PostingsOf(docs, |docs|, key.field, key.text, analyze) != [] ensures exists i | 0 <= i < |l| :: l[i].key == key {
      var num := NamedField(inv, docs, analyze, key.field, key.text);
      var i :| 0 <= i < |inv.terms| && inv.terms[i].fieldNum == num && inv.terms[i].text == key.text;
      assert l[i].key == key;
    }
  }

  /** A name with postings is a registered field name. */
  lemma {:induction false} NamedField(inv: Inverted, docs: seq<Doc>, analyze: string -> seq<string>, name: string, t: string) returns (num: nat)
    requires Inverts(inv, docs, analyze) && PostingsOf(docs, |docs|, name, t, analyze) != []
    ensures num < |inv.fields| && Names(inv.fields)[num] == name
  {
    hide PostingsOf, PositionsIn, NormsAre, StoredHold, IsIndexed, TermsAre;
    PostingsNonEmpty(docs, |docs|, name, t, analyze);
    var d :| 0 <= d < |docs| && PositionsIn(docs[d].fields, name, t, analyze) != [];
    if forall q | 0 <= q < |docs[d].fields| :: docs[d].fields[q].name != name {
      UnseenEmpty(docs[d].fields, name, t, analyze);
    }
    var q :| 0 <= q < |docs[d].fields| && docs[d].fields[q].name == name;
    InFlattened(docs, d, q);
    var flat := Flatten(docs);
    var f :| 0 <= f < |flat| && flat[f] == docs[d].fields[q];
    assert name in FirstSeen(flat);
    num :| 0 <= num < |inv.fields| && Names(inv.fields)[num] == name;
  }

  /** Merging segments written from batches, whatever was deleted since, gives exactly the terms and
      postings of inverting the live documents afresh. */
  lemma {:induction false} MergeIsReinversion(out: seq<Posted>, sources: seq<Source>, batches: seq<Batch>, afresh: Inverted, analyze: string -> seq<string>)
    requires |sources| == |batches| && forall si | 0 <= si < |sources| :: Indexes(sources[si], batches[si], analyze)
    requires IsMerge(out, sources) && Inverts(afresh, AllLive(batches, |batches|), analyze)
    ensures out == Listing(afresh)
  {
    hide MergedDocs, PostingsOf, KeyLess, Inverts, Listing, Indexes, AllLive;
    var live := AllLive(batches, |batches|);
    ListingExact(afresh, live, analyze);
    forall key: Key ensures MergedDocs(sources, |sources|, key) == PostingsOf(live, |live|, key.field, key.text, analyze) {
      MergedIsLive(sources, batches, |sources|, key.field, key.text, analyze);
      assert Key(key.field, key.text) == key;
    }
    MergeUnique(out, Listing(afresh), sources);
  }

  /** An inverted batch, written and later partly deleted, is such a segment. */
  lemma {:induction false} InvertedIndexes(inv: Inverted, docs: seq<Doc>, deleted: nat -> bool, analyze: string -> seq<string>)
    requires Inverts(inv, docs, analyze)
    ensures var src := Source(Listing(inv), |docs|, deleted);
            src.Lawful() && Indexes(src, Batch(docs, deleted), analyze)
  {
    hide PostingsOf, KeyLess, Inverts, Source.DocsFrom;
    var src := Source(Listing(inv), |docs|, deleted);
    ListingExact(inv, docs, analyze);
    forall i, j | 0 <= i < |src.entries| && 0 <= j < |src.entries[i].docs| ensures src.entries[i].docs[j].doc < src.maxDoc {
      RoundTrip.PostingsExact(docs, |docs|, src.entries[i].key.field, src.entries[i].key.text, analyze);
    }
    assert src.Lawful();
    forall name: string, t: string ensures src.DocsOf(Key(name, t)) == PostingsOf(docs, |docs|, name, t, analyze) {
      if i :| 0 <= i < |src.entries| && src.entries[i].key == Key(name, t) {
        src.DocsAt(0, i);
      } else {
        src.DocsMissing(0, Key(name, t));
      }
    }
  }
}
