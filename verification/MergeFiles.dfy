/** The merge down to the bytes: the streaming merge, which feeds the dictionary writer one posting at a
    time, writes the files of the batch merge, which collects every term first. */
module MergeFiles {
  import opened Wrappers
  import opened Lex
  import opened Sorting
  import opened Postings
  import opened Merging
  import Inverter
  import MergeReference
  import TermDictWriter

  // ----- field numbers -----

  function AsField(meta: Inverter.FieldMeta): Inverter.Field {
    Inverter.Field(meta.name, "", if meta.indexed then Inverter.Keyword else Inverter.UnIndexed, false)
  }

  function AsFields(metas: seq<Inverter.FieldMeta>): (r: seq<Inverter.Field>)
    ensures |r| == |metas| && forall i | 0 <= i < |r| :: r[i] == AsField(metas[i])
  {
    seq(|metas|, i requires 0 <= i < |metas| => AsField(metas[i]))
  }

  function AllFields(lists: seq<seq<Inverter.FieldMeta>>): seq<Inverter.Field> {
    if lists == [] then [] else AllFields(lists[..|lists| - 1]) + AsFields(lists[|lists| - 1])
  }

  /** The union of the segments' fields: numbered by first appearance, indexed if any segment's is. */
  method FieldUnion(lists: seq<seq<Inverter.FieldMeta>>) returns (index: map<string, nat>, fields: seq<Inverter.FieldMeta>)
    ensures Inverter.NamesHold(index, fields, AllFields(lists))
  {
    hide Inverter.NamesHold, AsFields;
    index, fields := map[], [];
    assert lists[..0] == [];
    NoFields();
    for k := 0 to |lists|
      invariant Inverter.NamesHold(index, fields, AllFields(lists[..k]))
    {
      assert lists[..k + 1][..k] == lists[..k];
      index, fields := SegmentFields(index, fields, lists[k], AllFields(lists[..k]));
    }
    assert lists[..|lists|] == lists;
  }

  method SegmentFields(index: map<string, nat>, fields: seq<Inverter.FieldMeta>, metas: seq<Inverter.FieldMeta>, ghost before: seq<Inverter.Field>)
    returns (index': map<string, nat>, fields': seq<Inverter.FieldMeta>)
    requires Inverter.NamesHold(index, fields, before)
    ensures Inverter.NamesHold(index', fields', before + AsFields(metas))
  {
    hide Inverter.NamesHold;
    index', fields' := index, fields;
    ghost var flat := before;
    assert before + AsFields(metas)[..0] == before;
    for i := 0 to |metas|
      invariant flat == before + AsFields(metas)[..i] && Inverter.NamesHold(index', fields', flat)
    {
      var num;
      index', fields', num := Inverter.NumberOf(index', fields', AsField(metas[i]), flat);
      flat := flat + [AsField(metas[i])];
      assert AsFields(metas)[..i + 1] == AsFields(metas)[..i] + [AsField(metas[i])];
    }
    assert AsFields(metas)[..|metas|] == AsFields(metas);
  }

  lemma {:induction false} NoFields()
    ensures Inverter.NamesHold(map[], [], AllFields([]))
  {
  }

  // ----- merged terms as the writer's -----

  /** Every term's field has a number. */
  ghost predicate Numbered(sources: seq<Source>, index: map<string, nat>) {
    forall si, i | 0 <= si < |sources| && 0 <= i < |sources[si].entries| :: sources[si].entries[i].key.field in index
  }

  /** Segments whose terms name their own fields have every term numbered by the union. */
  lemma {:induction false} UnionNumbers(sources: seq<Source>, lists: seq<seq<Inverter.FieldMeta>>, index: map<string, nat>, fields: seq<Inverter.FieldMeta>)
    requires |lists| == |sources| && Inverter.NamesHold(index, fields, AllFields(lists))
    requires forall si, i | 0 <= si < |sources| && 0 <= i < |sources[si].entries| ::
               exists k | 0 <= k < |lists[si]| :: lists[si][k].name == sources[si].entries[i].key.field
    ensures Numbered(sources, index)
  {
    hide AsFields;
    forall si, i | 0 <= si < |sources| && 0 <= i < |sources[si].entries| ensures sources[si].entries[i].key.field in index {
      var k :| 0 <= k < |lists[si]| && lists[si][k].name == sources[si].entries[i].key.field;
      var q := InUnion(lists, si, k);
    }
  }

  lemma {:induction false} InUnion(lists: seq<seq<Inverter.FieldMeta>>, si: nat, k: nat) returns (q: nat)
    requires si < |lists| && k < |lists[si]|
    ensures q < |AllFields(lists)| && AllFields(lists)[q].name == lists[si][k].name
    decreases |lists|
  {
    var last := |lists| - 1;
    if si == last {
      q := |AllFields(lists[..last])| + k;
    } else {
      q := InUnion(lists[..last], si, k);
    }
  }

  function NumberOf(index: map<string, nat>, field: string): nat {
    if field in index then index[field] else 0
  }

  function TermOf(p: Posted, index: map<string, nat>): TermDictWriter.Term {
    TermDictWriter.Term(NumberOf(index, p.key.field), p.key.text, p.docs)
  }

  function TermsOf(out: seq<Posted>, index: map<string, nat>): (ts: seq<TermDictWriter.Term>)
    ensures |ts| == |out| && forall i | 0 <= i < |ts| :: ts[i] == TermOf(out[i], index)
  {
    seq(|out|, i requires 0 <= i < |out| => TermOf(out[i], index))
  }

  /** The merged terms fit the format. */
  ghost predicate Fits(sources: seq<Source>, index: map<string, nat>) {
    forall all | IsMerge(all, sources) :: TermDictWriter.Writable(TermsOf(all, index))
  }

  /** The files every merge of the sources must have. */
  ghost predicate AreMerged(files: TermDictWriter.DictFiles, sources: seq<Source>, index: map<string, nat>) {
    forall all | IsMerge(all, sources) ::
      TermDictWriter.Writable(TermsOf(all, index)) && files == TermDictWriter.Files(TermsOf(all, index))
  }

  // ----- a merge exists, and the stream builds its prefixes -----

  /** The keys of all sources. */
  function Keys(sources: seq<Source>): set<Key> {
    set si, i | 0 <= si < |sources| && 0 <= i < |sources[si].entries| :: sources[si].entries[i].key
  }

  lemma {:induction false} TermsOver(keys: set<Key>, sources: seq<Source>) returns (terms: seq<Posted>)
    ensures MergeReference.ListsTerms(terms, keys, sources)
    decreases |keys|
  {
    hide MergedDocs, MergeReference.ListsTerms;
    if keys == {} {
      terms := [];
      MergeReference.NoTermsListed(sources);
    } else {
      var key :| key in keys;
      terms := TermsOver(keys - {key}, sources);
      MergeReference.TermListed(terms, keys - {key}, sources, key);
      assert keys - {key} + {key} == keys;
      var docs := MergedDocs(sources, |sources|, key);
      if docs != [] {
        terms := terms + [Posted(key, docs)];
      }
    }
  }

  lemma {:induction false} MergeExists(sources: seq<Source>) returns (all: seq<Posted>)
    ensures IsMerge(all, sources)
  {
    hide MergedDocs, IsMerge, MergeReference.ListsTerms, Collected;
    var tm := map key | key in Keys(sources) :: Collected(MergedDocs(sources, |sources|, key));
    var terms := TermsOver(Keys(sources), sources);
    forall key: Key ensures MergeReference.Entry(tm, key) == Collected(MergedDocs(sources, |sources|, key)) {
      if key !in tm {
        if MergedDocs(sources, |sources|, key) != [] {
          var si, i := SomeEntry(sources, |sources|, key);
          assert false;
        }
        NothingCollected();
      }
    }
    assert tm.Keys == Keys(sources);
    MergeReference.SortedIsMerge(terms, tm, sources);
    all := Sort(PostedLess(), terms);
  }

  lemma {:induction false} NothingCollected()
    ensures Collected([]) == map[]
  {
  }

  /** What the stream has emitted so far is the start of the merge. */
  lemma {:induction false} SoFarIsPrefix(out: seq<Posted>, all: seq<Posted>, sources: seq<Source>, pos: seq<nat>)
    requires InBounds(sources, pos) && Split(sources, pos) && MergedSoFar(out, sources, pos) && IsMerge(all, sources)
    ensures |out| <= |all| && out == all[..|out|]
  {
    hide KeyLess, MergedDocs;
    PostedOrder();
    MergeDistinct(all, sources);
    forall x | x in out ensures x in all {
      var i :| 0 <= i < |out| && out[i] == x;
      var k :| 0 <= k < |all| && all[k].key == x.key;
      assert all[k] == x;
    }
    forall x, y | x in out && y in all && y !in out ensures PostedLess()(x, y) {
      var i :| 0 <= i < |out| && out[i] == x;
      if Taken(sources, pos, y.key) {
        TakenEmitted(out, all, sources, pos, y);
      }
      LaterKey(sources, pos, x.key, y);
    }
    LeadingPrefix(PostedLess(), out, all);
  }

  lemma {:induction false} TakenEmitted(out: seq<Posted>, all: seq<Posted>, sources: seq<Source>, pos: seq<nat>, y: Posted)
    requires InBounds(sources, pos) && MergedSoFar(out, sources, pos) && IsMerge(all, sources)
    requires y in all && Taken(sources, pos, y.key)
    ensures y in out
  {
    hide KeyLess, MergedDocs, Taken;
    var k :| 0 <= k < |all| && all[k] == y;
    var j :| 0 <= j < |out| && out[j].key == y.key;
    assert out[j] == y;
  }

  lemma {:induction false} LaterKey(sources: seq<Source>, pos: seq<nat>, key: Key, y: Posted)
    requires InBounds(sources, pos) && Split(sources, pos) && Taken(sources, pos, key) && !Taken(sources, pos, y.key)
    requires MergedDocs(sources, |sources|, y.key) != []
    ensures KeyLess(key, y.key)
  {
    hide KeyLess, MergedDocs;
    var si, e :| 0 <= si < |sources| && 0 <= e < pos[si] && sources[si].entries[e].key == key;
    var sj, f := SomeEntry(sources, |sources|, y.key);
    assert pos[sj] <= f;
  }

  // ----- streaming one term -----

  lemma {:induction false} RemappedGrows(src: Source, base: nat, docs: seq<Posting>, n: nat)
    requires n <= |docs|
    ensures Remapped(src, base, docs[..n]) <= Remapped(src, base, docs)
    decreases |docs|
  {
    hide Source.LiveBelow;
    if n < |docs| {
      assert docs[..|docs| - 1][..n] == docs[..n];
      RemappedGrows(src, base, docs[..|docs| - 1], n);
    } else {
      assert docs[..n] == docs;
    }
  }

  lemma {:induction false} CopiedGrows(sources: seq<Source>, parts: seq<Part>, n: nat)
    requires n <= |parts| && forall i | 0 <= i < |parts| :: parts[i].si < |sources|
    ensures Copied(sources, parts[..n]) <= Copied(sources, parts)
    decreases |parts|
  {
    hide Remapped, LiveBefore;
    if n < |parts| {
      assert parts[..|parts| - 1][..n] == parts[..n];
      CopiedGrows(sources, parts[..|parts| - 1], n);
    } else {
      assert parts[..n] == parts;
    }
  }

  lemma {:induction false} EncodablePrefix(docs: seq<Posting>, part: seq<Posting>)
    requires Encodable(0, docs) && part <= docs
    ensures Encodable(0, part)
    decreases |docs|
  {
    hide Encodable, FrqBytes, PrxBytes, DocBytes, PositionBytes, Ascending;
    if |part| < |docs| {
      var last := |docs| - 1;
      assert docs == docs[..last] + [docs[last]];
      TermDictWriter.LastPosting(0, docs[..last], docs[last]);
      EncodablePrefix(docs[..last], part);
    } else {
      assert part == docs;
    }
  }

  /** One segment's live postings of the open term, each written as it is read. */
  method StreamLive(w: TermDictWriter.TermDictStreamWriter, src: Source, map0: seq<Option<nat>>, ghost base: nat, docs: seq<Posting>)
    requires w.Valid() && w.open && Encodable(0, w.curDocs + Remapped(src, base, docs))
    requires |map0| == src.maxDoc && forall l | 0 <= l < |map0| :: map0[l] == NewId(src, base, l)
    requires forall j | 0 <= j < |docs| :: docs[j].doc < src.maxDoc
    modifies w
    ensures w.Valid() && w.open && w.curDocs == old(w.curDocs) + Remapped(src, base, docs)
    ensures w.terms == old(w.terms) && w.curField == old(w.curField) && w.curText == old(w.curText)
  {
    hide Encodable, TermDictWriter.Encodables, TermDictWriter.HoldPostings, TermDictWriter.TermDictStreamWriter.HoldsDict,
      TermDictWriter.FrqFile, TermDictWriter.PrxFile;
    ghost var before := w.curDocs;
    assert docs[..0] == [];
    assert before + [] == before;
    for j := 0 to |docs|
      invariant w.Valid() && w.open && w.curDocs == before + Remapped(src, base, docs[..j])
      invariant w.terms == old(w.terms) && w.curField == old(w.curField) && w.curText == old(w.curText)
    {
      assert docs[..j + 1][..j] == docs[..j];
      var d := docs[j];
      if src.deleted(d.doc) {
        assert Remapped(src, base, docs[..j]) + [] == Remapped(src, base, docs[..j]);
        continue;
      }
      if map0[d.doc].Some? {
        RemappedGrows(src, base, docs, j + 1);
        var p := Posting(map0[d.doc].value, d.positions);
        assert before + Remapped(src, base, docs[..j + 1]) == w.curDocs + [p];
        EncodablePrefix(before + Remapped(src, base, docs), w.curDocs + [p]);
        w.AddPosting(map0[d.doc].value, d.positions);
      }
    }
    assert docs[..|docs|] == docs;
  }

  /** One term of the merge: begun, its postings streamed segment by segment, ended; dropped when no
      live document keeps it. */
  method StreamTerm(w: TermDictWriter.TermDictStreamWriter, fieldNum: nat, sources: seq<Source>, maps: seq<seq<Option<nat>>>,
    ghost pos: seq<nat>, key: Key, parts: seq<Part>, ghost taken: set<nat>)
    requires AllLawful(sources) && InBounds(sources, pos) && Split(sources, pos) && LeastLeft(sources, pos, key)
    requires parts != [] && Gathered(parts, taken, sources, pos, key) && forall si: nat :: StandsAt(sources, pos, key, si) <==> si in taken
    requires |maps| == |sources| && forall si | 0 <= si < |sources| ::
               |maps[si]| == sources[si].maxDoc && forall l | 0 <= l < |maps[si]| :: maps[si][l] == NewId(sources[si], LiveBefore(sources, si), l)
    requires w.Valid() && !w.open
    requires var docs := MergedDocs(sources, |sources|, key);
             docs != [] ==> TermDictWriter.Writable(w.terms + [TermDictWriter.Term(fieldNum, key.text, docs)])
    modifies w
    ensures w.Valid() && !w.open
    ensures var docs := MergedDocs(sources, |sources|, key);
            w.terms == if docs == [] then old(w.terms) else old(w.terms) + [TermDictWriter.Term(fieldNum, key.text, docs)]
  {
    hide KeyLess, Remapped, LiveBefore, Source.DocsOf, Split, LeastLeft, Sort, MergedDocs, Gathered, Encodable,
      TermDictWriter.TermDictStreamWriter.Valid, TermDictWriter.Writable;
    ghost var docs := MergedDocs(sources, |sources|, key);
    var ordered := Sort(PartOrder(), parts);
    PartsOrdered(sources, pos, key, parts, taken, ordered);
    CopiedIsMerged(sources, ordered, |sources|, key);
    DocsEncodable(w.terms, fieldNum, key.text, docs);
    w.BeginTerm(fieldNum, key.text);
    assert ordered[..0] == [];
    for i := 0 to |ordered|
      invariant w.Valid() && w.open && w.curDocs == Copied(sources, ordered[..i])
      invariant w.terms == old(w.terms) && w.curField == fieldNum && w.curText == key.text
    {
      assert ordered[..i + 1][..i] == ordered[..i];
      var part := ordered[i];
      LocalDocs(sources, pos, key, part);
      CopiedGrows(sources, ordered, i + 1);
      EncodablePrefix(docs, Copied(sources, ordered[..i + 1]));
      StreamLive(w, sources[part.si], maps[part.si], LiveBefore(sources, part.si), part.docs);
    }
    assert ordered[..|ordered|] == ordered;
    w.EndTerm();
  }

  lemma {:induction false} DocsEncodable(terms: seq<TermDictWriter.Term>, fieldNum: nat, text: string, docs: seq<Posting>)
    requires docs != [] ==> TermDictWriter.Writable(terms + [TermDictWriter.Term(fieldNum, text, docs)])
    ensures Encodable(0, docs)
  {
    hide Encodable, TermDictWriter.FrqFile, TermDictWriter.PrxFile;
    if docs == [] {
      TermDictWriter.NoPostings();
    } else {
      assert (terms + [TermDictWriter.Term(fieldNum, text, docs)])[|terms|].docs == docs;
    }
  }

  // ----- the files -----

  /** A term taken next that keeps some document still fits the writer. */
  lemma {:induction false} NextFits(out: seq<Posted>, all: seq<Posted>, sources: seq<Source>, pos: seq<nat>, index: map<string, nat>)
    requires InBounds(sources, pos) && Split(sources, pos) && MergedSoFar(out, sources, pos) && IsMerge(all, sources)
    requires TermDictWriter.Writable(TermsOf(all, index))
    ensures TermDictWriter.Writable(TermsOf(out, index))
  {
    hide IsMerge, MergedSoFar, Split, TermDictWriter.Writable;
    SoFarIsPrefix(out, all, sources, pos);
    TermDictWriter.WritablePrefix(TermsOf(all, index), |out|);
    assert TermsOf(all, index)[..|out|] == TermsOf(out, index);
  }

  /** The streaming merge down to the bytes: whatever the segments, one posting at a time, it leaves
      the files of the merge. */
  method MergeFilesStreaming(sources: seq<Source>, index: map<string, nat>) returns (files: TermDictWriter.DictFiles, count: nat)
    requires AllLawful(sources) && Numbered(sources, index) && Fits(sources, index)
    ensures AreMerged(files, sources, index) && count == LiveBefore(sources, |sources|)
  {
    hide KeyLess, HeapOf, AllLawful, Split, MergedSoFar, MergedDocs, LeastLeft, Gathered, StandsAt, Left, LiveBefore, IsMerge,
      TermDictWriter.TermDictStreamWriter.Valid, TermDictWriter.Writable, TermDictWriter.Files;
    ghost var all := MergeExists(sources);
    var maps: seq<seq<Option<nat>>>;
    maps, count := DenseMaps(sources);
    var w := new TermDictWriter.TermDictStreamWriter();
    var pos: seq<nat> := seq(|sources|, _ => 0);
    ghost var out: seq<Posted> := [];
    NothingTaken(sources, pos);
    var heap := HeapOf(sources, pos);
    while heap != {}
      invariant InBounds(sources, pos) && heap == HeapOf(sources, pos) && Split(sources, pos) && MergedSoFar(out, sources, pos)
      invariant fresh(w) && w.Valid() && !w.open && w.terms == TermsOf(out, index)
      decreases Left(sources, pos)
    {
      ghost var was := pos;
      var key, parts, pos', heap', taken := GatherTerm(sources, pos, heap);
      TakenSome(sources, pos, key, parts, taken);
      ghost var docs := MergedDocs(sources, |sources|, key);
      SplitMoves(sources, pos, key, taken);
      OneTermMore(out, sources, pos, key, taken, docs);
      ghost var out' := if docs == [] then out else out + [Posted(key, docs)];
      NextFits(out', all, sources, pos', index);
      KeyNumbered(sources, pos, key, parts, taken, index);
      assert docs != [] ==> TermsOf(out', index) == TermsOf(out, index) + [TermDictWriter.Term(index[key.field], key.text, docs)];
      StreamTerm(w, index[key.field], sources, maps, pos, key, parts, taken);
      MovedShrinks(sources, pos, taken, key);
      pos, heap, out := pos', heap', out';
    }
    EverythingTaken(sources, pos, out);
    files := w.Finish();
    forall every | IsMerge(every, sources) ensures every == out {
      MergeUnique(every, out, sources);
    }
  }

  lemma {:induction false} KeyNumbered(sources: seq<Source>, pos: seq<nat>, key: Key, parts: seq<Part>, taken: set<nat>, index: map<string, nat>)
    requires Numbered(sources, index) && Gathered(parts, taken, sources, pos, key) && parts != []
    ensures key.field in index
  {
    assert StandsAt(sources, pos, key, parts[0].si);
  }

  /** The batch merge, whose sorted terms go to the buffering writer, leaves the same files. */
  method MergeFilesBatch(sources: seq<Source>, index: map<string, nat>) returns (files: TermDictWriter.DictFiles, count: nat)
    requires AllLawful(sources) && MergeReference.Ordered(sources) && Numbered(sources, index) && Fits(sources, index)
    ensures AreMerged(files, sources, index) && count == LiveBefore(sources, |sources|)
  {
    hide KeyLess, AllLawful, MergeReference.Ordered, IsMerge, LiveBefore, TermDictWriter.Writable, TermDictWriter.Files;
    var out;
    out, count := MergeReference.MergeBatch(sources);
    files := TermDictWriter.WriteTermDict(TermsOf(out, index));
    forall every | IsMerge(every, sources) ensures every == out {
      MergeUnique(every, out, sources);
    }
  }

  /** Byte for byte: two sets of files that every merge must have are one. */
  lemma {:induction false} SameFiles(a: TermDictWriter.DictFiles, b: TermDictWriter.DictFiles, sources: seq<Source>, index: map<string, nat>)
    requires AreMerged(a, sources, index) && AreMerged(b, sources, index)
    ensures a == b
  {
    hide IsMerge, TermDictWriter.Writable, TermDictWriter.Files;
    var all := MergeExists(sources);
  }
}
