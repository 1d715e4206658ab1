/** The whole index: a reader over any number of written segments, each with its own deletions. It
    keeps the promises the filters rely on, and every kind of leaf matches exactly the live documents
    whose own tokens say so. */
module WholeIndex {
  import opened Wrappers
  import opened Lex
  import opened Sorting
  import opened Inverter
  import opened RoundTrip
  import opened Scoring
  import opened Queries
  import opened AllowLists
  import Postings
  import Segments
  import TermDict
  import WrittenIndex

  /** A segment's files, its deletions, and the documents it was written from. */
  datatype Part = Part(seg: WrittenIndex.Segment, docs: seq<Doc>) {

    /** The full decode of the dictionary; a dictionary that does not open has no terms. */
    function Entries(): seq<TermDict.Entry> {
      match TermDict.Opened(seg.files.tis, seg.files.tii, seg.names)
      case Failure(_) => []
      case Success(dict) => dict.All()
    }

    /** The texts of a field that a dictionary query selects. */
    function Terms(field: string, w: TermDict.Wanted): seq<string> {
      TermDict.Texts(TermDict.Select(Entries(), field, w))
    }

    function DocFreq(field: string, term: string): nat {
      match seg.Info(field, term)
      case None => 0
      case Some(info) => info.docFreq
    }

    /** The reader's view of this segment. */
    ghost predicate ShownBy(s: Segments.Segment) {
      && s.maxDoc == |docs|
      && (forall f: string, t: string :: s.postings(f, t) == WrittenIndex.Pairs(seg.Freqs(f, t)))
      && (forall f: string, p: string :: s.termsWithPrefix(f, p) == Terms(f, TermDict.StartingWith(p)))
      && (forall f: string :: s.numericSortValues(f).Some? ==> |s.numericSortValues(f).value| == |docs|)
    }

    ghost predicate Written(analyze: string -> seq<string>) {
      WrittenIndex.Written(seg, docs, analyze) && AllDistinct(docs)
    }

    /** The documents below `n` that have the term. */
    ghost function Having(field: string, term: string, analyze: string -> seq<string>, n: nat): set<nat>
      requires n <= |docs|
    {
      set d | 0 <= d < n && PositionsIn(docs[d].fields, field, term, analyze) != [] :: d
    }

    /** A term's document frequency counts the documents that have it, deleted ones included. */
    lemma {:induction false} DocFreqIs(field: string, term: string, analyze: string -> seq<string>)
      requires Written(analyze)
      ensures DocFreq(field, term) == |Having(field, term, analyze, |docs|)|
    {
      hide AllDistinct, PostingsOf, PositionsIn, TermDict.Opened, TermDict.Lookup, Postings.PostingsAt, TermDict.Dict.Valid;
      var ps := PostingsOf(docs, |docs|, field, term, analyze);
      var r := TermDict.Lookup(TermDict.Opened(seg.files.tis, seg.files.tii, seg.names).value.All(), Lex.Key(field, term));
      assert Answers(r, seg.files, ps);
      assert seg.Info(field, term) == r;
      if ps != [] {
        assert Postings.TermPostings(seg.files.frq, seg.files.prx, r.value) == Scan(ps, None);
        Postings.AsManyAsCounted(seg.files.frq, r.value.freqPointer, seg.files.prx, r.value.proxPointer, 0, r.value.docFreq);
      }
      PostingsCount(field, term, analyze, |docs|);
    }

    lemma {:induction false} PostingsCount(field: string, term: string, analyze: string -> seq<string>, n: nat)
      requires n <= |docs|
      ensures |PostingsOf(docs, n, field, term, analyze)| == |Having(field, term, analyze, n)|
    {
      hide PositionsIn;
      if n > 0 {
        PostingsCount(field, term, analyze, n - 1);
        var before := Having(field, term, analyze, n - 1);
        assert Having(field, term, analyze, n) == if PositionsIn(docs[n - 1].fields, field, term, analyze) != [] then before + {n - 1} else before;
      }
    }

    /** Selected terms ascend. */
    lemma {:induction false} TermsAscend(field: string, w: TermDict.Wanted, analyze: string -> seq<string>)
      requires Written(analyze)
      ensures Ascends(Less, Terms(field, w))
    {
      hide TermDict.Opened, AllDistinct, Answers, PostingsOf, TermDict.Lookup;
      SelectAscends(Entries(), field, w);
    }

    lemma {:induction false} SelectAscends(es: seq<TermDict.Entry>, field: string, w: TermDict.Wanted)
      requires TermDict.Sorted(es)
      ensures Ascends(Less, TermDict.Texts(TermDict.Select(es, field, w)))
    {
      hide KeyLess, Less, TermDict.Select, TermDict.Texts, Ascends;
      TermDict.SelectStep(es, field, w);
      if es == [] {
        NothingAscends();
      } else {
        SelectAscends(es[1..], field, w);
        if es[0].field == field && w.Holds(es[0].text) {
          var rest := TermDict.Texts(TermDict.Select(es[1..], field, w));
          forall t | t in rest ensures Less(es[0].text, t) {
            LaterText(es, field, w, t);
          }
          FirstAscends(es[0].text, rest);
        }
      }
    }

    lemma {:induction false} LaterText(es: seq<TermDict.Entry>, field: string, w: TermDict.Wanted, t: string)
      requires es != [] && TermDict.Sorted(es) && es[0].field == field
      requires t in TermDict.Texts(TermDict.Select(es[1..], field, w))
      ensures Less(es[0].text, t)
    {
      hide TermDict.Select, KeyLess, Less;
      var sel := TermDict.Select(es[1..], field, w);
      var j :| 0 <= j < |sel| && TermDict.Texts(sel)[j] == t;
      Selected(es[1..], field, w, sel[j]);
      var k :| 0 <= k < |es[1..]| && es[1..][k] == sel[j];
      assert es[k + 1] == sel[j];
      SameFieldLess(es[0].Key(), es[k + 1].Key());
    }

    lemma {:induction false} SameFieldLess(a: Key, b: Key)
      requires KeyLess(a, b) && a.field == b.field
      ensures Less(a.text, b.text)
    {
      Irreflexive(a.field);
    }

    lemma {:induction false} NothingAscends()
      ensures Ascends(Less, [])
    {
    }

    lemma {:induction false} FirstAscends(x: string, rest: seq<string>)
      requires Ascends(Less, rest) && forall t | t in rest :: Less(x, t)
      ensures Ascends(Less, [x] + rest)
    {
      hide Less;
      assert forall j | 0 <= j < |rest| :: rest[j] in rest;
    }

    lemma {:induction false} Selected(es: seq<TermDict.Entry>, field: string, w: TermDict.Wanted, e: TermDict.Entry)
      ensures e in TermDict.Select(es, field, w) <==> e in es && e.field == field && w.Holds(e.text)
    {
      if es != [] {
        Selected(es[1..], field, w, e);
        assert es == [es[0]] + es[1..];
      }
    }

    lemma {:induction false} SelectedText(field: string, w: TermDict.Wanted, t: string)
      ensures t in Terms(field, w) <==> t in Terms(field, TermDict.Every) && w.Holds(t)
    {
      hide Entries;
      var es := Entries();
      forall w ensures t in Terms(field, w) <==> exists e :: e in es && e.field == field && w.Holds(e.text) && e.text == t {
        var sel := TermDict.Select(es, field, w);
        if t in TermDict.Texts(sel) {
          var i: nat :| i < |sel| && TermDict.Texts(sel)[i] == t;
          Selected(es, field, w, sel[i]);
        }
        if e :| e in es && e.field == field && w.Holds(e.text) && e.text == t {
          Selected(es, field, w, e);
          var i: nat :| i < |sel| && sel[i] == e;
          assert TermDict.Texts(sel)[i] == t;
        }
      }
    }

    lemma {:induction false} ShownLawful(s: Segments.Segment, analyze: string -> seq<string>)
      requires ShownBy(s) && Written(analyze)
      ensures s.Lawful()
    {
      hide WrittenIndex.Written, WrittenIndex.Segment.Freqs, Terms, AllDistinct, Less;
      forall f: string, t: string
        ensures forall i, j | 0 <= i < j < |s.postings(f, t)| :: s.postings(f, t)[i].0 < s.postings(f, t)[j].0
        ensures forall i | 0 <= i < |s.postings(f, t)| :: s.postings(f, t)[i].0 < s.maxDoc
      {
        WrittenIndex.LiveAscends(seg, docs, analyze, f, t);
      }
      forall f: string, p: string ensures Ascends(Less, s.termsWithPrefix(f, p)) {
        TermsAscend(f, TermDict.StartingWith(p), analyze);
      }
    }
  }

  datatype Whole = Whole(parts: seq<Part>, index: Segments.Index, analyze: string -> seq<string>) {

    ghost predicate Valid() {
      && Segments.Chained(index.entries) && |index.entries| == |parts|
      && forall i | 0 <= i < |parts| :: parts[i].Written(analyze) && parts[i].ShownBy(index.entries[i].seg)
    }

    lemma {:induction false} IndexValid()
      requires Valid()
      ensures index.Valid()
    {
      hide Part.Written, Part.ShownBy, Segments.Segment.Lawful, Segments.Chained;
      forall i | 0 <= i < |parts| ensures index.entries[i].seg.Lawful() {
        parts[i].ShownLawful(index.entries[i].seg, analyze);
      }
    }

    /** The segment and local id of a document. */
    function Owner(id: nat): (o: Option<(nat, nat)>)
      requires |index.entries| == |parts|
      ensures o.Some? ==> o.value.0 < |parts|
    {
      index.Locate(id)
    }

    /** The document is owned and not deleted. */
    predicate Live(id: nat)
      requires |index.entries| == |parts|
    {
      Owner(id).Some? && !parts[Owner(id).value.0].seg.deleted(Owner(id).value.1)
    }

    /** The live document has a field called `name` whose token at `p` is `text`. */
    ghost predicate Says(id: nat, name: string, text: string, p: nat)
      requires |index.entries| == |parts|
    {
      Live(id) && var (i, d) := Owner(id).value; WrittenIndex.Says(parts[i].docs, d, name, text, p, analyze)
    }

    ghost predicate Has(id: nat, name: string, text: string)
      requires |index.entries| == |parts|
    {
      exists p: nat :: Says(id, name, text, p)
    }

    function DocFreqs(field: string, term: string, k: nat): nat
      requires k <= |parts|
    {
      if k == 0 then 0 else DocFreqs(field, term, k - 1) + parts[k - 1].DocFreq(field, term)
    }

    // ----- what a reader over the whole answers -----

    /** The documents of the first `k` segments that have the term, by segment and local id. */
    ghost function Having(field: string, term: string, k: nat): set<(nat, nat)>
      requires k <= |parts|
    {
      set i: nat, d: nat | i < k && d < |parts[i].docs| && d in parts[i].Having(field, term, analyze, |parts[i].docs|) :: (i, d)
    }

    /** Over all segments a term's document frequency counts every document that has it, deleted ones included. */
    lemma {:induction false} DocFreqsCount(field: string, term: string, k: nat)
      requires k <= |parts| && forall i | 0 <= i < |parts| :: parts[i].Written(analyze)
      ensures DocFreqs(field, term, k) == |Having(field, term, k)|
    {
      hide Part.DocFreq, Part.Having, Part.Written;
      if k == 0 {
        assert Having(field, term, 0) == {};
      } else {
        var part := parts[k - 1];
        var own := part.Having(field, term, analyze, |part.docs|);
        DocFreqsCount(field, term, k - 1);
        part.DocFreqIs(field, term, analyze);
        HavingBelow(part, field, term, analyze);
        var pairs := Paired(k - 1, own);
        PairsSize(k - 1, own);
        assert Having(field, term, k) == Having(field, term, k - 1) + pairs;
        assert Having(field, term, k - 1) !! pairs;
      }
    }

    ghost predicate PostingsAre(ps: seq<(nat, nat)>, field: string, term: string)
      requires |index.entries| == |parts|
    {
      forall id: nat, tf: nat :: (id, tf) in ps <==>
        Owner(id).Some? && (Owner(id).value.1, tf) in index.entries[Owner(id).value.0].seg.postings(field, term)
    }

    ghost predicate PositionsAre(m: map<nat, seq<nat>>, field: string, term: string)
      requires |index.entries| == |parts|
    {
      forall id: nat :: Scoring.Get(m, id) ==
        match Owner(id)
        case None => None
        case Some((i, d)) => Scoring.Get(Postings.Collected(parts[i].seg.AllPositions(field, term)), d)
    }

    /** The reader's answers, each put together from the segments'. */
    ghost predicate Serves<S>(reader: Reader<S>)
      requires |index.entries| == |parts|
    {
      && reader.totalDocs == index.TotalDocs()
      && (forall id: nat :: reader.deleted(id) <==> Owner(id).Some? && !Live(id))
      && (forall f: string, t: string :: PostingsAre(reader.postings(f, t), f, t))
      && (forall f: string, t: string :: PositionsAre(reader.positions(f, t), f, t))
      && (forall f: string, t: string :: reader.docFreq(f, t) == DocFreqs(f, t, |parts|))
    }

    lemma {:induction false} HasIs(id: nat, name: string, text: string)
      requires |index.entries| == |parts|
      ensures Has(id, name, text) <==>
              Live(id) && var (i, d) := Owner(id).value; exists p: nat :: WrittenIndex.Says(parts[i].docs, d, name, text, p, analyze)
    {
      hide WrittenIndex.Says, Owner;
      if Live(id) {
        var (i, d) := Owner(id).value;
        forall p: nat ensures Says(id, name, text, p) <==> WrittenIndex.Says(parts[i].docs, d, name, text, p, analyze) {
        }
      }
    }

    /** A document is in a term's postings exactly when it is live and has the term. */
    lemma {:induction false} Posted(ps: seq<(nat, nat)>, field: string, term: string, id: nat)
      requires Valid() && PostingsAre(ps, field, term)
      ensures (exists k | 0 <= k < |ps| :: ps[k].0 == id) <==> Has(id, field, term)
    {
      hide Part.Written, WrittenIndex.Says, WrittenIndex.Segment.Freqs, Segments.Chained, Owner, Has, Says;
      HasIs(id, field, term);
      if Owner(id).Some? {
        var (i, d) := Owner(id).value;
        var part := parts[i];
        var fs := part.seg.Freqs(field, term);
        assert index.entries[i].seg.postings(field, term) == WrittenIndex.Pairs(fs);
        LocalHas(i, d, field, term);
        if k :| 0 <= k < |ps| && ps[k].0 == id {
          assert ps[k] in ps;
          assert (id, ps[k].1) in ps;
          var j :| 0 <= j < |fs| && WrittenIndex.Pairs(fs)[j] == (d, ps[k].1);
          assert fs[j].doc == d;
        }
        if j :| 0 <= j < |fs| && fs[j].doc == d {
          assert WrittenIndex.Pairs(fs)[j] == (d, fs[j].freq);
          assert (id, fs[j].freq) in ps;
          var k :| 0 <= k < |ps| && ps[k] == (id, fs[j].freq);
        }
      } else {
        forall k | 0 <= k < |ps| ensures ps[k].0 != id {
          assert (ps[k].0, ps[k].1) == ps[k] && ps[k] in ps;
        }
      }
    }

    /** The same within the owning segment. */
    lemma {:induction false} LocalHas(i: nat, d: nat, field: string, term: string)
      requires Valid() && i < |parts|
      ensures var fs := parts[i].seg.Freqs(field, term);
              (exists j | 0 <= j < |fs| :: fs[j].doc == d) <==>
              !parts[i].seg.deleted(d) && exists p: nat :: WrittenIndex.Says(parts[i].docs, d, field, term, p, analyze)
    {
      hide WrittenIndex.Written, WrittenIndex.Says, WrittenIndex.Segment.Freqs, AllDistinct, PositionsIn, Part.ShownBy;
      var part := parts[i];
      assert part.Written(analyze);
      WrittenIndex.LiveAt(part.seg, part.docs, analyze, field, term, d);
      if d < |part.docs| {
        WrittenIndex.NonEmptySays(part.docs, d, field, term, analyze);
      } else {
        WrittenIndex.NobodySays(part.docs, d, field, term, analyze);
      }
    }

    // ----- term queries -----

    lemma {:induction false} HitsHave<S(!new)>(env: Env<S>, field: string, term: string, id: nat)
      requires Valid() && Serves(env.index)
      ensures env.Sc().TermValues(field, term, id) != [] <==> Has(id, field, term)
    {
      hide Part.Written, Part.ShownBy, Segments.Chained, Has, Scorer.TermValues, PositionsAre, PostingsAre;
      WrittenIndex.HitsListed(env, field, term, id);
      assert PostingsAre(env.index.postings(field, term), field, term);
      Posted(env.index.postings(field, term), field, term, id);
    }

    /** A term query matches exactly the live documents, of whatever segment, with that token in that field. */
    lemma {:induction false} TermFinds<S(!new)>(env: Env<S>, field: string, term: string, id: nat)
      requires Valid() && Serves(env.index)
      ensures env.Matches(Term(Some(field), term), id) <==> Has(id, field, term)
    {
      hide Valid, Has, Serves, Scorer.TermValues, Arith.Fold, Env.Matches;
      HitsHave(env, field, term, id);
      WrittenIndex.OneFieldScore(env, field, term, id);
    }

    // ----- the promises the filters rely on -----

    /** The live documents of one segment, by local id. */
    function LiveIn(i: nat): set<nat>
      requires i < |parts|
    {
      set d: nat | 0 <= d < |parts[i].docs| && !parts[i].seg.deleted(d)
    }

    /** Live documents summed over the segments. */
    function LiveCount(k: nat): nat
      requires k <= |parts|
    {
      if k == 0 then 0 else LiveCount(k - 1) + |LiveIn(k - 1)|
    }

    function LiveUpTo(k: nat): set<nat>
      requires k <= |parts| && |index.entries| == |parts|
    {
      set id: nat | 0 <= id < Segments.End(index.entries[..k]) && Live(id)
    }

    lemma {:induction false} LiveWithin(i: nat, d: nat)
      requires Valid() && i < |parts| && d < |parts[i].docs|
      ensures Owner(index.entries[i].base + d) == Some((i, d))
      ensures Live(index.entries[i].base + d) <==> d in LiveIn(i)
    {
      hide Part.Written;
      index.LocateInverts(i, d);
    }

    lemma {:induction false} EndStep(k: nat)
      requires Valid() && 0 < k <= |parts|
      ensures index.entries[k - 1].base == Segments.End(index.entries[..k - 1])
      ensures Segments.End(index.entries[..k]) == index.entries[k - 1].base + |parts[k - 1].docs|
    {
      hide Part.Written;
      assert index.entries[..k][k - 1] == index.entries[k - 1];
    }

    lemma {:induction false} LiveAdds(k: nat)
      requires Valid() && k <= |parts|
      ensures |LiveUpTo(k)| == LiveCount(k)
    {
      hide Part.Written, Part.ShownBy, Segments.Chained, Live, LiveIn, Segments.End;
      if k == 0 {
        NoneUpTo();
      } else {
        LiveAdds(k - 1);
        EndStep(k);
        var base, own := index.entries[k - 1].base, LiveIn(k - 1);
        var shifted := Shifted(base, own);
        ShiftedSize(base, own);
        LiveInBounds(k - 1);
        forall id: nat ensures id in LiveUpTo(k) <==> id in LiveUpTo(k - 1) || id in shifted {
          if base <= id < base + |parts[k - 1].docs| {
            LiveWithin(k - 1, id - base);
            assert id in shifted <==> id - base in own;
          }
        }
        assert LiveUpTo(k) == LiveUpTo(k - 1) + shifted;
        assert LiveUpTo(k - 1) !! shifted;
      }
    }

    lemma {:induction false} NoneUpTo()
      requires Valid()
      ensures |LiveUpTo(0)| == 0
    {
      hide Part.Written, Part.ShownBy, Live;
      assert index.entries[..0] == [];
      assert LiveUpTo(0) == {};
    }

    lemma {:induction false} LiveInBounds(i: nat)
      requires i < |parts|
      ensures forall d | d in LiveIn(i) :: d < |parts[i].docs|
    {
    }

    lemma {:induction false} LiveIs<S>(reader: Reader<S>, id: nat)
      requires Valid() && Serves(reader)
      ensures Live(id) <==> id < reader.totalDocs && !reader.deleted(id)
    {
      hide Part.Written, Part.ShownBy, Segments.Chained, PostingsAre, PositionsAre;
      index.LocateExact(id);
    }

    lemma {:induction false} PostedLive(ps: seq<(nat, nat)>, field: string, term: string, k: nat)
      requires Valid() && PostingsAre(ps, field, term) && k < |ps|
      ensures Live(ps[k].0)
    {
      hide Part.Written, Part.ShownBy, Segments.Chained, PostingsAre, Says, Live;
      Posted(ps, field, term, ps[k].0);
      HasIs(ps[k].0, field, term);
    }

    lemma {:induction false} PositionedLive(m: map<nat, seq<nat>>, field: string, term: string, id: nat)
      requires Valid() && PositionsAre(m, field, term) && id in m
      ensures Live(id)
    {
      hide WrittenIndex.Written, Part.ShownBy, AllDistinct, Segments.Chained, PositionsIn, Postings.Collected, WrittenIndex.Segment.AllPositions, Owner;
      var (i, d) := Owner(id).value;
      assert parts[i].Written(analyze);
      WrittenIndex.PositionsAre(parts[i].seg, parts[i].docs, analyze, field, term, d);
    }

    /** No segment counts the term: no posting either. */
    lemma {:induction false} Uncounted(ps: seq<(nat, nat)>, field: string, term: string)
      requires Valid() && PostingsAre(ps, field, term) && DocFreqs(field, term, |parts|) == 0
      ensures ps == []
    {
      hide Part.Written, WrittenIndex.Segment.Info, Segments.Chained, Owner, DocFreqs;
      forall id: nat, tf: nat ensures (id, tf) !in ps {
        if Owner(id).Some? {
          var i := Owner(id).value.0;
          EachUncounted(field, term, |parts|, i);
          NoFreqs(i, field, term);
          assert index.entries[i].seg.postings(field, term) == [];
        }
      }
      if ps != [] {
        var id, tf := SomePair(ps);
        assert false;
      }
    }

    lemma {:induction false} NoFreqs(i: nat, field: string, term: string)
      requires i < |parts| && parts[i].DocFreq(field, term) == 0
      ensures WrittenIndex.Pairs(parts[i].seg.Freqs(field, term)) == []
    {
      hide WrittenIndex.Segment.Info;
    }

    lemma {:induction false} EachUncounted(field: string, term: string, k: nat, i: nat)
      requires i < k <= |parts| && DocFreqs(field, term, k) == 0
      ensures parts[i].DocFreq(field, term) == 0
    {
      hide Part.DocFreq;
      if i < k - 1 {
        EachUncounted(field, term, k - 1, i);
      }
    }

    /** The texts of a field that some segment selects. */
    ghost predicate SomeTerm(field: string, w: TermDict.Wanted, t: string) {
      exists i | 0 <= i < |parts| :: t in parts[i].Terms(field, w)
    }

    lemma {:induction false} SomeSelected(field: string, w: TermDict.Wanted, t: string)
      ensures SomeTerm(field, w, t) <==> SomeTerm(field, TermDict.Every, t) && w.Holds(t)
    {
      hide Part.Terms;
      forall i | 0 <= i < |parts| ensures t in parts[i].Terms(field, w) <==> t in parts[i].Terms(field, TermDict.Every) && w.Holds(t) {
        parts[i].SelectedText(field, w, t);
      }
    }

    /** The whole index is a reader the filters may trust: its counts are exact, its postings and positions
        hold live documents only, and its ranges select what they say. */
    lemma {:induction false} IsLawful<S(!new)>(corpus: Corpus<S>)
      requires Valid() && Serves(corpus.env.index) && corpus.numDocs == LiveCount(|parts|)
      requires forall f: string, t: string :: t in corpus.terms(f) <==> SomeTerm(f, TermDict.Every, t)
      requires forall f: string, lo: Option<string>, hi: Option<string>, t: string ::
                 t in corpus.termsInRange(f, lo, hi) <==> SomeTerm(f, TermDict.InRange(lo, hi), t)
      ensures corpus.Lawful()
    {
      hide Part.Written, Part.ShownBy, Segments.Chained, Live, DocFreqs, PostingsAre, PositionsAre, SomeTerm, Segments.End, Owner;
      var reader := corpus.env.index;
      forall id: nat ensures id in corpus.LiveDocs() <==> Live(id) {
        LiveIs(reader, id);
      }
      LiveAdds(|parts|);
      WholeLive();
      assert corpus.LiveDocs() == LiveUpTo(|parts|);
      forall f: string, t: string
        ensures corpus.Docs(f, t) <= corpus.LiveDocs()
        ensures reader.docFreq(f, t) == 0 ==> reader.postings(f, t) == []
        ensures reader.positions(f, t).Keys <= corpus.LiveDocs()
      {
        var ps := reader.postings(f, t);
        assert PostingsAre(ps, f, t) && PositionsAre(reader.positions(f, t), f, t) && reader.docFreq(f, t) == DocFreqs(f, t, |parts|);
        forall k | 0 <= k < |ps| ensures ps[k].0 in corpus.LiveDocs() {
          PostedLive(ps, f, t, k);
        }
        if reader.docFreq(f, t) == 0 {
          Uncounted(ps, f, t);
        }
        forall id | id in reader.positions(f, t) ensures id in corpus.LiveDocs() {
          PositionedLive(reader.positions(f, t), f, t, id);
        }
      }
      forall f: RangeFilter, t: string ensures t in corpus.termsInRange(f.field, f.lower, f.upper) <==> t in corpus.terms(f.field) && f.Bounds(t) {
        SomeSelected(f.field, TermDict.InRange(f.lower, f.upper), t);
      }
    }

    lemma {:induction false} WholeLive()
      requires Valid()
      ensures forall id: nat :: id in LiveUpTo(|parts|) <==> Live(id)
    {
      hide Part.Written, Part.ShownBy, Segments.Chained;
      assert index.entries[..|parts|] == index.entries;
      forall id: nat | Live(id) ensures id < Segments.End(index.entries) {
        index.LocateExact(id);
      }
    }
  }

  lemma {:induction false} HavingBelow(part: Part, field: string, term: string, analyze: string -> seq<string>)
    ensures forall d | d in part.Having(field, term, analyze, |part.docs|) :: d < |part.docs|
  {
    hide PositionsIn;
  }

  function Paired(i: nat, s: set<nat>): set<(nat, nat)> {
    set d: nat | d in s :: (i, d)
  }

  lemma {:induction false} PairsSize(i: nat, s: set<nat>)
    ensures |Paired(i, s)| == |s|
  {
    if s == {} {
      assert Paired(i, s) == {};
    } else {
      var d :| d in s;
      PairsSize(i, s - {d});
      assert Paired(i, s) == Paired(i, s - {d}) + {(i, d)};
    }
  }

  lemma {:induction false} SomePair(ps: seq<(nat, nat)>) returns (id: nat, tf: nat)
    requires ps != []
    ensures (id, tf) in ps
  {
    id, tf := ps[0].0, ps[0].1;
    assert ps[0] == (id, tf);
  }

  function Shifted(base: nat, s: set<nat>): set<nat> {
    set d | d in s :: base + d
  }

  lemma {:induction false} InShifted(base: nat, s: set<nat>, x: nat)
    ensures x in Shifted(base, s) <==> x >= base && x - base in s
  {
    if x >= base && x - base in s {
      assert base + (x - base) == x;
    }
  }

  lemma {:induction false} ShiftedSize(base: nat, s: set<nat>)
    ensures |Shifted(base, s)| == |s|
    decreases |s|
  {
    hide Shifted;
    if s == {} {
      forall x ensures x !in Shifted(base, s) {
        InShifted(base, s, x);
      }
      assert Shifted(base, s) == {};
    } else {
      var d :| d in s;
      ShiftedSize(base, s - {d});
      forall x ensures x in Shifted(base, s) <==> x in Shifted(base, s - {d}) + {base + d} {
        InShifted(base, s, x);
        InShifted(base, s - {d}, x);
      }
      InShifted(base, s - {d}, base + d);
      assert Shifted(base, s) == Shifted(base, s - {d}) + {base + d};
    }
  }
}
