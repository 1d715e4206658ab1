/** Searching what was written: a reader over the files of an inverted batch answers term and phrase
    queries exactly as the documents' own tokens say. */
module WrittenIndex {
  import opened Wrappers
  import opened Bytes
  import opened Lex
  import opened Inverter
  import opened RoundTrip
  import opened Scoring
  import opened Queries
  import Postings
  import TermDict
  import TermDictWriter

  // ----- a reader over the files -----

  /** What is left of a posting list once deleted documents are filtered out. */
  function LiveFreqs(ds: seq<Postings.DocFreq>, deleted: nat -> bool): seq<Postings.DocFreq> {
    if ds == [] then []
    else LiveFreqs(ds[..|ds| - 1], deleted) + (if deleted(ds[|ds| - 1].doc) then [] else [ds[|ds| - 1]])
  }

  function LivePostings(ps: seq<Postings.Posting>, deleted: nat -> bool): seq<Postings.Posting> {
    if ps == [] then []
    else LivePostings(ps[..|ps| - 1], deleted) + (if deleted(ps[|ps| - 1].doc) then [] else [ps[|ps| - 1]])
  }

  lemma {:induction false} LiveFreqsAre(ds: seq<Postings.DocFreq>, deleted: nat -> bool)
    ensures forall x :: x in LiveFreqs(ds, deleted) <==> x in ds && !deleted(x.doc)
  {
    if ds != [] {
      LiveFreqsAre(ds[..|ds| - 1], deleted);
      assert ds == ds[..|ds| - 1] + [ds[|ds| - 1]];
    }
  }

  datatype Segment = Segment(files: TermDictWriter.DictFiles, names: seq<string>, deleted: nat -> bool) {

    function Info(field: string, term: string): Option<Postings.TermInfo> {
      match TermDict.Opened(files.tis, files.tii, names)
      case Failure(_) => None
      case Success(dict) => TermDict.Lookup(dict.All(), Key(field, term))
    }

    /** Live documents and frequencies, from `.frq` alone; undecodable postings count as none. */
    function Freqs(field: string, term: string): seq<Postings.DocFreq> {
      match Info(field, term)
      case None => []
      case Some(info) =>
        match Postings.FreqsAt(files.frq, info.freqPointer, 0, info.docFreq)
        case Success(p) => LiveFreqs(p.value, deleted)
        case Failure(_) => []
    }

    /** Live documents and positions, from both files. */
    function AllPositions(field: string, term: string): seq<Postings.Posting> {
      match Info(field, term)
      case None => []
      case Some(info) =>
        match Postings.TermPostings(files.frq, files.prx, info).ToResult()
        case Success(ps) => LivePostings(ps, deleted)
        case Failure(_) => []
    }

    /** `index` answers from these files. */
    ghost predicate Serves<S>(index: Reader<S>) {
      forall f: string, t: string ::
        && index.postings(f, t) == Pairs(Freqs(f, t))
        && index.positions(f, t) == Postings.Collected(AllPositions(f, t))
        && index.docFreq(f, t) == (match Info(f, t) case None => 0 case Some(info) => info.docFreq)
    }
  }

  function Pairs(ds: seq<Postings.DocFreq>): (r: seq<(nat, nat)>)
    ensures |r| == |ds| && forall i | 0 <= i < |ds| :: r[i] == (ds[i].doc, ds[i].freq)
  {
    seq(|ds|, i requires 0 <= i < |ds| => (ds[i].doc, ds[i].freq))
  }

  // ----- what the reader finds -----

  /** What `IndexRoundTrip` establishes of the written files. */
  ghost predicate Written(seg: Segment, docs: seq<Doc>, analyze: string -> seq<string>) {
    var r := TermDict.Opened(seg.files.tis, seg.files.tii, seg.names);
    && r.Success? && r.value.Valid()
    && forall name: string, text: string ::
         Answers(TermDict.Lookup(r.value.All(), Key(name, text)), seg.files, PostingsOf(docs, |docs|, name, text, analyze))
  }

  /** The files of an inversion, read back with any documents deleted since. */
  lemma {:induction false} WrittenBy(inv: Inverted, docs: seq<Doc>, deleted: nat -> bool, analyze: string -> seq<string>)
    requires Inverts(inv, docs, analyze) && AllDistinct(docs) && Moderate(docs, analyze) && NoEmptyTokens(analyze)
    requires TermDictWriter.Encodables(inv.terms) ==>
               TermDictWriter.Writable(inv.terms) && |TermDictWriter.Files(inv.terms).tis| < U64
    ensures TermDictWriter.Writable(inv.terms)
    ensures Written(Segment(TermDictWriter.Files(inv.terms), Names(inv.fields), deleted), docs, analyze)
  {
    hide Inverts, PostingsOf, AllDistinct, Moderate, NoEmptyTokens, TermDictWriter.Encodables, TermDictWriter.Writable,
         TermDictWriter.Files, TermDict.Opened, TermDict.Lookup, TermDict.Dict.Valid, Postings.TermPostings, Answers;
    IndexRoundTrip(inv, docs, analyze);
  }

  /** For any field name both readers see exactly the live documents' postings. */
  lemma {:induction false} Reads(seg: Segment, docs: seq<Doc>, analyze: string -> seq<string>, name: string, text: string)
    requires Written(seg, docs, analyze)
    ensures seg.AllPositions(name, text) == LivePostings(PostingsOf(docs, |docs|, name, text, analyze), seg.deleted)
    ensures seg.Freqs(name, text) == LiveFreqs(Postings.Frequencies(PostingsOf(docs, |docs|, name, text, analyze)), seg.deleted)
  {
    hide TermDict.Dict.Valid, LiveFreqs, LivePostings, PostingsOf, TermDict.Opened, TermDict.Lookup, Postings.PostingsAt, Postings.FreqsAt, Postings.Frequencies;
    var ps := PostingsOf(docs, |docs|, name, text, analyze);
    var r := TermDict.Lookup(TermDict.Opened(seg.files.tis, seg.files.tii, seg.names).value.All(), Key(name, text));
    assert Answers(r, seg.files, ps);
    if ps == [] {
      NoFrequencies(seg.deleted);
    } else {
      Postings.FreqsAgree(seg.files.frq, r.value.freqPointer, seg.files.prx, r.value.proxPointer, 0, r.value.docFreq);
    }
  }

  lemma {:induction false} NoFrequencies(deleted: nat -> bool)
    ensures Postings.Frequencies([]) == [] && LiveFreqs([], deleted) == [] && LivePostings([], deleted) == []
  {
  }

  /** The positions map has a document exactly when it is live and holds the term, with its positions. */
  lemma {:induction false} CollectedAt(docs: seq<Doc>, n: nat, deleted: nat -> bool, name: string, t: string, analyze: string -> seq<string>, d: nat)
    requires n <= |docs|
    ensures Scoring.Get(Postings.Collected(LivePostings(PostingsOf(docs, n, name, t, analyze), deleted)), d) ==
              if d < n && !deleted(d) && PositionsIn(docs[d].fields, name, t, analyze) != [] then Some(PositionsIn(docs[d].fields, name, t, analyze)) else None
  {
    hide PositionsIn, Postings.Collected, PostingsOf, LivePostings;
    if n == 0 {
      NothingCollected(docs, deleted, name, t, analyze);
    } else {
      CollectedAt(docs, n - 1, deleted, name, t, analyze, d);
      PostingsStep(docs, n, name, t, analyze);
      var before, p := PostingsOf(docs, n - 1, name, t, analyze), Postings.Posting(n - 1, PositionsIn(docs[n - 1].fields, name, t, analyze));
      LiveStep(before, p, deleted);
      Postings.CollectedStep(LivePostings(before, deleted), p);
    }
  }

  lemma {:induction false} LiveStep(before: seq<Postings.Posting>, p: Postings.Posting, deleted: nat -> bool)
    ensures LivePostings(before + [p], deleted) == LivePostings(before, deleted) + if deleted(p.doc) then [] else [p]
    ensures LivePostings(before, deleted) + [] == LivePostings(before, deleted)
  {
    assert (before + [p])[..|before|] == before;
  }

  lemma {:induction false} NothingCollected(docs: seq<Doc>, deleted: nat -> bool, name: string, t: string, analyze: string -> seq<string>)
    ensures Postings.Collected(LivePostings(PostingsOf(docs, 0, name, t, analyze), deleted)) == map[]
  {
  }

  lemma {:induction false} FrequenciesAt(ps: seq<Postings.Posting>)
    ensures |Postings.Frequencies(ps)| == |ps|
    ensures forall i | 0 <= i < |ps| :: Postings.Frequencies(ps)[i] == Postings.DocFreq(ps[i].doc, |ps[i].positions|)
  {
    if ps != [] {
      FrequenciesAt(ps[1..]);
    }
  }

  lemma {:induction false} ValuesSome<S>(hits: seq<(nat, S)>, d: nat)
    ensures Values(hits, d) != [] <==> exists i | 0 <= i < |hits| :: hits[i].0 == d
  {
    if hits != [] {
      var before := hits[..|hits| - 1];
      ValuesSome(before, d);
      assert forall i | 0 <= i < |before| :: before[i] == hits[i];
    }
  }

  /** Document `d` has a field called `name` whose token at `p` is `text`. */
  ghost predicate Says(docs: seq<Doc>, d: nat, name: string, text: string, p: nat, analyze: string -> seq<string>) {
    d < |docs| && exists q | 0 <= q < |docs[d].fields| :: docs[d].fields[q].name == name && TokenAt(docs[d].fields[q], p, text, analyze)
  }

  lemma {:induction false} PositionsSay(docs: seq<Doc>, d: nat, name: string, text: string, p: nat, analyze: string -> seq<string>)
    requires AllDistinct(docs) && d < |docs|
    ensures p in PositionsIn(docs[d].fields, name, text, analyze) <==> Says(docs, d, name, text, p, analyze)
  {
    hide PositionsIn, Occurrences, Tokens, FirstPosition, LengthIn;
    if q: nat :| q < |docs[d].fields| && docs[d].fields[q].name == name {
      var f := docs[d].fields[q];
      OneField(docs[d].fields, q, text, analyze);
      OccurrencesExact(Tokens(f, analyze), text, FirstPosition(f));
    } else {
      UnseenEmpty(docs[d].fields, name, text, analyze);
    }
  }

  lemma {:induction false} NonEmptySays(docs: seq<Doc>, d: nat, name: string, text: string, analyze: string -> seq<string>)
    requires AllDistinct(docs) && d < |docs|
    ensures PositionsIn(docs[d].fields, name, text, analyze) != [] <==> exists p: nat :: Says(docs, d, name, text, p, analyze)
  {
    hide PositionsIn, Says;
    var ps := PositionsIn(docs[d].fields, name, text, analyze);
    forall p: nat ensures p in ps <==> Says(docs, d, name, text, p, analyze) {
      PositionsSay(docs, d, name, text, p, analyze);
    }
    if ps != [] {
      assert ps[0] in ps;
    }
  }

  /** A live posting list has `d` exactly when `d` is live and holds the term. */
  lemma {:induction false} LiveAt(seg: Segment, docs: seq<Doc>, analyze: string -> seq<string>, name: string, text: string, d: nat)
    requires Written(seg, docs, analyze)
    ensures var fs := seg.Freqs(name, text);
            (exists i | 0 <= i < |fs| :: fs[i].doc == d) <==> d < |docs| && !seg.deleted(d) && PositionsIn(docs[d].fields, name, text, analyze) != []
  {
    hide Written, PositionsIn, PostingsOf, Segment.Freqs, Segment.AllPositions, Segment.Info, Postings.Frequencies, ListsDocs, LiveFreqs;
    var ps := PostingsOf(docs, |docs|, name, text, analyze);
    Reads(seg, docs, analyze, name, text);
    PostingsExact(docs, |docs|, name, text, analyze);
    var ds := Postings.Frequencies(ps);
    FrequenciesAt(ps);
    LiveFreqsAre(ds, seg.deleted);
    var live := seg.Freqs(name, text);
    if i :| 0 <= i < |live| && live[i].doc == d {
      assert live[i] in live;
      var k :| 0 <= k < |ds| && ds[k] == live[i];
      assert ps[k].doc == d;
    }
    if k :| 0 <= k < |ps| && ps[k].doc == d {
      if !seg.deleted(d) {
        assert ds[k] in live;
        var i :| 0 <= i < |live| && live[i] == ds[k];
      }
    }
    ListedAt(ps, docs, name, text, analyze, d);
  }

  ghost predicate AscendingDocs(ds: seq<Postings.DocFreq>) {
    forall i, j | 0 <= i < j < |ds| :: ds[i].doc < ds[j].doc
  }

  lemma {:induction false} LiveFreqsAscend(ds: seq<Postings.DocFreq>, deleted: nat -> bool)
    requires AscendingDocs(ds)
    ensures AscendingDocs(LiveFreqs(ds, deleted))
  {
    if ds != [] {
      var n := |ds| - 1;
      var before := LiveFreqs(ds[..n], deleted);
      LiveFreqsAscend(ds[..n], deleted);
      LiveFreqsAre(ds[..n], deleted);
      assert forall i | 0 <= i < |before| :: before[i] in before;
      assert forall x | x in ds[..n] :: x.doc < ds[n].doc;
      OneMoreAscends(before, ds[n]);
      assert before + [] == before;
    }
  }

  lemma {:induction false} OneMoreAscends(before: seq<Postings.DocFreq>, last: Postings.DocFreq)
    requires AscendingDocs(before) && forall i | 0 <= i < |before| :: before[i].doc < last.doc
    ensures AscendingDocs(before + [last])
  {
  }

  /** Live postings ascend and stay within the segment. */
  lemma {:induction false} LiveAscends(seg: Segment, docs: seq<Doc>, analyze: string -> seq<string>, name: string, text: string)
    requires Written(seg, docs, analyze)
    ensures var fs := seg.Freqs(name, text);
            AscendingDocs(fs) && forall i | 0 <= i < |fs| :: fs[i].doc < |docs|
  {
    hide Written, PositionsIn, PostingsOf, Segment.Freqs, Segment.AllPositions, Segment.Info, Postings.Frequencies, LiveFreqs;
    var ps := PostingsOf(docs, |docs|, name, text, analyze);
    Reads(seg, docs, analyze, name, text);
    PostingsExact(docs, |docs|, name, text, analyze);
    FrequenciesAt(ps);
    LiveFreqsAscend(Postings.Frequencies(ps), seg.deleted);
    LiveFreqsAre(Postings.Frequencies(ps), seg.deleted);
    var fs := seg.Freqs(name, text);
    forall i | 0 <= i < |fs| ensures fs[i].doc < |docs| {
      assert fs[i] in fs;
    }
  }

  /** The positions map has exactly the live documents that hold the term, with the term's positions. */
  lemma {:induction false} PositionsAre(seg: Segment, docs: seq<Doc>, analyze: string -> seq<string>, name: string, text: string, d: nat)
    requires Written(seg, docs, analyze)
    ensures Scoring.Get(Postings.Collected(seg.AllPositions(name, text)), d) ==
              if d < |docs| && !seg.deleted(d) && PositionsIn(docs[d].fields, name, text, analyze) != []
              then Some(PositionsIn(docs[d].fields, name, text, analyze)) else None
  {
    hide Written, PositionsIn, PostingsOf, Segment.Freqs, Segment.AllPositions, Segment.Info, Postings.Frequencies, Postings.Collected, LivePostings;
    Reads(seg, docs, analyze, name, text);
    CollectedAt(docs, |docs|, seg.deleted, name, text, analyze, d);
  }

  /** A term has a hit at `d` exactly when `d` is live and the documents list it there. */
  lemma {:induction false} HitsAt<S(!new)>(env: Env<S>, seg: Segment, docs: seq<Doc>, analyze: string -> seq<string>, name: string, text: string, d: nat)
    requires Written(seg, docs, analyze) && seg.Serves(env.index)
    ensures env.Sc().TermValues(name, text, d) != [] <==> d < |docs| && !seg.deleted(d) && PositionsIn(docs[d].fields, name, text, analyze) != []
  {
    hide Written, PositionsIn, Segment.Freqs, Segment.AllPositions, Segment.Info;
    LiveAt(seg, docs, analyze, name, text, d);
    assert env.index.postings(name, text) == Pairs(seg.Freqs(name, text));
    HitsListed(env, name, text, d);
  }

  lemma {:induction false} HitsListed<S(!new)>(env: Env<S>, name: string, text: string, d: nat)
    ensures env.Sc().TermValues(name, text, d) != [] <==>
            exists i | 0 <= i < |env.index.postings(name, text)| :: env.index.postings(name, text)[i].0 == d
  {
    var hits, ps := env.Sc().Hits(name, text), env.index.postings(name, text);
    ValuesSome(hits, d);
    assert |hits| == |ps| && forall i | 0 <= i < |hits| :: hits[i].0 == ps[i].0;
    if i :| 0 <= i < |ps| && ps[i].0 == d {
      assert hits[i].0 == d;
    }
  }

  lemma {:induction false} ListedAt(ps: seq<Postings.Posting>, docs: seq<Doc>, name: string, text: string, analyze: string -> seq<string>, d: nat)
    requires ListsDocs(ps, docs, |docs|, name, text, analyze)
    ensures (exists i | 0 <= i < |ps| :: ps[i].doc == d) <==> d < |docs| && PositionsIn(docs[d].fields, name, text, analyze) != []
  {
    hide PositionsIn;
  }

  /** A term query over the written index matches exactly the live documents with that token in that field. */
  lemma {:induction false} TermFinds<S(!new)>(env: Env<S>, seg: Segment, docs: seq<Doc>, analyze: string -> seq<string>, name: string, text: string, d: nat)
    requires Written(seg, docs, analyze) && seg.Serves(env.index) && AllDistinct(docs)
    ensures env.Matches(Term(Some(name), text), d) <==> !seg.deleted(d) && exists p: nat :: Says(docs, d, name, text, p, analyze)
  {
    hide Written, PositionsIn, Segment.Serves, Says, AllDistinct, Scorer.TermValues, Arith.Fold;
    HitsAt(env, seg, docs, analyze, name, text, d);
    OneFieldScore(env, name, text, d);
    if d < |docs| {
      NonEmptySays(docs, d, name, text, analyze);
    } else {
      NobodySays(docs, d, name, text, analyze);
    }
  }

  lemma {:induction false} NobodySays(docs: seq<Doc>, d: nat, name: string, text: string, analyze: string -> seq<string>)
    requires d >= |docs|
    ensures forall p: nat :: !Says(docs, d, name, text, p, analyze)
  {
  }

  lemma {:induction false} OneFieldScore<S(!new)>(env: Env<S>, name: string, text: string, d: nat)
    ensures env.Matches(Term(Some(name), text), d) <==> env.Sc().TermValues(name, text, d) != []
  {
    hide Scorer.TermValues, Arith.Fold;
    var q := Query<S>.Term(Some(name), text);
    assert env.TargetFields(q.field) == [name];
    LeafOfOne(env, q, name, d);
  }

  lemma {:induction false} LeafOfOne<S(!new)>(env: Env<S>, q: Query<S>, name: string, d: nat)
    requires q.Leaf()
    ensures env.LeafValues(q, [name], d) == env.ar.Scaled(env.FieldValues(q, name, d), env.FieldWeight(name))
  {
    hide Env.FieldValues;
    assert [name][..0] == [];
    assert env.LeafValues(q, [], d) == [];
    assert [] + env.ar.Scaled(env.FieldValues(q, name, d), env.FieldWeight(name)) == env.ar.Scaled(env.FieldValues(q, name, d), env.FieldWeight(name));
  }

  /** The positions a phrase word has in a live document are the document's own. */
  lemma {:induction false} WordAt<S(!new)>(env: Env<S>, seg: Segment, docs: seq<Doc>, analyze: string -> seq<string>, name: string, word: string, d: nat)
    requires Written(seg, docs, analyze) && seg.Serves(env.index) && AllDistinct(docs)
    ensures var ps := env.Sc().WordPositions(name, env.Sc().Variants(name, word, false), d);
            && (ps.Some? <==> !seg.deleted(d) && exists p: nat :: Says(docs, d, name, word, p, analyze))
            && (ps.Some? ==> forall p: nat :: p in ps.value <==> Says(docs, d, name, word, p, analyze))
  {
    hide Written, PositionsIn, Segment.Freqs, Segment.AllPositions, Segment.Info, Says, AllDistinct, Postings.Collected;
    PositionsAre(seg, docs, analyze, name, word, d);
    assert env.index.positions(name, word) == Postings.Collected(seg.AllPositions(name, word));
    OneVariant(env, name, word, d);
    if d < |docs| {
      NonEmptySays(docs, d, name, word, analyze);
      forall p: nat ensures p in PositionsIn(docs[d].fields, name, word, analyze) <==> Says(docs, d, name, word, p, analyze) {
        PositionsSay(docs, d, name, word, p, analyze);
      }
    } else {
      NobodySays(docs, d, name, word, analyze);
    }
  }

  lemma {:induction false} OneVariant<S(!new)>(env: Env<S>, name: string, word: string, d: nat)
    ensures env.Sc().WordPositions(name, env.Sc().Variants(name, word, false), d) == Scoring.Get(env.index.positions(name, word), d)
  {
    var sc := env.Sc();
    assert [word][..0] == [];
    assert sc.WordPositions(name, [], d) == None;
    var got := Scoring.Get(sc.index.positions(name, word), d);
    if got.Some? {
      assert [] + got.value == got.value;
    }
  }

  /** The words stand side by side in the field, from some position on. */
  ghost predicate SaysInOrder(docs: seq<Doc>, d: nat, name: string, words: seq<string>, p: nat, analyze: string -> seq<string>) {
    forall i | 0 <= i < |words| :: Says(docs, d, name, words[i], p + i, analyze)
  }

  /** A phrase query over the written index matches exactly the live documents whose field has the words as
      consecutive tokens. */
  lemma {:induction false} PhraseFinds<S(!new)>(env: Env<S>, seg: Segment, docs: seq<Doc>, analyze: string -> seq<string>, name: string, words: seq<string>, d: nat)
    requires Written(seg, docs, analyze) && seg.Serves(env.index) && AllDistinct(docs)
    ensures env.Matches(Phrase(Some(name), words, false), d) <==>
            !seg.deleted(d) && words != [] && exists p: nat :: SaysInOrder(docs, d, name, words, p, analyze)
  {
    hide Written, Segment.Serves, Says, AllDistinct, Scorer.WordPositions, Scorer.PhraseScore, Scorer.Variants;
    forall i | 0 <= i < |words|
      ensures var ps := env.Sc().WordPositions(name, env.Sc().Variants(name, words[i], false), d);
              && (ps.Some? <==> !seg.deleted(d) && exists p: nat :: Says(docs, d, name, words[i], p, analyze))
              && (ps.Some? ==> forall p: nat :: p in ps.value <==> Says(docs, d, name, words[i], p, analyze))
    {
      WordAt(env, seg, docs, analyze, name, words[i], d);
    }
    OneFieldPhrase(env, name, words, d);
    InOrder(env, docs, seg.deleted(d), name, words, analyze, d);
  }

  lemma {:induction false} OneFieldPhrase<S(!new)>(env: Env<S>, name: string, words: seq<string>, d: nat)
    ensures env.Matches(Phrase(Some(name), words, false), d) <==> env.Sc().PhraseIn(name, words, false, d)
  {
    hide Scorer.PhraseIn, Arith.Fold, Scorer.WordValues;
    var q := Query<S>.Phrase(Some(name), words, false);
    assert env.TargetFields(q.field) == [name];
    LeafOfOne(env, q, name, d);
  }

  lemma {:induction false} InOrder<S(!new)>(env: Env<S>, docs: seq<Doc>, gone: bool, name: string, words: seq<string>, analyze: string -> seq<string>, d: nat)
    requires forall i | 0 <= i < |words| ::
               var ps := env.Sc().WordPositions(name, env.Sc().Variants(name, words[i], false), d);
               && (ps.Some? <==> !gone && exists p: nat :: Says(docs, d, name, words[i], p, analyze))
               && (ps.Some? ==> forall p: nat :: p in ps.value <==> Says(docs, d, name, words[i], p, analyze))
    ensures env.Sc().PhraseIn(name, words, false, d) <==> !gone && words != [] && exists p: nat :: SaysInOrder(docs, d, name, words, p, analyze)
  {
    hide Says, Scorer.WordPositions, Scorer.Variants;
    var sc := env.Sc();
    if sc.PhraseIn(name, words, false, d) {
      var p: nat :| p in sc.WordPositions(name, sc.Variants(name, words[0], false), d).value
                 && forall i | 1 <= i < |words| :: p + i in sc.WordPositions(name, sc.Variants(name, words[i], false), d).value;
      assert SaysInOrder(docs, d, name, words, p, analyze);
    }
    if !gone && words != [] && exists p: nat :: SaysInOrder(docs, d, name, words, p, analyze) {
      var p: nat :| SaysInOrder(docs, d, name, words, p, analyze);
      assert forall i | 0 <= i < |words| :: Says(docs, d, name, words[i], p + i, analyze);
      assert Says(docs, d, name, words[0], p + 0, analyze);
    }
  }
}
