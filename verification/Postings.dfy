/** Postings: `.frq` (document deltas and frequencies) and `.prx` (positions). */
module Postings {
  import opened Wrappers
  import opened Bytes

  datatype TermInfo = TermInfo(docFreq: nat, freqPointer: nat, proxPointer: nat)

  datatype Posting = Posting(doc: nat, positions: seq<nat>)

  datatype DocFreq = DocFreq(doc: nat, freq: nat)

  // ----- the encoder -----

  predicate Ascending(prev: nat, ps: seq<nat>)
    decreases ps
  {
    ps == [] || (prev <= ps[0] < U32 && Ascending(ps[0], ps[1..]))
  }

  /** What the encoder asks of one term: ascending doc ids, each with ascending positions. */
  predicate Encodable(prev: nat, docs: seq<Posting>)
    decreases docs
  {
    docs == [] ||
    (prev <= docs[0].doc < U63 && 0 < |docs[0].positions| < U32 && Ascending(0, docs[0].positions)
     && Encodable(docs[0].doc, docs[1..]))
  }

  function PositionBytes(prev: nat, ps: seq<nat>): seq<Byte>
    requires Ascending(prev, ps)
    decreases ps
  {
    if ps == [] then [] else VInt(ps[0] - prev) + PositionBytes(ps[0], ps[1..])
  }

  /** A frequency of one is the low bit of the delta; any other follows it. */
  function DocBytes(delta: nat, freq: nat): seq<Byte> {
    if freq > 1 then VInt(2 * delta) + VInt(freq) else VInt(2 * delta + 1)
  }

  function FrqBytes(prev: nat, docs: seq<Posting>): seq<Byte>
    requires Encodable(prev, docs)
    decreases docs
  {
    if docs == [] then [] else
    DocBytes(docs[0].doc - prev, |docs[0].positions|) + FrqBytes(docs[0].doc, docs[1..])
  }

  function PrxBytes(prev: nat, docs: seq<Posting>): seq<Byte>
    requires Encodable(prev, docs)
    decreases docs
  {
    if docs == [] then [] else PositionBytes(0, docs[0].positions) + PrxBytes(docs[0].doc, docs[1..])
  }

  method WriteTermPostings(frq: Buffer, prx: Buffer, docs: seq<Posting>) returns (freqPointer: nat, proxPointer: nat)
    requires frq != prx && Encodable(0, docs)
    modifies frq, prx
    ensures freqPointer == |old(frq.bytes)| && proxPointer == |old(prx.bytes)|
    ensures frq.bytes == old(frq.bytes) + FrqBytes(0, docs)
    ensures prx.bytes == old(prx.bytes) + PrxBytes(0, docs)
  {
    freqPointer, proxPointer := |frq.bytes|, |prx.bytes|;
    var prevDoc: nat := 0;
    hide FrqBytes, PrxBytes, DocBytes, PositionBytes, Encodable, Ascending;
    for i := 0 to |docs|
      invariant Encodable(prevDoc, docs[i..])
      invariant frq.bytes + FrqBytes(prevDoc, docs[i..]) == old(frq.bytes) + FrqBytes(0, docs)
      invariant prx.bytes + PrxBytes(prevDoc, docs[i..]) == old(prx.bytes) + PrxBytes(0, docs)
    {
      NextDoc(prevDoc, docs, i);
      ghost var f, p := frq.bytes, prx.bytes;
      WriteDoc(frq, docs[i].doc - prevDoc, |docs[i].positions|);
      WritePositions(prx, docs[i].positions);
      Append(f, DocBytes(docs[i].doc - prevDoc, |docs[i].positions|), FrqBytes(docs[i].doc, docs[i + 1..]));
      Append(p, PositionBytes(0, docs[i].positions), PrxBytes(docs[i].doc, docs[i + 1..]));
      prevDoc := docs[i].doc;
    }
    NoMoreDocs(prevDoc, docs[|docs|..]);
  }

  lemma {:induction false} NextDoc(prev: nat, docs: seq<Posting>, i: nat)
    requires i < |docs| && Encodable(prev, docs[i..])
    ensures prev <= docs[i].doc && Ascending(0, docs[i].positions) && Encodable(docs[i].doc, docs[i + 1..])
    ensures FrqBytes(prev, docs[i..]) == DocBytes(docs[i].doc - prev, |docs[i].positions|) + FrqBytes(docs[i].doc, docs[i + 1..])
    ensures PrxBytes(prev, docs[i..]) == PositionBytes(0, docs[i].positions) + PrxBytes(docs[i].doc, docs[i + 1..])
  {
    hide DocBytes, PositionBytes, Ascending;
    assert docs[i..][1..] == docs[i + 1..];
  }

  lemma {:induction false} NoMoreDocs(prev: nat, docs: seq<Posting>)
    requires docs == []
    ensures Encodable(prev, docs) && FrqBytes(prev, docs) == [] && PrxBytes(prev, docs) == []
  {
  }

  lemma {:induction false} Append(a: seq<Byte>, b: seq<Byte>, c: seq<Byte>)
    ensures a + (b + c) == (a + b) + c
  {
  }

  /** One document's `.frq` entry. */
  method WriteDoc(frq: Buffer, delta: nat, freq: nat)
    modifies frq
    ensures frq.bytes == old(frq.bytes) + DocBytes(delta, freq)
  {
    hide VInt;
    if freq > 1 {
      Append(frq.bytes, VInt(2 * delta), VInt(freq));
      WriteVInt(frq, delta * 2);
      WriteVInt(frq, freq);
    } else {
      WriteVInt(frq, delta * 2 + 1);
    }
  }

  /** The inner loop of the encoder. */
  method WritePositions(prx: Buffer, positions: seq<nat>)
    requires Ascending(0, positions)
    modifies prx
    ensures prx.bytes == old(prx.bytes) + PositionBytes(0, positions)
  {
    var prevPos: nat := 0;
    for i := 0 to |positions|
      invariant Ascending(prevPos, positions[i..])
      invariant prx.bytes + PositionBytes(prevPos, positions[i..]) == old(prx.bytes) + PositionBytes(0, positions)
    {
      assert positions[i..][1..] == positions[i + 1..];
      Append(prx.bytes, VInt(positions[i] - prevPos), PositionBytes(positions[i], positions[i + 1..]));
      WriteVInt(prx, positions[i] - prevPos);
      prevPos := positions[i];
    }
  }

  // ----- the decoders -----

  /** One `.frq` entry: document delta and frequency (cut to 32 bits). */
  function DocAt(frq: seq<Byte>, pos: nat): (r: Result<Parsed<DocFreq>>)
    ensures r.Success? ==> pos < r.value.next <= |frq|
  {
    var v :- VIntAt(frq, pos);
    if v.value % 2 == 1 then Success(Parsed(DocFreq(v.value / 2, 1), v.next))
    else
      var n :- VIntAt(frq, v.next);
      Success(Parsed(DocFreq(v.value / 2, n.value % U32), n.next))
  }

  function FreqsAt(frq: seq<Byte>, pos: nat, prev: nat, n: nat): Result<Parsed<seq<DocFreq>>>
    decreases n
  {
    if n == 0 then Success(Parsed([], pos))
    else
      var d :- DocAt(frq, pos);
      var doc := (prev + d.value.doc) % U64;
      Prepend([DocFreq(doc, d.value.freq)], FreqsAt(frq, d.next, doc, n - 1))
  }

  function PositionsAt(prx: seq<Byte>, pos: nat, prev: nat, n: nat): (r: Result<Parsed<seq<nat>>>)
    ensures r.Success? ==> |r.value.value| == n
    decreases n
  {
    if n == 0 then Success(Parsed([], pos))
    else
      var v :- VIntAt(prx, pos);
      var p := (prev + v.value % U32) % U32;
      Prepend([p], PositionsAt(prx, v.next, p, n - 1))
  }

  /** The walk over both files in step: `n` more documents after document `prev`. */
  function PostingsAt(frq: seq<Byte>, fpos: nat, prx: seq<Byte>, ppos: nat, prev: nat, n: nat): Scan<Posting>
    decreases n
  {
    if n == 0 then Scan([], None)
    else
      match DocAt(frq, fpos)
      case Failure(e) => Scan([], Some(e))
      case Success(d) =>
        match PositionsAt(prx, ppos, 0, d.value.freq)
        case Failure(e) => Scan([], Some(e))
        case Success(ps) =>
          var doc := (prev + d.value.doc) % U64;
          After([Posting(doc, ps.value)], PostingsAt(frq, d.next, prx, ps.next, doc, n - 1))
  }

  function TermPostings(frq: seq<Byte>, prx: seq<Byte>, info: TermInfo): Scan<Posting> {
    PostingsAt(frq, info.freqPointer, prx, info.proxPointer, 0, info.docFreq)
  }

  /** A walk without an error lists as many documents as it was asked for. */
  lemma {:induction false} AsManyAsCounted(frq: seq<Byte>, fpos: nat, prx: seq<Byte>, ppos: nat, prev: nat, n: nat)
    ensures var s := PostingsAt(frq, fpos, prx, ppos, prev, n);
            s.error.None? ==> |s.items| == n
    decreases n
  {
    hide DocAt, PositionsAt;
    if n > 0 && DocAt(frq, fpos).Success? {
      var d := DocAt(frq, fpos).value;
      if PositionsAt(prx, ppos, 0, d.value.freq).Success? {
        var ps := PositionsAt(prx, ppos, 0, d.value.freq).value;
        AsManyAsCounted(frq, d.next, prx, ps.next, (prev + d.value.doc) % U64, n - 1);
      }
    }
  }

  method ReadFreqs(frq: seq<Byte>, info: TermInfo) returns (r: Result<seq<DocFreq>>)
    ensures var s := FreqsAt(frq, info.freqPointer, 0, info.docFreq);
            r == if s.Success? then Success(s.value.value) else Failure(s.error)
  {
    var pos: nat, prev: nat, out := info.freqPointer, 0, [];
    ghost var all := FreqsAt(frq, pos, 0, info.docFreq);
    PrependNothing(all);
    for i := 0 to info.docFreq
      invariant all == Prepend(out, FreqsAt(frq, pos, prev, info.docFreq - i))
    {
      var v := ReadVInt(frq, pos);
      if v.Failure? {
        return Failure(v.error);
      }
      pos := v.value.next;
      var delta, freq := v.value.value / 2, 1;
      if v.value.value % 2 != 1 {
        var n := ReadVInt(frq, pos);
        if n.Failure? {
          return Failure(n.error);
        }
        freq, pos := n.value.value % U32, n.value.next;
      }
      var doc := (prev + delta) % U64;
      PrependMore(out, DocFreq(doc, freq), FreqsAt(frq, pos, doc, info.docFreq - i - 1));
      out := out + [DocFreq(doc, freq)];
      prev := doc;
    }
    assert out + [] == out;
    return Success(out);
  }

  /** Positions of one document: the inner loop of the position decoders. */
  method ReadDocPositions(prx: seq<Byte>, ppos: nat, freq: nat) returns (r: Result<Parsed<seq<nat>>>)
    ensures r == PositionsAt(prx, ppos, 0, freq)
  {
    var pos: nat, prevPos: nat, positions := ppos, 0, [];
    PrependNothing(PositionsAt(prx, ppos, 0, freq));
    for i := 0 to freq
      invariant PositionsAt(prx, ppos, 0, freq) == Prepend(positions, PositionsAt(prx, pos, prevPos, freq - i))
    {
      var v := ReadVInt(prx, pos);
      if v.Failure? {
        return Failure(v.error);
      }
      prevPos, pos := (prevPos + v.value.value % U32) % U32, v.value.next;
      PrependMore(positions, prevPos, PositionsAt(prx, pos, prevPos, freq - i - 1));
      positions := positions + [prevPos];
    }
    assert positions + [] == positions;
    return Success(Parsed(positions, pos));
  }

  /** Hands each posting to a callback in order; `visited` are the calls, `error` what ended the walk. */
  method ForEachPosting(frq: seq<Byte>, prx: seq<Byte>, info: TermInfo)
    returns (visited: seq<Posting>, error: Option<Error>)
    ensures Scan(visited, error) == TermPostings(frq, prx, info)
  {
    hide DocAt, PositionsAt;
    var fpos: nat, ppos: nat, prev: nat := info.freqPointer, info.proxPointer, 0;
    visited := [];
    AfterNothing(TermPostings(frq, prx, info));
    for i := 0 to info.docFreq
      invariant TermPostings(frq, prx, info) == After(visited, PostingsAt(frq, fpos, prx, ppos, prev, info.docFreq - i))
    {
      var d := DocAt(frq, fpos);
      if d.Failure? {
        assert visited + [] == visited;
        return visited, Some(d.error);
      }
      var positions := ReadDocPositions(prx, ppos, d.value.value.freq);
      if positions.Failure? {
        assert visited + [] == visited;
        return visited, Some(positions.error);
      }
      fpos, ppos := d.value.next, positions.value.next;
      prev := (prev + d.value.value.doc) % U64;
      AfterMore(visited, Posting(prev, positions.value.value), PostingsAt(frq, fpos, prx, ppos, prev, info.docFreq - i - 1));
      visited := visited + [Posting(prev, positions.value.value)];
    }
    assert visited + [] == visited;
    return visited, None;
  }

  method ReadAllPositions(frq: seq<Byte>, prx: seq<Byte>, info: TermInfo) returns (r: Result<seq<Posting>>)
    ensures r == TermPostings(frq, prx, info).ToResult()
  {
    var out, error := ForEachPosting(frq, prx, info);
    return if error.Some? then Failure(error.value) else Success(out);
  }

  /** The first posting of `doc`, when the walk reaches one. */
  function FirstOf(items: seq<Posting>, doc: nat): Option<seq<nat>> {
    if items == [] then None
    else if items[0].doc == doc then Some(items[0].positions)
    else FirstOf(items[1..], doc)
  }

  /** What a lookup of one document in a walk yields: the walk's error counts only when it comes first. */
  function PositionsOf(s: Scan<Posting>, doc: nat): Result<seq<nat>> {
    match FirstOf(s.items, doc)
    case Some(ps) => Success(ps)
    case None => if s.error.Some? then Failure(s.error.value) else Success([])
  }

  method ReadPositions(frq: seq<Byte>, prx: seq<Byte>, info: TermInfo, docId: nat) returns (r: Result<seq<nat>>)
    ensures r == PositionsOf(TermPostings(frq, prx, info), docId)
  {
    hide DocAt, PositionsAt;
    var fpos: nat, ppos: nat, prev: nat := info.freqPointer, info.proxPointer, 0;
    for i := 0 to info.docFreq
      invariant PositionsOf(TermPostings(frq, prx, info), docId)
             == PositionsOf(PostingsAt(frq, fpos, prx, ppos, prev, info.docFreq - i), docId)
    {
      var d := DocAt(frq, fpos);
      if d.Failure? {
        return Failure(d.error);
      }
      var positions := ReadDocPositions(prx, ppos, d.value.value.freq);
      if positions.Failure? {
        return Failure(positions.error);
      }
      prev := (prev + d.value.value.doc) % U64;
      FirstAfter(Posting(prev, positions.value.value),
                 PostingsAt(frq, d.value.next, prx, positions.value.next, prev, info.docFreq - i - 1), docId);
      if prev == docId {
        return Success(positions.value.value);
      }
      fpos, ppos := d.value.next, positions.value.next;
    }
    return Success([]);
  }

  lemma {:induction false} FirstAfter(p: Posting, s: Scan<Posting>, doc: nat)
    ensures PositionsOf(After([p], s), doc) == if p.doc == doc then Success(p.positions) else PositionsOf(s, doc)
  {
    assert ([p] + s.items)[1..] == s.items;
  }

  // ----- the decoders agree with one another and undo the encoder -----

  function Frequencies(items: seq<Posting>): seq<DocFreq> {
    if items == [] then [] else [DocFreq(items[0].doc, |items[0].positions|)] + Frequencies(items[1..])
  }

  /** On any bytes at all: when the full walk succeeds, the walk that never opens `.prx` sees the
      same documents with the same frequencies. */
  lemma {:induction false} FreqsAgree(frq: seq<Byte>, fpos: nat, prx: seq<Byte>, ppos: nat, prev: nat, n: nat)
    requires PostingsAt(frq, fpos, prx, ppos, prev, n).error.None?
    ensures FreqsAt(frq, fpos, prev, n).Success?
    ensures FreqsAt(frq, fpos, prev, n).value.value == Frequencies(PostingsAt(frq, fpos, prx, ppos, prev, n).items)
    decreases n
  {
    hide DocAt, PositionsAt;
    if n > 0 {
      var d := DocAt(frq, fpos).value;
      var ps := PositionsAt(prx, ppos, 0, d.value.freq).value;
      var doc := (prev + d.value.doc) % U64;
      FreqsAgree(frq, d.next, prx, ps.next, doc, n - 1);
      var rest := PostingsAt(frq, d.next, prx, ps.next, doc, n - 1).items;
      assert ([Posting(doc, ps.value)] + rest)[1..] == rest;
    }
  }

  lemma {:induction false} PositionsRoundTrip(prx: seq<Byte>, pos: nat, prev: nat, ps: seq<nat>)
    requires prev < U32 && Ascending(prev, ps) && At(prx, pos, PositionBytes(prev, ps))
    ensures PositionsAt(prx, pos, prev, |ps|) == Success(Parsed(ps, pos + |PositionBytes(prev, ps)|))
    decreases ps
  {
    hide VInt, VIntAt;
    if ps != [] {
      AtSplit(prx, pos, VInt(ps[0] - prev), PositionBytes(ps[0], ps[1..]));
      VIntRoundTrip(prx, pos, ps[0] - prev);
      PositionsRoundTrip(prx, pos + |VInt(ps[0] - prev)|, ps[0], ps[1..]);
      assert [ps[0]] + ps[1..] == ps;
    }
  }

  lemma {:induction false} DocRoundTrip(frq: seq<Byte>, pos: nat, delta: nat, freq: nat)
    requires delta < U63 && 0 < freq < U32 && At(frq, pos, DocBytes(delta, freq))
    ensures DocAt(frq, pos) == Success(Parsed(DocFreq(delta, freq), pos + |DocBytes(delta, freq)|))
  {
    hide VInt, VIntAt;
    if freq > 1 {
      AtSplit(frq, pos, VInt(2 * delta), VInt(freq));
      VIntRoundTrip(frq, pos, 2 * delta);
      VIntRoundTrip(frq, pos + |VInt(2 * delta)|, freq);
    } else {
      VIntRoundTrip(frq, pos, 2 * delta + 1);
    }
  }

  /** Decoding where the encoder wrote gives back every document, frequency and position,
      whatever the two files hold before and after. */
  lemma {:induction false} TermRoundTrip(frq: seq<Byte>, fpos: nat, prx: seq<Byte>, ppos: nat, prev: nat, docs: seq<Posting>)
    requires Encodable(prev, docs)
    requires At(frq, fpos, FrqBytes(prev, docs)) && At(prx, ppos, PrxBytes(prev, docs))
    ensures PostingsAt(frq, fpos, prx, ppos, prev, |docs|) == Scan(docs, None)
    decreases docs
  {
    hide At, DocBytes, DocAt, PositionsAt, PositionBytes;
    if docs != [] {
      var d := docs[0];
      var delta, freq := d.doc - prev, |d.positions|;
      AtSplit(frq, fpos, DocBytes(delta, freq), FrqBytes(d.doc, docs[1..]));
      AtSplit(prx, ppos, PositionBytes(0, d.positions), PrxBytes(d.doc, docs[1..]));
      DocRoundTrip(frq, fpos, delta, freq);
      PositionsRoundTrip(prx, ppos, 0, d.positions);
      TermRoundTrip(frq, fpos + |DocBytes(delta, freq)|, prx, ppos + |PositionBytes(0, d.positions)|, d.doc, docs[1..]);
      assert d == Posting(d.doc, d.positions) && [d] + docs[1..] == docs;
    }
  }

  // ----- postings as a map -----

  /** Postings collected into a map. */
  function Collected(ps: seq<Posting>): map<nat, seq<nat>> {
    if ps == [] then map[] else Collected(ps[..|ps| - 1])[ps[|ps| - 1].doc := ps[|ps| - 1].positions]
  }

  lemma {:induction false} CollectedStep(before: seq<Posting>, p: Posting)
    ensures Collected(before + [p]) == Collected(before)[p.doc := p.positions]
  {
    assert (before + [p])[..|before|] == before;
  }
}
