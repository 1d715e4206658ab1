/** The term dictionary writer: `.tis`, the sample `.tii` of every `INTERVAL`-th term, and the postings. */
module TermDictWriter {
  import opened Wrappers
  import opened Bytes
  import opened Postings
  import opened TermDict
  import Utf8Order

  const INTERVAL: nat := 128
  const MARKER: nat := 0xFFFF_FFFD
  const SKIP_INTERVAL: nat := 0x7FFF_FFFF

  /** A term as the writer records it: field number, text, document frequency and pointers. */
  datatype Rec = Rec(fieldNum: nat, text: string, info: TermInfo) {
    function ToEntry(names: seq<string>): Entry {
      Entry(FieldName(names, fieldNum), text, info)
    }
  }

  // ----- one entry -----

  function Common(a: string, b: string): (n: nat)
    ensures n <= |a| && n <= |b| && a[..n] == b[..n]
    ensures n < |a| && n < |b| ==> a[n] != b[n]
  {
    if a == [] || b == [] || a[0] != b[0] then 0 else 1 + Common(a[1..], b[1..])
  }

  /** The shared prefix in characters and in bytes: as many bytes as its characters take in UTF-8. */
  method CommonPrefix(a: string, b: string) returns (chars: nat, bytes: nat)
    ensures chars == Common(a, b) && bytes == |Utf8Order.Utf8(a[..chars])|
  {
    chars, bytes := 0, 0;
    while chars < |a| && chars < |b| && a[chars] == b[chars]
      invariant chars <= |a| && chars <= |b|
      invariant Common(a, b) == chars + Common(a[chars..], b[chars..])
      invariant bytes == |Utf8Order.Utf8(a[..chars])|
    {
      assert a[chars..][1..] == a[chars + 1..] && b[chars..][1..] == b[chars + 1..];
      OneCharMore(a, chars);
      bytes := bytes + |Utf8Order.CharUtf8(a[chars])|;
      chars := chars + 1;
    }
  }

  lemma {:induction false} OneCharMore(a: string, n: nat)
    requires n < |a|
    ensures |Utf8Order.Utf8(a[..n + 1])| == |Utf8Order.Utf8(a[..n])| + |Utf8Order.CharUtf8(a[n])|
  {
    assert a[..n + 1] == a[..n] + [a[n]];
    Utf8Order.Utf8Append(a[..n], [a[n]]);
    assert [a[n]][1..] == [];
  }

  /** Cutting a text at the byte count of a shared prefix cuts off the prefix's characters. */
  lemma {:induction false} ByteCut(a: string, b: string)
    ensures var n := Common(a, b);
            var bytes := |Utf8Order.Utf8(a[..n])|;
            bytes <= |Utf8Order.Utf8(b)| && Utf8Order.Utf8(b)[bytes..] == Utf8Order.Utf8(b[n..])
  {
    hide Utf8Order.Utf8;
    var n := Common(a, b);
    Utf8Order.Utf8Append(b[..n], b[n..]);
    assert b[..n] + b[n..] == b;
  }

  /** Characters shared with the previous term: only within one field. */
  function SharedChars(prev: Option<Rec>, r: Rec): (n: nat)
    ensures n <= |r.text|
  {
    if prev.Some? && prev.value.fieldNum == r.fieldNum then Common(prev.value.text, r.text) else 0
  }

  /** Pointers never go back from one term to the next. */
  predicate Follows(prev: Option<Rec>, r: Rec) {
    prev.Some? ==>
      prev.value.info.freqPointer <= r.info.freqPointer && prev.value.info.proxPointer <= r.info.proxPointer
  }

  function Base(prev: Option<Rec>): TermInfo {
    if prev.Some? then prev.value.info else TermInfo(0, 0, 0)
  }

  function EntryBytes(prev: Option<Rec>, r: Rec): (s: seq<Byte>)
    requires Follows(prev, r)
  {
    var shared := SharedChars(prev, r);
    VInt(shared) + (StringBytes(r.text[shared..]) + (VInt(r.fieldNum) + (VInt(r.info.docFreq)
    + (VInt(r.info.freqPointer - Base(prev).freqPointer) + VInt(r.info.proxPointer - Base(prev).proxPointer)))))
  }

  method DumpEntry(out: Buffer, prev: Option<Rec>, r: Rec)
    requires Follows(prev, r)
    modifies out
    ensures out.bytes == old(out.bytes) + EntryBytes(prev, r)
  {
    hide VInt, StringBytes, Utf8Order.Utf8;
    var prefixChars, prefixBytes := 0, 0;
    if prev.Some? && prev.value.fieldNum == r.fieldNum {
      prefixChars, prefixBytes := CommonPrefix(prev.value.text, r.text);
      ByteCut(prev.value.text, r.text);
      assert Utf8Order.Utf8(r.text)[prefixBytes..] == Utf8Order.Utf8(r.text[prefixChars..]);
    }
    WriteVInt(out, prefixChars);
    WriteModifiedUtf8(out, r.text[prefixChars..]);
    WriteVInt(out, r.fieldNum);
    WriteVInt(out, r.info.docFreq);
    ghost var freqDelta, proxDelta := r.info.freqPointer - Base(prev).freqPointer, r.info.proxPointer - Base(prev).proxPointer;
    if prev.Some? {
      WriteVInt(out, r.info.freqPointer - prev.value.info.freqPointer);
      WriteVInt(out, r.info.proxPointer - prev.value.info.proxPointer);
    } else {
      WriteVInt(out, r.info.freqPointer);
      WriteVInt(out, r.info.proxPointer);
    }
    Flatten6(old(out.bytes), VInt(prefixChars), StringBytes(r.text[prefixChars..]), VInt(r.fieldNum),
             VInt(r.info.docFreq), VInt(freqDelta), VInt(proxDelta));
  }

  lemma {:induction false} Flatten6(o: seq<Byte>, a: seq<Byte>, b: seq<Byte>, c: seq<Byte>, d: seq<Byte>, e: seq<Byte>, f: seq<Byte>)
    ensures o + (a + (b + (c + (d + (e + f))))) == o + a + b + c + d + e + f
  {
    assert o + (a + (b + (c + (d + (e + f))))) == (o + a) + (b + (c + (d + (e + f))));
    assert (o + a) + (b + (c + (d + (e + f)))) == (o + a + b) + (c + (d + (e + f)));
    assert (o + a + b) + (c + (d + (e + f))) == (o + a + b + c) + (d + (e + f));
    assert (o + a + b + c) + (d + (e + f)) == (o + a + b + c + d) + (e + f);
  }

  /** The reader's integer widths. */
  predicate Fits(r: Rec) {
    r.fieldNum < U64 && |r.text| < U64 && r.info.docFreq < U32 && r.info.freqPointer < U64 && r.info.proxPointer < U64
  }

  /** The state that reading `prev` leaves behind. */
  function StatePast(prev: Option<Rec>, pos: nat): State {
    State(pos, if prev.Some? then prev.value.text else "", Base(prev).freqPointer, Base(prev).proxPointer)
  }

  lemma {:induction false} AtSplit6(data: seq<Byte>, pos: nat, a: seq<Byte>, b: seq<Byte>, c: seq<Byte>, d: seq<Byte>, e: seq<Byte>, f: seq<Byte>)
    requires At(data, pos, a + (b + (c + (d + (e + f)))))
    ensures At(data, pos, a) && At(data, pos + |a|, b) && At(data, pos + |a| + |b|, c)
    ensures At(data, pos + |a| + |b| + |c|, d) && At(data, pos + |a| + |b| + |c| + |d|, e)
    ensures At(data, pos + |a| + |b| + |c| + |d| + |e|, f)
  {
    hide At;
    AtSplit(data, pos, a, b + (c + (d + (e + f))));
    AtSplit(data, pos + |a|, b, c + (d + (e + f)));
    AtSplit(data, pos + |a| + |b|, c, d + (e + f));
    AtSplit(data, pos + |a| + |b| + |c|, d, e + f);
    AtSplit(data, pos + |a| + |b| + |c| + |d|, e, f);
  }

  /** Reading where an entry was written gives the term back. */
  lemma {:induction false} EntryRoundTrip(data: seq<Byte>, pos: nat, prev: Option<Rec>, r: Rec, names: seq<string>)
    requires Follows(prev, r) && Fits(r) && At(data, pos, EntryBytes(prev, r))
    ensures EntryAt(data, StatePast(prev, pos), names)
         == Success(Parsed(r.ToEntry(names), pos + |EntryBytes(prev, r)|))
  {
    hide At, VInt, VIntAt, StringBytes, StringAt, Common;
    var shared := SharedChars(prev, r);
    var freqDelta, proxDelta := r.info.freqPointer - Base(prev).freqPointer, r.info.proxPointer - Base(prev).proxPointer;
    var a, b, c, d := VInt(shared), StringBytes(r.text[shared..]), VInt(r.fieldNum), VInt(r.info.docFreq);
    var e, f := VInt(freqDelta), VInt(proxDelta);
    var p1 := pos + |a|;
    var p2 := p1 + |b|;
    var p3 := p2 + |c|;
    var p4 := p3 + |d|;
    var p5 := p4 + |e|;
    AtSplit6(data, pos, a, b, c, d, e, f);
    assert VIntAt(data, pos) == Success(Parsed(shared, p1)) by {
      VIntRoundTrip(data, pos, shared);
    }
    assert StringAt(data, p1) == Success(Parsed(r.text[shared..], p2)) by {
      StringRoundTrip(data, p1, r.text[shared..]);
    }
    assert VIntAt(data, p2) == Success(Parsed(r.fieldNum, p3)) by {
      VIntRoundTrip(data, p2, r.fieldNum);
    }
    assert VIntAt(data, p3) == Success(Parsed(r.info.docFreq, p4)) by {
      VIntRoundTrip(data, p3, r.info.docFreq);
    }
    assert VIntAt(data, p4) == Success(Parsed(freqDelta, p5)) by {
      VIntRoundTrip(data, p4, freqDelta);
    }
    assert VIntAt(data, p5) == Success(Parsed(proxDelta, p5 + |f|)) by {
      VIntRoundTrip(data, p5, proxDelta);
    }
    assert TakeChars(StatePast(prev, pos).text, shared) + r.text[shared..] == r.text by {
      assert TakeChars(StatePast(prev, pos).text, shared) == r.text[..shared];
      assert r.text[..shared] + r.text[shared..] == r.text;
    }
  }

  // ----- whole files -----

  function PrevOf(recs: seq<Rec>, k: nat): Option<Rec>
    requires k <= |recs|
  {
    if k == 0 then None else Some(recs[k - 1])
  }

  /** What the writer keeps of the terms added so far: widths fit and pointers only grow. */
  predicate Ordered(recs: seq<Rec>) {
    && (forall i | 0 <= i < |recs| :: Fits(recs[i]))
    && (forall i, j | 0 <= i < j < |recs| :: Follows(Some(recs[i]), recs[j]))
  }

  /** The first `k` entries of `.tis`. */
  function TisBytes(recs: seq<Rec>, k: nat): seq<Byte>
    requires k <= |recs| && Ordered(recs)
  {
    if k == 0 then [] else TisBytes(recs, k - 1) + EntryBytes(PrevOf(recs, k - 1), recs[k - 1])
  }

  function Offset(recs: seq<Rec>, k: nat): nat
    requires k <= |recs| && Ordered(recs)
  {
    HEADER + |TisBytes(recs, k)|
  }

  lemma {:induction false} TisGrows(recs: seq<Rec>, j: nat, k: nat)
    requires j <= k <= |recs| && Ordered(recs)
    ensures TisBytes(recs, j) <= TisBytes(recs, k) && Offset(recs, j) <= Offset(recs, k)
    decreases k
  {
    hide EntryBytes;
    if j < k {
      TisGrows(recs, j, k - 1);
    }
  }

  /** The sample before the `m`-th: samples are delta-coded against each other. */
  function SamplePrev(recs: seq<Rec>, m: nat): Option<Rec>
    requires 0 < m && INTERVAL * m <= |recs|
  {
    if m == 1 then None else Some(recs[INTERVAL * (m - 1) - 1])
  }

  function SampleBytes(recs: seq<Rec>, m: nat): seq<Byte>
    requires 0 < m && INTERVAL * m <= |recs| && Ordered(recs)
  {
    TisGrows(recs, INTERVAL * (m - 1), INTERVAL * m);
    EntryBytes(SamplePrev(recs, m), recs[INTERVAL * m - 1])
    + VInt(Offset(recs, INTERVAL * m) - Offset(recs, INTERVAL * (m - 1)))
  }

  /** The first `m` samples of `.tii`. */
  function TiiBytes(recs: seq<Rec>, m: nat): seq<Byte>
    requires INTERVAL * m <= |recs| && Ordered(recs)
  {
    if m == 0 then [] else TiiBytes(recs, m - 1) + SampleBytes(recs, m)
  }

  lemma {:induction false} TiiGrows(recs: seq<Rec>, j: nat, m: nat)
    requires j <= m && INTERVAL * m <= |recs| && Ordered(recs)
    ensures TiiBytes(recs, j) <= TiiBytes(recs, m)
    decreases m
  {
    hide SampleBytes;
    if j < m {
      TiiGrows(recs, j, m - 1);
    }
  }

  function Header(count: nat): (s: seq<Byte>)
    ensures |s| == HEADER
  {
    BigEndian(MARKER, 4) + BigEndian(count, 8) + BigEndian(INTERVAL, 4) + BigEndian(SKIP_INTERVAL, 4) + BigEndian(0, 4)
  }

  /** The hand-written first entry: no text, raw field 0xFFFFFFFF, a literal byte, index delta 24. */
  const SYNTHETIC: seq<Byte> := [0, 0, 0xFF, 0xFF, 0xFF, 0xFF, 0x0F, 0, 0, 0, 24]

  function TisFile(recs: seq<Rec>): seq<Byte>
    requires Ordered(recs)
  {
    Header(|recs|) + TisBytes(recs, |recs|)
  }

  function TiiFile(recs: seq<Rec>): seq<Byte>
    requires Ordered(recs)
  {
    Header(|recs| / INTERVAL + 1) + SYNTHETIC + TiiBytes(recs, |recs| / INTERVAL)
  }

  function Entries(recs: seq<Rec>, names: seq<string>): (es: seq<Entry>)
    ensures |es| == |recs| && forall i | 0 <= i < |recs| :: es[i] == recs[i].ToEntry(names)
  {
    seq(|recs|, i requires 0 <= i < |recs| => recs[i].ToEntry(names))
  }

  // ----- the files read back -----

  /** `z` lies behind `y` in any extension of `y + z` that starts after `head`. */
  lemma {:induction false} Lies(head: seq<Byte>, body: seq<Byte>, y: seq<Byte>, z: seq<Byte>)
    requires y + z <= body
    ensures At(head + body, |head| + |y|, z)
  {
    var data := head + body;
    assert data[|head| + |y|..|head| + |y| + |z|] == body[|y|..|y| + |z|] == (y + z)[|y|..|y| + |z|] == z;
  }

  lemma {:induction false} EntryDecodes(recs: seq<Rec>, k: nat, names: seq<string>)
    requires Ordered(recs) && k < |recs|
    ensures EntryAt(TisFile(recs), StatePast(PrevOf(recs, k), Offset(recs, k)), names)
         == Success(Parsed(recs[k].ToEntry(names), Offset(recs, k + 1)))
    ensures Offset(recs, k) < |TisFile(recs)|
  {
    hide EntryAt, EntryBytes, Header, At;
    TisGrows(recs, k + 1, |recs|);
    Lies(Header(|recs|), TisBytes(recs, |recs|), TisBytes(recs, k), EntryBytes(PrevOf(recs, k), recs[k]));
    EntryRoundTrip(TisFile(recs), Offset(recs, k), PrevOf(recs, k), recs[k], names);
  }

  /** Decoding `.tis` from any term boundary gives the terms from there on. */
  lemma {:induction false} TisDecodes(recs: seq<Rec>, k: nat, names: seq<string>)
    requires Ordered(recs) && k <= |recs|
    ensures DecodeFrom(TisFile(recs), StatePast(PrevOf(recs, k), Offset(recs, k)), names) == Entries(recs, names)[k..]
    decreases |recs| - k
  {
    hide EntryAt, TisBytes, Header, Ordered;
    if k < |recs| {
      EntryDecodes(recs, k, names);
      TisDecodes(recs, k + 1, names);
      assert StateOf(recs[k].ToEntry(names), Offset(recs, k + 1)) == StatePast(PrevOf(recs, k + 1), Offset(recs, k + 1));
      assert Entries(recs, names)[k..] == [Entries(recs, names)[k]] + Entries(recs, names)[k + 1..];
    }
  }

  lemma {:induction false} StateReached(recs: seq<Rec>, j: nat, k: nat, names: seq<string>)
    requires Ordered(recs) && j + k <= |recs|
    requires k <= |DecodeFrom(TisFile(recs), StatePast(PrevOf(recs, j), Offset(recs, j)), names)|
    ensures StateAfter(TisFile(recs), StatePast(PrevOf(recs, j), Offset(recs, j)), names, k)
         == StatePast(PrevOf(recs, j + k), Offset(recs, j + k))
    decreases k
  {
    hide EntryAt, TisBytes, Header, Ordered;
    if k > 0 {
      EntryDecodes(recs, j, names);
      assert StateOf(recs[j].ToEntry(names), Offset(recs, j + 1)) == StatePast(PrevOf(recs, j + 1), Offset(recs, j + 1));
      StateReached(recs, j + 1, k - 1, names);
    }
  }

  function SampleOf(recs: seq<Rec>, m: nat, names: seq<string>): IndexEntry
    requires 0 < m && INTERVAL * m <= |recs| && Ordered(recs)
  {
    IndexEntry(recs[INTERVAL * m - 1].ToEntry(names), Offset(recs, INTERVAL * m))
  }

  /** The samples from the `m`-th on, `m` counting from zero. */
  function SamplesOf(recs: seq<Rec>, m: nat, names: seq<string>): (s: seq<IndexEntry>)
    requires m <= |recs| / INTERVAL && Ordered(recs)
    ensures |s| == |recs| / INTERVAL - m
    ensures forall i | 0 <= i < |s| :: s[i] == SampleOf(recs, m + i + 1, names)
  {
    seq(|recs| / INTERVAL - m, i requires 0 <= i < |recs| / INTERVAL - m => SampleOf(recs, m + i + 1, names))
  }

  /** The state that reading `m` samples leaves behind. */
  function SampleState(recs: seq<Rec>, m: nat): State
    requires INTERVAL * m <= |recs| && Ordered(recs)
  {
    StatePast(if m == 0 then None else Some(recs[INTERVAL * m - 1]), HEADER + |SYNTHETIC| + |TiiBytes(recs, m)|)
  }

  lemma {:induction false} SampleDecodes(recs: seq<Rec>, m: nat, names: seq<string>)
    requires Ordered(recs) && m < |recs| / INTERVAL && |TisFile(recs)| < U64
    ensures SampleAt(TiiFile(recs), SampleState(recs, m), Offset(recs, INTERVAL * m), names)
         == Success(Parsed(SampleOf(recs, m + 1, names), SampleState(recs, m + 1).pos))
    ensures SampleState(recs, m).pos < |TiiFile(recs)|
  {
    hide EntryAt, EntryBytes, Header, At, VInt, VIntAt, TisBytes, Ordered;
    var n, tii, pos := INTERVAL * (m + 1), TiiFile(recs), SampleState(recs, m).pos;
    var prev, r := SamplePrev(recs, m + 1), recs[n - 1];
    SampleLies(recs, m);
    var delta := Offset(recs, n) - Offset(recs, INTERVAL * m);
    var next := pos + |EntryBytes(prev, r)|;
    assert EntryAt(tii, StatePast(prev, pos), names) == Success(Parsed(r.ToEntry(names), next)) by {
      EntryRoundTrip(tii, pos, prev, r, names);
    }
    assert VIntAt(tii, next) == Success(Parsed(delta, next + |VInt(delta)|)) by {
      VIntRoundTrip(tii, next, delta);
    }
  }

  lemma {:induction false} SampleLies(recs: seq<Rec>, m: nat)
    requires Ordered(recs) && m < |recs| / INTERVAL
    ensures var n, pos := INTERVAL * (m + 1), SampleState(recs, m).pos;
            var prev, r := SamplePrev(recs, m + 1), recs[n - 1];
            && Follows(prev, r) && Fits(r)
            && Offset(recs, INTERVAL * m) <= Offset(recs, n) <= |TisFile(recs)|
            && At(TiiFile(recs), pos, EntryBytes(prev, r))
            && At(TiiFile(recs), pos + |EntryBytes(prev, r)|, VInt(Offset(recs, n) - Offset(recs, INTERVAL * m)))
            && SampleState(recs, m + 1).pos == pos + |EntryBytes(prev, r)| + |VInt(Offset(recs, n) - Offset(recs, INTERVAL * m))|
  {
    hide EntryBytes, Header, At, VInt, TisBytes;
    var n, head := INTERVAL * (m + 1), Header(|recs| / INTERVAL + 1) + SYNTHETIC;
    TisGrows(recs, INTERVAL * m, n);
    TisGrows(recs, n, |recs|);
    TiiGrows(recs, m + 1, |recs| / INTERVAL);
    var a, b := EntryBytes(SamplePrev(recs, m + 1), recs[n - 1]), VInt(Offset(recs, n) - Offset(recs, INTERVAL * m));
    Lies(head, TiiBytes(recs, |recs| / INTERVAL), TiiBytes(recs, m), a + b);
    AtSplit(TiiFile(recs), SampleState(recs, m).pos, a, b);
  }

  lemma {:induction false} TiiDecodes(recs: seq<Rec>, m: nat, names: seq<string>)
    requires Ordered(recs) && m <= |recs| / INTERVAL && |TisFile(recs)| < U64
    ensures SamplesFrom(TiiFile(recs), SampleState(recs, m), Offset(recs, INTERVAL * m), names) == Success(SamplesOf(recs, m, names))
    decreases |recs| / INTERVAL - m
  {
    hide SampleAt, TisBytes, TiiBytes, Header, Ordered;
    if m < |recs| / INTERVAL {
      SampleDecodes(recs, m, names);
      TiiDecodes(recs, m + 1, names);
      assert [SampleOf(recs, m + 1, names)] + SamplesOf(recs, m + 1, names) == SamplesOf(recs, m, names);
    }
  }

  lemma {:induction false} OneByte(data: seq<Byte>, pos: nat, b: Byte)
    requires At(data, pos, [b]) && b < 128
    ensures VIntAt(data, pos) == Success(Parsed(b, pos + 1))
  {
    AtIndex(data, pos, [b], 0);
  }

  lemma {:induction false} SyntheticVInt(tii: seq<Byte>, i: nat)
    requires At(tii, HEADER, SYNTHETIC) && i < 11 && SYNTHETIC[i] < 128
    ensures VIntAt(tii, HEADER + i) == Success(Parsed(SYNTHETIC[i], HEADER + i + 1))
  {
    assert SYNTHETIC == SYNTHETIC[..i] + ([SYNTHETIC[i]] + SYNTHETIC[i + 1..]);
    AtSplit(tii, HEADER, SYNTHETIC[..i], [SYNTHETIC[i]] + SYNTHETIC[i + 1..]);
    AtSplit(tii, HEADER + i, [SYNTHETIC[i]], SYNTHETIC[i + 1..]);
    OneByte(tii, HEADER + i, SYNTHETIC[i]);
  }

  lemma {:induction false} SyntheticDecodes(tii: seq<Byte>)
    requires At(tii, HEADER, SYNTHETIC)
    ensures SyntheticAt(tii, HEADER) == Success(HEADER + |SYNTHETIC|)
  {
    hide VIntAt;
    SyntheticVInt(tii, 0);
    SyntheticVInt(tii, 1);
    assert CharsAt(tii, 26, 0) == Success(Parsed("", 26));
    SyntheticVInt(tii, 7);
    SyntheticVInt(tii, 8);
    SyntheticVInt(tii, 9);
    SyntheticVInt(tii, 10);
  }

  /** Where the samples lie among the terms: after every `INTERVAL` of them. */
  function SamplePositions(n: nat): (ks: seq<nat>)
    ensures |ks| == n + 1 && forall i | 0 <= i <= n :: ks[i] == INTERVAL * i
  {
    seq(n + 1, i requires 0 <= i <= n => INTERVAL * i)
  }

  /** What the writer leaves opens to a dictionary that samples its terms and decodes to them. */
  lemma {:induction false} DictRoundTrip(recs: seq<Rec>, names: seq<string>)
    requires Ordered(recs) && |TisFile(recs)| < U64
    ensures var d := Dict(TisFile(recs), [ANCHOR] + SamplesOf(recs, 0, names), names);
            && Opened(TisFile(recs), TiiFile(recs), names) == Success(d)
            && d.All() == Entries(recs, names)
            && (WellFormed(Entries(recs, names)) ==> d.Valid())
  {
    hide SyntheticAt, SamplesFrom, HeaderAt, Header, TisBytes, TiiBytes, DecodeFrom, Ordered, StateAfter;
    var tis, tii := TisFile(recs), TiiFile(recs);
    var d := Dict(tis, [ANCHOR] + SamplesOf(recs, 0, names), names);
    HeaderDecodes(tii);
    Lies(Header(|recs| / INTERVAL + 1), SYNTHETIC + TiiBytes(recs, |recs| / INTERVAL), [], SYNTHETIC);
    assert [] + SYNTHETIC == SYNTHETIC;
    assert tii == Header(|recs| / INTERVAL + 1) + (SYNTHETIC + TiiBytes(recs, |recs| / INTERVAL));
    SyntheticDecodes(tii);
    NoBytes(recs);
    TiiDecodes(recs, 0, names);
    TisDecodes(recs, 0, names);
    assert Entries(recs, names)[0..] == Entries(recs, names);
    var ks := SamplePositions(|recs| / INTERVAL);
    forall j | 0 < j < |ks| ensures d.index[j].entry == d.All()[ks[j] - 1] && d.index[j].tisOffset == StateAfter(tis, START, names, ks[j]).pos {
      assert d.index[j] == SamplesOf(recs, 0, names)[j - 1] == SampleOf(recs, j, names);
      StateReached(recs, 0, ks[j], names);
    }
    assert d.Samples(ks);
  }

  lemma {:induction false} HeaderDecodes(data: seq<Byte>)
    requires |data| >= HEADER
    ensures HeaderAt(data).Success? && HeaderAt(data).value.next == HEADER
  {
  }

  lemma {:induction false} NoBytes(recs: seq<Rec>)
    requires Ordered(recs)
    ensures TisBytes(recs, 0) == [] && TiiBytes(recs, 0) == []
  {
  }

  // ----- the writer -----

  datatype Term = Term(fieldNum: nat, text: string, docs: seq<Posting>)

  predicate Encodables(terms: seq<Term>) {
    forall i | 0 <= i < |terms| :: Encodable(0, terms[i].docs)
  }

  function FrqFile(terms: seq<Term>, k: nat): seq<Byte>
    requires k <= |terms| && Encodables(terms)
  {
    if k == 0 then [] else FrqFile(terms, k - 1) + FrqBytes(0, terms[k - 1].docs)
  }

  function PrxFile(terms: seq<Term>, k: nat): seq<Byte>
    requires k <= |terms| && Encodables(terms)
  {
    if k == 0 then [] else PrxFile(terms, k - 1) + PrxBytes(0, terms[k - 1].docs)
  }

  /** The dictionary's record of the `k`-th term: its postings start where the earlier terms' end. */
  function RecOf(terms: seq<Term>, k: nat): Rec
    requires k < |terms| && Encodables(terms)
  {
    Rec(terms[k].fieldNum, terms[k].text, TermInfo(|terms[k].docs|, |FrqFile(terms, k)|, |PrxFile(terms, k)|))
  }

  function Recs(terms: seq<Term>): (recs: seq<Rec>)
    requires Encodables(terms)
    ensures |recs| == |terms| && forall i | 0 <= i < |terms| :: recs[i] == RecOf(terms, i)
  {
    seq(|terms|, i requires 0 <= i < |terms| => RecOf(terms, i))
  }

  /** Terms within the format's integer widths. */
  predicate Writable(terms: seq<Term>) {
    && Encodables(terms) && |FrqFile(terms, |terms|)| < U64 && |PrxFile(terms, |terms|)| < U64
    && forall i | 0 <= i < |terms| :: terms[i].fieldNum < U64 && |terms[i].text| < U64 && |terms[i].docs| < U32
  }

  lemma {:induction false} PostingsGrow(terms: seq<Term>, j: nat, k: nat)
    requires Encodables(terms) && j <= k <= |terms|
    ensures FrqFile(terms, j) <= FrqFile(terms, k) && PrxFile(terms, j) <= PrxFile(terms, k)
    decreases k
  {
    hide FrqBytes, PrxBytes, Encodable;
    if j < k {
      PostingsGrow(terms, j, k - 1);
    }
  }

  lemma {:induction false} WritableOrdered(terms: seq<Term>)
    requires Writable(terms)
    ensures Ordered(Recs(terms))
  {
    hide FrqFile, PrxFile, Encodable;
    forall i | 0 <= i < |terms| ensures Fits(Recs(terms)[i]) {
      PostingsGrow(terms, i, |terms|);
    }
    forall i, j | 0 <= i < j < |terms| ensures Follows(Some(Recs(terms)[i]), Recs(terms)[j]) {
      PostingsGrow(terms, i, j);
    }
  }

  /** The postings files hold `terms`, then the postings `docs` of an unfinished term. */
  predicate HoldPostings(frq: seq<Byte>, prx: seq<Byte>, terms: seq<Term>, docs: seq<Posting>)
    requires Encodables(terms) && Encodable(0, docs)
  {
    frq == FrqFile(terms, |terms|) + FrqBytes(0, docs) && prx == PrxFile(terms, |terms|) + PrxBytes(0, docs)
  }

  // Adding a term changes nothing of what the earlier ones put into the files.

  lemma {:induction false} PostingsStable(terms: seq<Term>, t: Term, k: nat)
    requires Encodables(terms) && Encodables(terms + [t]) && k <= |terms|
    ensures FrqFile(terms + [t], k) == FrqFile(terms, k) && PrxFile(terms + [t], k) == PrxFile(terms, k)
    decreases k
  {
    hide FrqBytes, PrxBytes, Encodable;
    if k > 0 {
      PostingsStable(terms, t, k - 1);
    }
  }

  lemma {:induction false} RecsGrow(terms: seq<Term>, t: Term)
    requires Encodables(terms) && Encodables(terms + [t])
    ensures Recs(terms + [t])
         == Recs(terms) + [Rec(t.fieldNum, t.text, TermInfo(|t.docs|, |FrqFile(terms, |terms|)|, |PrxFile(terms, |terms|)|))]
  {
    hide FrqFile, PrxFile, Encodable;
    forall k | 0 <= k <= |terms|
      ensures FrqFile(terms + [t], k) == FrqFile(terms, k) && PrxFile(terms + [t], k) == PrxFile(terms, k)
    {
      PostingsStable(terms, t, k);
    }
  }

  lemma {:induction false} TisStable(recs: seq<Rec>, r: Rec, k: nat)
    requires Ordered(recs) && Ordered(recs + [r]) && k <= |recs|
    ensures TisBytes(recs + [r], k) == TisBytes(recs, k)
    decreases k
  {
    hide EntryBytes;
    if k > 0 {
      TisStable(recs, r, k - 1);
    }
  }

  lemma {:induction false} TiiStable(recs: seq<Rec>, r: Rec, m: nat)
    requires Ordered(recs) && Ordered(recs + [r]) && INTERVAL * m <= |recs|
    ensures TiiBytes(recs + [r], m) == TiiBytes(recs, m)
    decreases m
  {
    hide EntryBytes, TisBytes, VInt;
    if m > 0 {
      TiiStable(recs, r, m - 1);
      TisStable(recs, r, INTERVAL * m);
      TisStable(recs, r, INTERVAL * (m - 1));
    }
  }

  lemma {:induction false} OrderedPrefix(recs: seq<Rec>, r: Rec)
    requires Ordered(recs + [r])
    ensures Ordered(recs) && Follows(PrevOf(recs, |recs|), r) && Fits(r)
    ensures forall i | 0 <= i < |recs| :: Follows(Some(recs[i]), r)
  {
    hide Follows, Fits;
    var all := recs + [r];
    forall i | 0 <= i < |recs| ensures Fits(recs[i]) && Follows(Some(recs[i]), r) {
      assert all[i] == recs[i] && all[|recs|] == r;
    }
    forall i, j | 0 <= i < j < |recs| ensures Follows(Some(recs[i]), recs[j]) {
      assert all[i] == recs[i] && all[j] == recs[j];
    }
    assert Follows(None, r) by {
      NothingBefore(r);
    }
    assert Fits(all[|recs|]);
  }

  lemma {:induction false} NothingBefore(r: Rec)
    ensures Follows(None, r)
  {
  }

  lemma {:induction false} HeaderPatched(a: nat, b: nat)
    ensures Header(a)[..4] + BigEndian(b, 8) + Header(a)[12..] == Header(b)
  {
    hide BigEndian;
  }

  class TermDictStreamWriter {
    var tis: seq<Byte>
    var tii: seq<Byte>
    var frq: seq<Byte>
    var prx: seq<Byte>
    var tisLen: nat
    var frqLen: nat
    var prxLen: nat
    var prev: Option<Rec>
    var idxPrev: Option<Rec>
    var lastIndexPosition: nat
    var termCount: nat

    // the term being streamed
    var curField: nat
    var curText: string
    var curFreqPtr: nat
    var curProxPtr: nat
    var curDocFreq: nat
    var curPrevDoc: nat

    /** The terms added so far, whether a term is open, and the open term's postings. */
    ghost var terms: seq<Term>
    ghost var open: bool
    ghost var curDocs: seq<Posting>

    /** The dictionary files hold exactly `recs`. */
    ghost predicate HoldsDict(recs: seq<Rec>)
      reads this`tis, this`tii, this`tisLen, this`prev, this`idxPrev, this`lastIndexPosition, this`termCount
    {
      var m := |recs| / INTERVAL;
      && Ordered(recs)
      && tis == Header(0) + TisBytes(recs, |recs|) && tisLen == |tis|
      && tii == Header(0) + SYNTHETIC + TiiBytes(recs, m)
      && prev == PrevOf(recs, |recs|) && termCount == |recs|
      && idxPrev == LastSample(recs)
      && lastIndexPosition == Offset(recs, INTERVAL * m)
    }

    /** All four files are what `terms` (and the postings of the open term) determine: the two ways
        of adding a term cannot leave different bytes. */
    ghost predicate Valid()
      reads this
    {
      && Encodables(terms) && HoldsDict(Recs(terms))
      && Encodable(0, curDocs) && HoldPostings(frq, prx, terms, curDocs) && frqLen == |frq| && prxLen == |prx|
      && (open ==>
            && curFreqPtr == |FrqFile(terms, |terms|)| && curProxPtr == |PrxFile(terms, |terms|)|
            && curPrevDoc == LastDoc(0, curDocs))
      && (!open ==> curDocs == []) && curDocFreq == |curDocs|
    }

    constructor ()
      ensures Valid() && terms == [] && !open
    {
      tis, tii, frq, prx := Header(0), Header(0) + SYNTHETIC, [], [];
      tisLen, frqLen, prxLen := HEADER, 0, 0;
      prev, idxPrev := None, None;
      lastIndexPosition, termCount := HEADER, 0;
      curField, curText, curFreqPtr, curProxPtr, curDocFreq, curPrevDoc := 0, "", 0, 0, 0, 0;
      terms, open, curDocs := [], false, [];
    }

    /** The tail shared by both ways of adding a term: the entry, and a sample every `INTERVAL` terms. */
    method DumpTisEntry(r: Rec, ghost recs: seq<Rec>)
      requires HoldsDict(recs) && Ordered(recs + [r])
      modifies this`tis, this`tii, this`tisLen, this`prev, this`idxPrev, this`lastIndexPosition, this`termCount
      ensures HoldsDict(recs + [r])
    {
      hide EntryBytes, Header, TisBytes, TiiBytes, Ordered, Follows, VInt;
      DictStep(recs, r);
      var tisEntry := new Buffer();
      DumpEntry(tisEntry, prev, r);
      tis := tis + tisEntry.bytes;
      tisLen := tisLen + |tisEntry.bytes|;
      prev := Some(r);
      termCount := termCount + 1;
      if termCount % INTERVAL == 0 {
        var tiiEntry := new Buffer();
        DumpEntry(tiiEntry, idxPrev, r);
        var indexPosition := tisLen;
        WriteVInt(tiiEntry, indexPosition - lastIndexPosition);
        lastIndexPosition := indexPosition;
        tii := tii + tiiEntry.bytes;
        idxPrev := Some(r);
      }
    }

    /** Appends one whole term: its entry, then its postings, encoded apart and appended. */
    method AddTerm(t: Term)
      requires Valid() && !open && Writable(terms + [t])
      modifies this
      ensures Valid() && !open && terms == old(terms) + [t]
    {
      hide FrqBytes, PrxBytes, Encodable, FrqFile, PrxFile, HoldsDict, Ordered, Writable, Encodables, HoldPostings;
      NextTerm(terms, t);
      OneTermMore(frq, prx, terms, t);
      var frqBuf := new Buffer();
      var prxBuf := new Buffer();
      var fp, pp := WriteTermPostings(frqBuf, prxBuf, t.docs);
      assert frqBuf.bytes == FrqBytes(0, t.docs) && prxBuf.bytes == PrxBytes(0, t.docs);
      DumpTisEntry(Rec(t.fieldNum, t.text, TermInfo(|t.docs|, frqLen, prxLen)), Recs(terms));
      frq := frq + frqBuf.bytes;
      frqLen := frqLen + |frqBuf.bytes|;
      prx := prx + prxBuf.bytes;
      prxLen := prxLen + |prxBuf.bytes|;
      terms := terms + [t];
    }

    /** Starts a term to be streamed posting by posting: writes nothing yet. */
    method BeginTerm(fieldNum: nat, text: string)
      requires Valid() && !open
      modifies this`curField, this`curText, this`curFreqPtr, this`curProxPtr, this`curDocFreq, this`curPrevDoc, this`open
      ensures Valid() && open && curDocs == [] && curField == fieldNum && curText == text
    {
      hide FrqFile, PrxFile, HoldsDict, Encodable, HoldPostings, Encodables;
      NothingOpen(frq, prx, terms);
      curField, curText, curFreqPtr, curProxPtr := fieldNum, text, frqLen, prxLen;
      curDocFreq, curPrevDoc := 0, 0;
      open := true;
    }

    /** Appends one posting of the open term. */
    method AddPosting(docId: nat, positions: seq<nat>)
      requires Valid() && open && Encodable(0, curDocs + [Posting(docId, positions)])
      modifies this`frq, this`prx, this`frqLen, this`prxLen, this`curPrevDoc, this`curDocFreq, this`curDocs
      ensures Valid() && curDocs == old(curDocs) + [Posting(docId, positions)]
    {
      hide Encodable, FrqFile, PrxFile, DocBytes, PositionBytes, Ascending, HoldsDict, Encodables, HoldPostings;
      OnePostingMore(frq, prx, terms, curDocs, Posting(docId, positions));
      var frqScratch, prxScratch := EncodePosting(docId - curPrevDoc, positions);
      frq := frq + frqScratch;
      frqLen := frqLen + |frqScratch|;
      prx := prx + prxScratch;
      prxLen := prxLen + |prxScratch|;
      curPrevDoc := docId;
      curDocFreq := curDocFreq + 1;
      curDocs := curDocs + [Posting(docId, positions)];
    }

    /** Closes the open term. A term without postings leaves no trace. */
    method EndTerm()
      requires Valid() && open && (curDocs != [] ==> Writable(terms + [Term(curField, curText, curDocs)]))
      modifies this
      ensures Valid() && !open
      ensures terms == if old(curDocs) == [] then old(terms) else old(terms) + [Term(old(curField), old(curText), old(curDocs))]
    {
      hide FrqBytes, PrxBytes, Encodable, FrqFile, PrxFile, HoldsDict, Ordered, Writable, Encodables, HoldPostings, Recs, LastDoc;
      open := false;
      if curDocFreq == 0 {
        return;
      }
      ghost var t := Term(curField, curText, curDocs);
      NextTerm(terms, t);
      OneTermMore(frq, prx, terms, t);
      var docFreq := curDocFreq;
      curDocFreq := 0;
      DumpTisEntry(Rec(curField, curText, TermInfo(docFreq, curFreqPtr, curProxPtr)), Recs(terms));
      terms, curDocs := terms + [t], [];
      curText := "";
    }

    /** Back-patches the counts in the two headers. */
    method Finish() returns (files: DictFiles)
      requires Valid() && !open && Writable(terms)
      modifies this`tis, this`tii
      ensures files == Files(terms)
    {
      hide FrqBytes, PrxBytes, FrqFile, PrxFile, TisBytes, TiiBytes, Encodable, Header, Ordered, BigEndian;
      NoPostings();
      ghost var tisBody, tiiBody := TisBytes(Recs(terms), |terms|), SYNTHETIC + TiiBytes(Recs(terms), |terms| / INTERVAL);
      assert tis == Header(0) + tisBody && tii == Header(0) + tiiBody;
      PatchHeader(tisBody, termCount);
      tis := tis[..4] + BigEndian(termCount, 8) + tis[12..];
      var tiiCount := (termCount - termCount % INTERVAL) / INTERVAL + 1;
      assert tiiCount == |terms| / INTERVAL + 1;
      PatchHeader(tiiBody, tiiCount);
      tii := tii[..4] + BigEndian(tiiCount, 8) + tii[12..];
      return DictFiles(tis, tii, frq, prx);
    }
  }

  /** One posting's bytes in fresh scratch buffers. */
  method EncodePosting(delta: nat, positions: seq<nat>) returns (f: seq<Byte>, p: seq<Byte>)
    requires Ascending(0, positions)
    ensures f == DocBytes(delta, |positions|) && p == PositionBytes(0, positions)
  {
    var frqScratch := new Buffer();
    var prxScratch := new Buffer();
    WriteDoc(frqScratch, delta, |positions|);
    WritePositions(prxScratch, positions);
    return frqScratch.bytes, prxScratch.bytes;
  }

  function LastSample(recs: seq<Rec>): Option<Rec> {
    var m := |recs| / INTERVAL;
    if m == 0 then None else Some(recs[INTERVAL * m - 1])
  }

  lemma {:induction false} TisStep(recs: seq<Rec>, k: nat)
    requires Ordered(recs) && 0 < k <= |recs|
    ensures Follows(PrevOf(recs, k - 1), recs[k - 1])
    ensures TisBytes(recs, k) == TisBytes(recs, k - 1) + EntryBytes(PrevOf(recs, k - 1), recs[k - 1])
  {
  }

  lemma {:induction false} TiiStep(recs: seq<Rec>, m: nat)
    requires Ordered(recs) && 0 < m && INTERVAL * m <= |recs|
    ensures Follows(SamplePrev(recs, m), recs[INTERVAL * m - 1])
    ensures Offset(recs, INTERVAL * (m - 1)) <= Offset(recs, INTERVAL * m)
    ensures TiiBytes(recs, m) == TiiBytes(recs, m - 1) + (EntryBytes(SamplePrev(recs, m), recs[INTERVAL * m - 1])
                                 + VInt(Offset(recs, INTERVAL * m) - Offset(recs, INTERVAL * (m - 1))))
  {
    hide EntryBytes, VInt, TisBytes;
    TisGrows(recs, INTERVAL * (m - 1), INTERVAL * m);
  }

  /** What one more record adds to `.tis`, and to `.tii` when it completes an interval. */
  lemma {:induction false} DictStep(recs: seq<Rec>, r: Rec)
    requires Ordered(recs + [r])
    ensures Ordered(recs) && Follows(PrevOf(recs, |recs|), r) && Follows(LastSample(recs), r)
    ensures var all, m, entry := recs + [r], |recs| / INTERVAL, EntryBytes(PrevOf(recs, |recs|), r);
            && TisBytes(all, |all|) == TisBytes(recs, |recs|) + entry
            && Offset(all, INTERVAL * m) == Offset(recs, INTERVAL * m) <= Offset(all, |all|)
            && (|all| % INTERVAL == 0 ==>
                  && |all| / INTERVAL == m + 1 && INTERVAL * (m + 1) == |all|
                  && TiiBytes(all, m + 1) == TiiBytes(recs, m) + (EntryBytes(LastSample(recs), r)
                                             + VInt(Offset(all, |all|) - Offset(recs, INTERVAL * m))))
            && (|all| % INTERVAL != 0 ==>
                  |all| / INTERVAL == m && TiiBytes(all, m) == TiiBytes(recs, m) && LastSample(all) == LastSample(recs))
  {
    hide EntryBytes, VInt, Ordered, Follows, TisBytes, TiiBytes;
    var all, m := recs + [r], |recs| / INTERVAL;
    OrderedPrefix(recs, r);
    TisStep(all, |all|);
    NothingBefore(r);
    TisStable(recs, r, |recs|);
    TisStable(recs, r, INTERVAL * m);
    TiiStable(recs, r, m);
    assert PrevOf(all, |recs|) == PrevOf(recs, |recs|) && all[|recs|] == r;
    assert m > 0 ==> all[INTERVAL * m - 1] == recs[INTERVAL * m - 1];
    TisGrows(all, INTERVAL * m, |all|);
    if |all| % INTERVAL == 0 {
      assert INTERVAL * (m + 1) == |all|;
      assert SamplePrev(all, m + 1) == LastSample(recs);
      TiiStep(all, m + 1);
    }
  }

  /** What one more term adds to the records and to the postings files. */
  lemma {:induction false} NextTerm(terms: seq<Term>, t: Term)
    requires Writable(terms + [t])
    ensures Encodables(terms) && Encodables(terms + [t]) && Encodable(0, t.docs) && Ordered(Recs(terms + [t]))
    ensures Recs(terms + [t])
         == Recs(terms) + [Rec(t.fieldNum, t.text, TermInfo(|t.docs|, |FrqFile(terms, |terms|)|, |PrxFile(terms, |terms|)|))]
    ensures FrqFile(terms + [t], |terms + [t]|) == FrqFile(terms, |terms|) + FrqBytes(0, t.docs)
    ensures PrxFile(terms + [t], |terms + [t]|) == PrxFile(terms, |terms|) + PrxBytes(0, t.docs)
  {
    hide FrqBytes, PrxBytes, Encodable;
    assert (terms + [t])[|terms|] == t;
    assert forall i | 0 <= i < |terms| :: (terms + [t])[i] == terms[i];
    RecsGrow(terms, t);
    WritableOrdered(terms + [t]);
    PostingsStable(terms, t, |terms|);
  }

  lemma {:induction false} NothingOpen(frq: seq<Byte>, prx: seq<Byte>, terms: seq<Term>)
    requires Encodables(terms) && Encodable(0, []) && HoldPostings(frq, prx, terms, [])
    ensures frq == FrqFile(terms, |terms|) && prx == PrxFile(terms, |terms|)
  {
  }

  lemma {:induction false} OnePostingMore(frq: seq<Byte>, prx: seq<Byte>, terms: seq<Term>, docs: seq<Posting>, p: Posting)
    requires Encodables(terms) && Encodable(0, docs + [p]) && Encodable(0, docs) && HoldPostings(frq, prx, terms, docs)
    ensures LastDoc(0, docs) <= p.doc && Ascending(0, p.positions)
    ensures HoldPostings(frq + DocBytes(p.doc - LastDoc(0, docs), |p.positions|), prx + PositionBytes(0, p.positions), terms, docs + [p])
  {
    hide DocBytes, PositionBytes, FrqBytes, PrxBytes, FrqFile, PrxFile, Ascending, Encodable;
    LastPosting(0, docs, p);
    Append(FrqFile(terms, |terms|), FrqBytes(0, docs), DocBytes(p.doc - LastDoc(0, docs), |p.positions|));
    Append(PrxFile(terms, |terms|), PrxBytes(0, docs), PositionBytes(0, p.positions));
  }

  lemma {:induction false} OneTermMore(frq: seq<Byte>, prx: seq<Byte>, terms: seq<Term>, t: Term)
    requires Encodables(terms) && Encodables(terms + [t]) && Encodable(0, t.docs)
    requires FrqFile(terms + [t], |terms + [t]|) == FrqFile(terms, |terms|) + FrqBytes(0, t.docs)
    requires PrxFile(terms + [t], |terms + [t]|) == PrxFile(terms, |terms|) + PrxBytes(0, t.docs)
    ensures Encodable(0, [])
    ensures HoldPostings(frq, prx, terms, []) ==>
              && frq == FrqFile(terms, |terms|) && prx == PrxFile(terms, |terms|)
              && HoldPostings(frq + FrqBytes(0, t.docs), prx + PrxBytes(0, t.docs), terms + [t], [])
    ensures HoldPostings(frq, prx, terms, t.docs) ==> HoldPostings(frq, prx, terms + [t], [])
  {
    hide FrqFile, PrxFile, Encodables;
    NoPostings();
    hide FrqBytes, PrxBytes, Encodable;
  }

  lemma {:induction false} NoPostings()
    ensures Encodable(0, []) && FrqBytes(0, []) == [] && PrxBytes(0, []) == []
  {
  }

  function LastDoc(prev: nat, docs: seq<Posting>): nat {
    if docs == [] then prev else docs[|docs| - 1].doc
  }

  /** Encoding one more document only appends. */
  lemma {:induction false} LastPosting(prev: nat, docs: seq<Posting>, p: Posting)
    requires Encodable(prev, docs + [p])
    ensures Encodable(prev, docs) && Ascending(0, p.positions)
    ensures var last := LastDoc(prev, docs);
            && last <= p.doc
            && FrqBytes(prev, docs + [p]) == FrqBytes(prev, docs) + DocBytes(p.doc - last, |p.positions|)
            && PrxBytes(prev, docs + [p]) == PrxBytes(prev, docs) + PositionBytes(0, p.positions)
    decreases docs
  {
    hide FrqBytes, PrxBytes, DocBytes, PositionBytes, Ascending, Encodable;
    NoPostings();
    if docs == [] {
      assert docs + [p] == [p] + [];
      ConsPosting(prev, p, []);
      NoMoreDocs(p.doc, []);
      NoMoreDocs(prev, []);
    } else {
      var d, rest := docs[0], docs[1..];
      assert docs + [p] == [d] + (rest + [p]) && docs == [d] + rest;
      ConsPosting(prev, d, rest + [p]);
      LastPosting(d.doc, rest, p);
      ConsPosting(prev, d, rest);
    }
  }

  lemma {:induction false} ConsPosting(prev: nat, d: Posting, rest: seq<Posting>)
    ensures Encodable(prev, [d] + rest) <==>
            prev <= d.doc < U63 && 0 < |d.positions| < U32 && Ascending(0, d.positions) && Encodable(d.doc, rest)
    ensures Encodable(prev, [d] + rest) ==>
              && FrqBytes(prev, [d] + rest) == DocBytes(d.doc - prev, |d.positions|) + FrqBytes(d.doc, rest)
              && PrxBytes(prev, [d] + rest) == PositionBytes(0, d.positions) + PrxBytes(d.doc, rest)
  {
    hide DocBytes, PositionBytes, Ascending;
    assert ([d] + rest)[1..] == rest;
  }

  lemma {:induction false} PatchHeader(body: seq<Byte>, count: nat)
    ensures var file := Header(0) + body;
            file[..4] + BigEndian(count, 8) + file[12..] == Header(count) + body
  {
    hide Header, BigEndian;
    HeaderPatched(0, count);
    var file := Header(0) + body;
    assert file[..4] == Header(0)[..4] && file[12..] == Header(0)[12..] + body;
  }

  datatype DictFiles = DictFiles(tis: seq<Byte>, tii: seq<Byte>, frq: seq<Byte>, prx: seq<Byte>)

  function Files(terms: seq<Term>): DictFiles
    requires Writable(terms)
  {
    WritableOrdered(terms);
    DictFiles(TisFile(Recs(terms)), TiiFile(Recs(terms)), FrqFile(terms, |terms|), PrxFile(terms, |terms|))
  }

  method WriteTermDict(terms: seq<Term>) returns (files: DictFiles)
    requires Writable(terms)
    ensures files == Files(terms)
  {
    hide TermDictStreamWriter.Valid, Writable, Files;
    WritablePrefix(terms, 0);
    var writer := new TermDictStreamWriter();
    assert terms[..0] == [];
    for i := 0 to |terms|
      invariant writer.Valid() && !writer.open && writer.terms == terms[..i]
      invariant fresh(writer)
    {
      assert terms[..i + 1] == terms[..i] + [terms[i]];
      WritablePrefix(terms, i + 1);
      writer.AddTerm(terms[i]);
    }
    assert terms[..|terms|] == terms;
    files := writer.Finish();
  }

  lemma {:induction false} FilesOfPrefix(terms: seq<Term>, n: nat, k: nat)
    requires Encodables(terms) && k <= n <= |terms| && Encodables(terms[..n])
    ensures FrqFile(terms[..n], k) == FrqFile(terms, k) && PrxFile(terms[..n], k) == PrxFile(terms, k)
    decreases k
  {
    hide FrqBytes, PrxBytes, Encodable;
    if k > 0 {
      FilesOfPrefix(terms, n, k - 1);
    }
  }

  lemma {:induction false} WritablePrefix(terms: seq<Term>, n: nat)
    requires Writable(terms) && n <= |terms|
    ensures Writable(terms[..n])
  {
    hide FrqFile, PrxFile, Encodable;
    FilesOfPrefix(terms, n, n);
    PostingsGrow(terms, n, |terms|);
  }

  /** Every term written reads back: the dictionary opens, is valid for the lazy queries when the
      terms are in canonical order, decodes to the terms, and each term's pointers decode to its postings. */
  lemma {:induction false} FilesRoundTrip(terms: seq<Term>, names: seq<string>)
    requires Writable(terms) && |Files(terms).tis| < U64
    ensures var f, es := Files(terms), Entries(Recs(terms), names);
            var r := Opened(f.tis, f.tii, names);
            && r.Success? && r.value.All() == es && (WellFormed(es) ==> r.value.Valid())
            && forall i | 0 <= i < |terms| :: TermPostings(f.frq, f.prx, es[i].info) == Scan(terms[i].docs, None)
  {
    hide FrqFile, PrxFile, FrqBytes, PrxBytes, Encodable, TisFile, TiiFile, Opened;
    WritableOrdered(terms);
    DictRoundTrip(Recs(terms), names);
    var f := Files(terms);
    forall i | 0 <= i < |terms|
      ensures TermPostings(f.frq, f.prx, Entries(Recs(terms), names)[i].info) == Scan(terms[i].docs, None)
    {
      PostingsLie(terms, i);
      TermRoundTrip(f.frq, |FrqFile(terms, i)|, f.prx, |PrxFile(terms, i)|, 0, terms[i].docs);
    }
  }

  lemma {:induction false} PostingsLie(terms: seq<Term>, i: nat)
    requires Encodables(terms) && i < |terms|
    ensures At(FrqFile(terms, |terms|), |FrqFile(terms, i)|, FrqBytes(0, terms[i].docs))
    ensures At(PrxFile(terms, |terms|), |PrxFile(terms, i)|, PrxBytes(0, terms[i].docs))
  {
    hide FrqBytes, PrxBytes, Encodable, At;
    PostingsGrow(terms, i + 1, |terms|);
    Lies([], FrqFile(terms, |terms|), FrqFile(terms, i), FrqBytes(0, terms[i].docs));
    Lies([], PrxFile(terms, |terms|), PrxFile(terms, i), PrxBytes(0, terms[i].docs));
    assert [] + FrqFile(terms, |terms|) == FrqFile(terms, |terms|) && [] + PrxFile(terms, |terms|) == PrxFile(terms, |terms|);
  }
}
