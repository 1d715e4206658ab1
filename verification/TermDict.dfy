/** The lazy term dictionary: `.tis` stays raw bytes, the sparse `.tii` sample is parsed up front,
    and every query seeks to the sample at or before it and decodes forward from there. */
module TermDict {
  import opened Wrappers
  import opened Bytes
  import opened Lex
  import opened Postings

  const HEADER: nat := 24

  datatype Entry = Entry(field: string, text: string, info: TermInfo) {
    function Key(): Key {
      Lex.Key(field, text)
    }
  }

  /** What decoding needs to go on from: a position and the predecessor's text and pointers. */
  datatype State = State(pos: nat, text: string, freqPointer: nat, proxPointer: nat)

  const START := State(HEADER, "", 0, 0)

  /** One sample of `.tii`: a term, and the `.tis` offset just past it. */
  datatype IndexEntry = IndexEntry(entry: Entry, tisOffset: nat) {
    function Resume(): State {
      StateOf(entry, tisOffset)
    }
  }

  /** Precedes every term: the first term of the file may have no sample before it. */
  const ANCHOR := IndexEntry(Entry("", "", TermInfo(0, 0, 0)), HEADER)

  function StateOf(e: Entry, next: nat): State {
    State(next, e.text, e.info.freqPointer, e.info.proxPointer)
  }

  function FieldName(names: seq<string>, num: nat): string {
    if num < |names| then names[num] else ""
  }

  function TakeChars(s: string, n: nat): string {
    if n <= |s| then s[..n] else s
  }

  /** One entry: the prefix shared with the previous text, and pointers as wrapping deltas. */
  function EntryAt(tis: seq<Byte>, s: State, names: seq<string>): (r: Result<Parsed<Entry>>)
    ensures r.Success? ==> s.pos < r.value.next <= |tis|
  {
    var shared :- VIntAt(tis, s.pos);
    var suffix :- StringAt(tis, shared.next);
    var num :- VIntAt(tis, suffix.next);
    var docFreq :- VIntAt(tis, num.next);
    var freqDelta :- VIntAt(tis, docFreq.next);
    var proxDelta :- VIntAt(tis, freqDelta.next);
    var info := TermInfo(docFreq.value % U32, (s.freqPointer + freqDelta.value) % U64, (s.proxPointer + proxDelta.value) % U64);
    Success(Parsed(Entry(FieldName(names, num.value), TakeChars(s.text, shared.value) + suffix.value, info), proxDelta.next))
  }

  /** Everything decodable from a state on, up to the end or the first error. */
  function DecodeFrom(tis: seq<Byte>, s: State, names: seq<string>): seq<Entry>
    decreases |tis| - s.pos
  {
    if s.pos >= |tis| then [] else
    match EntryAt(tis, s, names)
    case Failure(_) => []
    case Success(p) => [p.value] + DecodeFrom(tis, StateOf(p.value, p.next), names)
  }

  /** The state after the first `k` entries. */
  function StateAfter(tis: seq<Byte>, s: State, names: seq<string>, k: nat): State
    requires k <= |DecodeFrom(tis, s, names)|
    decreases k
  {
    if k == 0 then s else
    var p := EntryAt(tis, s, names).value;
    StateAfter(tis, StateOf(p.value, p.next), names, k - 1)
  }

  /** Resuming after `k` entries decodes exactly the entries from the `k`-th on. */
  lemma {:induction false} ResumeDecodesSuffix(tis: seq<Byte>, s: State, names: seq<string>, k: nat)
    requires k <= |DecodeFrom(tis, s, names)|
    ensures DecodeFrom(tis, StateAfter(tis, s, names, k), names) == DecodeFrom(tis, s, names)[k..]
    ensures k > 0 ==>
              StateAfter(tis, s, names, k) == StateOf(DecodeFrom(tis, s, names)[k - 1], StateAfter(tis, s, names, k).pos)
    decreases k
  {
    hide EntryAt;
    if k > 0 {
      var p := EntryAt(tis, s, names).value;
      ResumeDecodesSuffix(tis, StateOf(p.value, p.next), names, k - 1);
    }
  }

  // ----- what the queries mean on a full decode -----

  function Lookup(es: seq<Entry>, key: Key): Option<TermInfo> {
    if es == [] then None
    else if es[0].Key() == key then Some(es[0].info)
    else Lookup(es[1..], key)
  }

  /** What a query wants of one field's terms. */
  datatype Wanted = StartingWith(prefix: string) | InRange(lower: Option<string>, upper: Option<string>) | Every {
    predicate Holds(text: string) {
      match this
      case StartingWith(p) => p <= text
      case InRange(lo, hi) => (lo.Some? ==> AtMost(lo.value, text)) && (hi.Some? ==> AtMost(text, hi.value))
      case Every => true
    }

    /** The text the anchor is sought at. */
    function From(): string {
      match this
      case StartingWith(p) => p
      case InRange(lo, _) => if lo.Some? then lo.value else ""
      case Every => ""
    }
  }

  function Select(es: seq<Entry>, field: string, w: Wanted): seq<Entry> {
    if es == [] then []
    else (if es[0].field == field && w.Holds(es[0].text) then [es[0]] else []) + Select(es[1..], field, w)
  }

  function Texts(es: seq<Entry>): (ts: seq<string>)
    ensures |ts| == |es| && forall i | 0 <= i < |es| :: ts[i] == es[i].text
  {
    seq(|es|, i requires 0 <= i < |es| => es[i].text)
  }

  predicate Sorted(es: seq<Entry>) {
    forall i, j | 0 <= i < j < |es| :: KeyLess(es[i].Key(), es[j].Key())
  }

  /** Entries strictly ascend by field name, then text, and no text is empty. */
  predicate WellFormed(es: seq<Entry>) {
    Sorted(es) && forall i | 0 <= i < |es| :: es[i].text != ""
  }

  lemma {:induction false} SelectAppend(a: seq<Entry>, b: seq<Entry>, field: string, w: Wanted)
    ensures Select(a + b, field, w) == Select(a, field, w) + Select(b, field, w)
  {
    if a == [] {
      assert a + b == b;
    } else {
      assert (a + b)[1..] == a[1..] + b;
      SelectAppend(a[1..], b, field, w);
    }
  }

  lemma {:induction false} SelectNothing(es: seq<Entry>, field: string, w: Wanted)
    requires forall i | 0 <= i < |es| :: !(es[i].field == field && w.Holds(es[i].text))
    ensures Select(es, field, w) == []
  {
    if es != [] {
      SelectNothing(es[1..], field, w);
    }
  }

  lemma {:induction false} LookupAppend(a: seq<Entry>, b: seq<Entry>, key: Key)
    requires forall i | 0 <= i < |a| :: a[i].Key() != key
    ensures Lookup(a + b, key) == Lookup(b, key)
  {
    if a == [] {
      assert a + b == b;
    } else {
      assert (a + b)[1..] == a[1..] + b;
      LookupAppend(a[1..], b, key);
    }
  }

  lemma {:induction false} LookupAbsent(es: seq<Entry>, key: Key)
    requires forall i | 0 <= i < |es| :: es[i].Key() != key
    ensures Lookup(es, key) == None
  {
    if es != [] {
      LookupAbsent(es[1..], key);
    }
  }

  lemma {:induction false} SelectStep(es: seq<Entry>, field: string, w: Wanted)
    ensures es == [] ==> Select(es, field, w) == [] && Texts(Select(es, field, w)) == []
    ensures es != [] && es[0].field == field && w.Holds(es[0].text) ==>
              && Select(es, field, w) == [es[0]] + Select(es[1..], field, w)
              && Texts(Select(es, field, w)) == [es[0].text] + Texts(Select(es[1..], field, w))
    ensures es != [] && !(es[0].field == field && w.Holds(es[0].text)) ==>
              Select(es, field, w) == Select(es[1..], field, w)
  {
    hide AtMost, Wanted.Holds;
    if es != [] {
      var rest := Select(es[1..], field, w);
      if es[0].field == field && w.Holds(es[0].text) {
        TextsStep(es[0], rest);
      } else {
        assert [] + rest == rest;
      }
    }
  }

  lemma {:induction false} TextsStep(e: Entry, rest: seq<Entry>)
    ensures Texts([e] + rest) == [e.text] + Texts(rest)
  {
  }

  /** One step of a forward decode: the entry read is the next of the decode, or the decode ends. */
  lemma {:induction false} DecodeStep(tis: seq<Byte>, s: State, names: seq<string>)
    ensures var d, es := EntryAt(tis, s, names), DecodeFrom(tis, s, names);
            && (s.pos >= |tis| || d.Failure? ==> es == [])
            && (s.pos < |tis| && d.Success? ==>
                  && es != [] && es[0] == d.value.value
                  && es[1..] == DecodeFrom(tis, StateOf(d.value.value, d.value.next), names)
                  && (WellFormed(es) ==> WellFormed(es[1..])))
  {
    hide EntryAt, KeyLess;
  }

  lemma {:induction false} LookupStep(es: seq<Entry>, key: Key)
    ensures es == [] ==> Lookup(es, key) == None
    ensures es != [] && es[0].Key() == key ==> Lookup(es, key) == Some(es[0].info)
    ensures es != [] && es[0].Key() != key ==> Lookup(es, key) == Lookup(es[1..], key)
    ensures es != [] && WellFormed(es) && KeyLess(key, es[0].Key()) ==> Lookup(es, key) == None
  {
    if es != [] && WellFormed(es) && KeyLess(key, es[0].Key()) {
      AboveDiffers(es, key);
      LookupAbsent(es, key);
    }
  }

  lemma {:induction false} FirstNCut<T>(a: seq<T>, b: seq<T>, n: nat)
    requires |a| == n || (|a| < n && b == [])
    ensures FirstN(a + b, n) == a
  {
  }

  // ----- the dictionary -----

  datatype Dict = Dict(tis: seq<Byte>, index: seq<IndexEntry>, names: seq<string>) {

    /** The full decode, which every query must agree with. */
    function All(): seq<Entry> {
      DecodeFrom(tis, START, names)
    }

    /** The index samples the file: entry `j > 0` is the `ks[j]`-th term, with the offset just past it. */
    ghost predicate Samples(ks: seq<nat>) {
      && |ks| == |index| > 0 && ks[0] == 0 && index[0] == ANCHOR
      && (forall i, j | 0 <= i < j < |ks| :: ks[i] < ks[j])
      && (forall j | 0 < j < |ks| ::
            && 0 < ks[j] <= |All()|
            && index[j].entry == All()[ks[j] - 1]
            && index[j].tisOffset == StateAfter(tis, START, names, ks[j]).pos)
    }

    /** A well-formed file, sampled at any subsequence of its terms. */
    ghost predicate Valid() {
      WellFormed(All()) && exists ks :: Samples(ks)
    }

    /** The number of leading samples at or before `key`: a binary search over the sorted index. */
    method PartitionPoint(key: Key) returns (gt: nat)
      requires Valid()
      ensures 0 < gt <= |index| && KeyAtMost(index[gt - 1].entry.Key(), key)
      ensures gt < |index| ==> KeyLess(key, index[gt].entry.Key())
    {
      IndexSorted();
      hide KeyLess, KeyAtMost, Valid;
      var lo, hi := 0, |index|;
      while lo < hi
        invariant 0 <= lo <= hi <= |index|
        invariant lo > 0 ==> KeyAtMost(index[lo - 1].entry.Key(), key)
        invariant hi < |index| ==> !KeyAtMost(index[hi].entry.Key(), key)
      {
        var mid := (lo + hi) / 2;
        if KeyAtMost(index[mid].entry.Key(), key) {
          lo := mid + 1;
        } else {
          hi := mid;
        }
      }
      EmptyFirst(key);
      assert lo > 0 by {
        assert index[0].entry.Key() == Key("", "");
      }
      if lo < |index| {
        NotAtMost(index[lo].entry.Key(), key);
      }
      return lo;
    }

    /** Every query starts here, at the last sample at or before `key`, the `k`-th term of the file. */
    method FindAnchor(key: Key) returns (a: nat, ghost k: nat)
      requires Valid()
      ensures a < |index| && k <= |All()|
      ensures DecodeFrom(tis, index[a].Resume(), names) == All()[k..] && WellFormed(All()[k..])
      ensures k == 0 ==> index[a] == ANCHOR
      ensures k > 0 ==> index[a].entry == All()[k - 1] && All()[k - 1].text != ""
      ensures k > 0 ==> KeyAtMost(All()[k - 1].Key(), key)
      ensures forall i | 0 <= i < k - 1 :: KeyLess(All()[i].Key(), key)
      ensures a + 1 < |index| ==> KeyLess(key, index[a + 1].entry.Key())
    {
      hide KeyLess, DecodeFrom, EntryAt, StateAfter;
      var gt := PartitionPoint(key);
      ghost var ks :| Samples(ks);
      a, k := gt - 1, ks[gt - 1];
      assert k <= |All()|;
      ResumeDecodesSuffix(tis, START, names, k);
      assert a > 0 ==> ks[0] < ks[a];
      if k > 0 {
        forall i | 0 <= i < k - 1 ensures KeyLess(All()[i].Key(), key) {
          Below(All()[i].Key(), All()[k - 1].Key(), key);
        }
      }
    }

    lemma {:induction false} IndexSorted()
      requires Valid()
      ensures |index| > 0 && index[0] == ANCHOR
      ensures forall i, j | 0 <= i < j < |index| :: KeyLess(index[i].entry.Key(), index[j].entry.Key())
    {
      var ks :| Samples(ks);
      forall i, j | 0 <= i < j < |index| ensures KeyLess(index[i].entry.Key(), index[j].entry.Key()) {
        assert ks[i] < ks[j];
        if i > 0 {
          assert ks[0] < ks[i];
        } else {
          EmptyBelow(All()[ks[j] - 1].Key());
        }
      }
    }

    method Info(field: string, term: string) returns (r: Option<TermInfo>)
      requires Valid()
      ensures r == Lookup(All(), Key(field, term))
    {
      hide EntryAt, DecodeFrom, KeyLess, Less, Sorted, WellFormed, Lookup;
      var key := Key(field, term);
      var a, k := FindAnchor(key);
      var anchor := index[a];
      AnchorLooksUp(k, key);
      if anchor.entry.text != "" && anchor.entry.Key() == key {
        return Some(anchor.entry.info);
      }
      var s := anchor.Resume();
      while s.pos < |tis|
        invariant WellFormed(DecodeFrom(tis, s, names))
        invariant Lookup(All(), key) == Lookup(DecodeFrom(tis, s, names), key)
        decreases |tis| - s.pos
      {
        ghost var rest := DecodeFrom(tis, s, names);
        var d := EntryAt(tis, s, names);
        DecodeStep(tis, s, names);
        LookupStep(rest, key);
        if d.Failure? {
          return None;
        }
        var e := d.value.value;
        if e.Key() == key {
          return Some(e.info);
        }
        if KeyLess(key, e.Key()) {
          return None;
        }
        s := StateOf(e, d.value.next);
      }
      DecodeStep(tis, s, names);
      LookupStep([], key);
      return None;
    }

    /** A lookup is decided by the anchor or by what follows it. */
    lemma {:induction false} AnchorLooksUp(k: nat, key: Key)
      requires k <= |All()|
      requires forall i | 0 <= i < k - 1 :: KeyLess(All()[i].Key(), key)
      ensures Lookup(All(), key)
           == if k > 0 && All()[k - 1].Key() == key then Some(All()[k - 1].info) else Lookup(All()[k..], key)
    {
      hide DecodeFrom, KeyLess;
      var all := All();
      if k > 0 {
        BelowDiffers(all[..k - 1], key);
        assert all == all[..k - 1] + all[k - 1..];
        LookupAppend(all[..k - 1], all[k - 1..], key);
        assert all[k - 1..][1..] == all[k..];
      } else {
        assert all[k..] == all;
      }
    }

    /** The anchor is the only term up to it that a query over `field` can want. */
    lemma {:induction false} AnchorSelects(k: nat, field: string, w: Wanted)
      requires k <= |All()| && WellFormed(All())
      requires k > 0 ==> KeyAtMost(All()[k - 1].Key(), Key(field, w.From()))
      requires forall i | 0 <= i < k - 1 :: KeyLess(All()[i].Key(), Key(field, w.From()))
      ensures Select(All(), field, w)
           == (if k > 0 && All()[k - 1].field == field && w.Holds(All()[k - 1].text) then [All()[k - 1]] else [])
            + Select(All()[k..], field, w)
      ensures w.Every? && k > 0 ==> All()[k - 1].field != field
    {
      hide DecodeFrom, KeyLess, KeyAtMost;
      var all := All();
      var before := all[..if k > 0 then k - 1 else 0];
      forall i | 0 <= i < |before| ensures !(before[i].field == field && w.Holds(before[i].text)) {
        EarlierUnwanted(before[i], field, w);
      }
      SelectNothing(before, field, w);
      if k > 0 {
        assert all == before + ([all[k - 1]] + all[k..]);
        SelectAppend(before, [all[k - 1]] + all[k..], field, w);
        assert ([all[k - 1]] + all[k..])[1..] == all[k..];
        if w.Every? {
          NotOfField(all[k - 1], field);
        }
      } else {
        assert all[0..] == all;
      }
    }

    lemma {:induction false} AnchorTexts(k: nat, field: string, w: Wanted)
      requires k <= |All()| && WellFormed(All())
      requires k > 0 ==> KeyAtMost(All()[k - 1].Key(), Key(field, w.From()))
      requires forall i | 0 <= i < k - 1 :: KeyLess(All()[i].Key(), Key(field, w.From()))
      ensures var found := k > 0 && All()[k - 1].field == field && w.Holds(All()[k - 1].text);
              Texts(Select(All(), field, w)) == (if found then [All()[k - 1].text] else []) + Texts(Select(All()[k..], field, w))
    {
      hide DecodeFrom, Select, WellFormed, KeyLess;
      AnchorSelects(k, field, w);
    }

    method TermsWithPrefixLimited(field: string, prefix: string, limit: nat) returns (out: seq<string>)
      requires Valid()
      ensures out == FirstN(Texts(Select(All(), field, StartingWith(prefix))), limit)
    {
      hide FirstN, EntryAt, DecodeFrom, Select, WellFormed, Sorted, KeyLess, Less, AtMost;
      if limit == 0 {
        FirstNCut([], Texts(Select(All(), field, StartingWith(prefix))), limit);
        assert [] + Texts(Select(All(), field, StartingWith(prefix))) == Texts(Select(All(), field, StartingWith(prefix)));
        return [];
      }
      ghost var w := StartingWith(prefix);
      ghost var want := Texts(Select(All(), field, w));
      var a, k := FindAnchor(Key(field, prefix));
      var anchor := index[a];
      AnchorTexts(k, field, w);
      out := [];
      if anchor.entry.text != "" && anchor.entry.field == field && prefix <= anchor.entry.text {
        out := [anchor.entry.text];
        if |out| >= limit {
          FirstNCut(out, Texts(Select(All()[k..], field, w)), limit);
          return out;
        }
      }
      var s := anchor.Resume();
      while s.pos < |tis|
        invariant WellFormed(DecodeFrom(tis, s, names)) && |out| < limit
        invariant want == out + Texts(Select(DecodeFrom(tis, s, names), field, w))
        decreases |tis| - s.pos
      {
        var d := EntryAt(tis, s, names);
        DecodeStep(tis, s, names);
        if d.Failure? {
          break;
        }
        var e := d.value.value;
        ghost var rest := DecodeFrom(tis, s, names);
        SelectStep(rest, field, w);
        if Less(field, e.field) {
          PastField(rest, field, w);
          break;
        }
        if e.field == field {
          if prefix <= e.text {
            out := out + [e.text];
            assert want == out + Texts(Select(rest[1..], field, w));
            if |out| >= limit {
              FirstNCut(out, Texts(Select(rest[1..], field, w)), limit);
              return out;
            }
          } else if Less(prefix, e.text) {
            PastPrefix(rest, field, prefix);
            break;
          }
        }
        s := StateOf(e, d.value.next);
      }
      DecodeStep(tis, s, names);
      SelectStep([], field, w);
      FirstNCut(out, [], limit);
    }

    method TermsInRange(field: string, lower: Option<string>, upper: Option<string>) returns (out: seq<string>)
      requires Valid()
      ensures out == Texts(Select(All(), field, InRange(lower, upper)))
    {
      hide EntryAt, DecodeFrom, Select, WellFormed, Sorted, KeyLess, Less, AtMost;
      var w := InRange(lower, upper);
      ghost var want := Texts(Select(All(), field, w));
      var a, k := FindAnchor(Key(field, w.From()));
      var anchor := index[a];
      AnchorTexts(k, field, w);
      out := [];
      if anchor.entry.text != "" && anchor.entry.field == field && w.Holds(anchor.entry.text) {
        out := [anchor.entry.text];
      }
      var s := anchor.Resume();
      while s.pos < |tis|
        invariant WellFormed(DecodeFrom(tis, s, names))
        invariant want == out + Texts(Select(DecodeFrom(tis, s, names), field, w))
        decreases |tis| - s.pos
      {
        var d := EntryAt(tis, s, names);
        DecodeStep(tis, s, names);
        if d.Failure? {
          break;
        }
        var e := d.value.value;
        ghost var rest := DecodeFrom(tis, s, names);
        SelectStep(rest, field, w);
        if Less(field, e.field) {
          PastField(rest, field, w);
          break;
        }
        if e.field == field {
          if upper.Some? && Less(upper.value, e.text) {
            PastUpper(rest, field, w);
            break;
          }
          if w.Holds(e.text) {
            out := out + [e.text];
          }
        }
        s := StateOf(e, d.value.next);
      }
      DecodeStep(tis, s, names);
      SelectStep([], field, w);
    }

    /** Every term of a field with its info: one seek, then a forward decode. */
    method FieldTerms(field: string) returns (out: seq<Entry>)
      requires Valid()
      ensures out == Select(All(), field, Every)
    {
      hide EntryAt, DecodeFrom, Select, WellFormed, Sorted, KeyLess, Less, AtMost;
      ghost var w := Every;
      ghost var want := Select(All(), field, w);
      var a, k := FindAnchor(Key(field, ""));
      AnchorSelects(k, field, w);
      out := [];
      var s := index[a].Resume();
      assert want == [] + Select(All()[k..], field, w);
      while s.pos < |tis|
        invariant WellFormed(DecodeFrom(tis, s, names))
        invariant want == out + Select(DecodeFrom(tis, s, names), field, w)
        decreases |tis| - s.pos
      {
        var d := EntryAt(tis, s, names);
        DecodeStep(tis, s, names);
        if d.Failure? {
          break;
        }
        var e := d.value.value;
        ghost var rest := DecodeFrom(tis, s, names);
        SelectStep(rest, field, w);
        if Less(field, e.field) {
          PastField(rest, field, w);
          break;
        }
        if e.field == field {
          out := out + [e];
        }
        s := StateOf(e, d.value.next);
      }
      DecodeStep(tis, s, names);
      SelectStep([], field, w);
      assert out + [] == out;
    }

    method DecodeAll() returns (out: seq<Entry>)
      ensures out == All()
    {
      var s := START;
      out := [];
      while s.pos < |tis|
        invariant All() == out + DecodeFrom(tis, s, names)
        decreases |tis| - s.pos
      {
        var d := EntryAt(tis, s, names);
        DecodeStep(tis, s, names);
        if d.Failure? {
          break;
        }
        out := out + [d.value.value];
        s := StateOf(d.value.value, d.value.next);
      }
    }
  }

  // ----- opening -----

  /** One `.tii` entry: a `.tis` entry followed by the distance from the previous sample's offset. */
  function SampleAt(tii: seq<Byte>, s: State, running: nat, names: seq<string>): (r: Result<Parsed<IndexEntry>>)
    ensures r.Success? ==> s.pos < r.value.next <= |tii|
  {
    var e :- EntryAt(tii, s, names);
    var delta :- VIntAt(tii, e.next);
    Success(Parsed(IndexEntry(e.value, (running + delta.value) % U64), delta.next))
  }

  function SamplesFrom(tii: seq<Byte>, s: State, running: nat, names: seq<string>): Result<seq<IndexEntry>>
    decreases |tii| - s.pos
  {
    if s.pos >= |tii| then Success([])
    else
      var e :- SampleAt(tii, s, running, names);
      var rest :- SamplesFrom(tii, StateOf(e.value.entry, e.next), e.value.tisOffset, names);
      Success([e.value] + rest)
  }

  function HeaderAt(data: seq<Byte>): (r: Result<Parsed<nat>>)
    ensures r.Success? ==> r.value.next == HEADER <= |data|
  {
    var marker :- IntAt(data, 0, 4);
    var count :- IntAt(data, marker.next, 8);
    var interval :- IntAt(data, count.next, 4);
    var skip :- IntAt(data, interval.next, 4);
    var levels :- IntAt(data, skip.next, 4);
    Success(Parsed(count.value, levels.next))
  }

  /** The hand-written first entry of `.tii`: its field is a raw integer and a literal byte follows. */
  function SyntheticAt(tii: seq<Byte>, pos: nat): (r: Result<nat>)
    ensures r.Success? ==> pos < r.value <= |tii|
  {
    var prefix :- VIntAt(tii, pos);
    var suffix :- StringAt(tii, prefix.next);
    var field :- IntAt(tii, suffix.next, 4);
    var literal :- ByteAt(tii, field.next);
    var docFreq :- VIntAt(tii, literal.next);
    var freqDelta :- VIntAt(tii, docFreq.next);
    var proxDelta :- VIntAt(tii, freqDelta.next);
    var indexDelta :- VIntAt(tii, proxDelta.next);
    Success(indexDelta.next)
  }

  function Opened(tis: seq<Byte>, tii: seq<Byte>, names: seq<string>): Result<Dict> {
    var header :- HeaderAt(tii);
    var first :- SyntheticAt(tii, header.next);
    var samples :- SamplesFrom(tii, State(first, "", 0, 0), HEADER, names);
    Success(Dict(tis, [ANCHOR] + samples, names))
  }

  method Open(tis: seq<Byte>, tii: seq<Byte>, names: seq<string>) returns (r: Result<Dict>)
    ensures r == Opened(tis, tii, names)
  {
    hide EntryAt, VIntAt, StringAt, IntAt, ByteAt;
    var header := HeaderAt(tii);
    if header.Failure? {
      return Failure(header.error);
    }
    var first := SyntheticAt(tii, header.value.next);
    if first.Failure? {
      return Failure(first.error);
    }
    var index: seq<IndexEntry>, s, running: nat := [ANCHOR], State(first.value, "", 0, 0), HEADER;
    ghost var all := SamplesFrom(tii, s, running, names);
    while s.pos < |tii|
      invariant SamplesFrom(tii, s, running, names).Failure? ==> all == SamplesFrom(tii, s, running, names)
      invariant SamplesFrom(tii, s, running, names).Success? ==>
                  all.Success? && [ANCHOR] + all.value == index + SamplesFrom(tii, s, running, names).value
      decreases |tii| - s.pos
    {
      var e := SampleAt(tii, s, running, names);
      if e.Failure? {
        return Failure(e.error);
      }
      index := index + [e.value.value];
      s, running := StateOf(e.value.value.entry, e.value.next), e.value.value.tisOffset;
    }
    assert index + [] == index;
    return Success(Dict(tis, index, names));
  }

  // ----- the eager reader, the reference the lazy one replaced -----

  function EntriesAt(tis: seq<Byte>, s: State, names: seq<string>, n: nat): Result<Parsed<seq<Entry>>>
    decreases n
  {
    if n == 0 then Success(Parsed([], s.pos))
    else
      var e :- EntryAt(tis, s, names);
      Prepend([e.value], EntriesAt(tis, StateOf(e.value, e.next), names, n - 1))
  }

  /** Reads as many entries as the header counts. */
  function Eager(tis: seq<Byte>, names: seq<string>): Result<Parsed<seq<Entry>>> {
    var header :- HeaderAt(tis);
    EntriesAt(tis, START, names, header.value)
  }

  lemma {:induction false} CountedDecode(tis: seq<Byte>, s: State, names: seq<string>, n: nat)
    requires EntriesAt(tis, s, names, n).Success? && EntriesAt(tis, s, names, n).value.next == |tis|
    ensures DecodeFrom(tis, s, names) == EntriesAt(tis, s, names, n).value.value
    decreases n
  {
    hide EntryAt;
    if n > 0 {
      var e := EntryAt(tis, s, names).value;
      CountedDecode(tis, StateOf(e.value, e.next), names, n - 1);
    }
  }

  /** When the eager reader succeeds and uses the file up, its entries are the lazy full decode. */
  lemma {:induction false} EagerAgrees(d: Dict)
    requires Eager(d.tis, d.names).Success? && Eager(d.tis, d.names).value.next == |d.tis|
    ensures d.All() == Eager(d.tis, d.names).value.value
  {
    hide HeaderAt, EntriesAt, DecodeFrom;
    CountedDecode(d.tis, START, d.names, HeaderAt(d.tis).value.value);
  }

  // ----- order facts behind the early exits -----

  lemma {:induction false} Below(a: Key, b: Key, c: Key)
    requires KeyLess(a, b) && KeyAtMost(b, c)
    ensures KeyLess(a, c)
  {
    if b != c {
      KeyTransitive(a, b, c);
    }
  }

  lemma {:induction false} NotAtMost(a: Key, b: Key)
    requires !KeyAtMost(a, b)
    ensures KeyLess(b, a)
  {
    KeyTotal(a, b);
  }

  lemma {:induction false} EmptyBelow(k: Key)
    requires k.text != ""
    ensures KeyLess(Key("", ""), k)
  {
  }

  lemma {:induction false} EmptyFirst(k: Key)
    ensures KeyAtMost(Key("", ""), k)
  {
    if k.text == "" && k.field == "" {
      assert k == Key("", "");
    }
  }

  lemma {:induction false} BelowDiffers(es: seq<Entry>, key: Key)
    requires forall i | 0 <= i < |es| :: KeyLess(es[i].Key(), key)
    ensures forall i | 0 <= i < |es| :: es[i].Key() != key
  {
    forall i | 0 <= i < |es| ensures es[i].Key() != key {
      KeyAsymmetric(es[i].Key(), key);
    }
  }

  lemma {:induction false} AboveDiffers(es: seq<Entry>, key: Key)
    requires Sorted(es) && es != [] && KeyLess(key, es[0].Key())
    ensures forall i | 0 <= i < |es| :: es[i].Key() != key
  {
    forall i | 0 <= i < |es| ensures es[i].Key() != key {
      if i > 0 {
        KeyTransitive(key, es[0].Key(), es[i].Key());
      }
      KeyAsymmetric(key, es[i].Key());
    }
  }

  lemma {:induction false} NotOfField(e: Entry, field: string)
    requires e.text != "" && KeyAtMost(e.Key(), Key(field, ""))
    ensures e.field != field
  {
    Irreflexive(field);
  }

  lemma {:induction false} EarlierUnwanted(e: Entry, field: string, w: Wanted)
    requires e.text != "" && KeyLess(e.Key(), Key(field, w.From()))
    ensures !(e.field == field && w.Holds(e.text))
  {
    if e.field == field {
      Irreflexive(field);
      Asymmetric(e.text, w.From());
      if w.StartingWith? && w.prefix <= e.text {
        PrefixAtMost(w.prefix, e.text);
      }
    }
  }

  lemma {:induction false} PastField(es: seq<Entry>, field: string, w: Wanted)
    requires WellFormed(es) && es != [] && Less(field, es[0].field)
    ensures Select(es, field, w) == []
  {
    forall i | 0 <= i < |es| ensures es[i].field != field {
      if i > 0 && Less(es[0].field, es[i].field) {
        Transitive(field, es[0].field, es[i].field);
      }
      Asymmetric(field, es[i].field);
    }
    SelectNothing(es, field, w);
  }

  lemma {:induction false} PastPrefix(es: seq<Entry>, field: string, prefix: string)
    requires WellFormed(es) && es != [] && es[0].field == field
    requires Less(prefix, es[0].text) && !(prefix <= es[0].text)
    ensures Select(es, field, StartingWith(prefix)) == []
  {
    Irreflexive(field);
    forall i | 0 <= i < |es| ensures !(es[i].field == field && prefix <= es[i].text) {
      if i > 0 && es[i].field == field {
        PrefixRangeEnds(prefix, es[0].text, es[i].text);
      }
    }
    SelectNothing(es, field, StartingWith(prefix));
  }

  lemma {:induction false} PastUpper(es: seq<Entry>, field: string, w: Wanted)
    requires WellFormed(es) && es != [] && es[0].field == field
    requires w.InRange? && w.upper.Some? && Less(w.upper.value, es[0].text)
    ensures Select(es, field, w) == []
  {
    Irreflexive(field);
    forall i | 0 <= i < |es| ensures !(es[i].field == field && w.Holds(es[i].text)) {
      if es[i].field == field {
        if i > 0 {
          Transitive(w.upper.value, es[0].text, es[i].text);
        }
        Asymmetric(w.upper.value, es[i].text);
      }
    }
    SelectNothing(es, field, w);
  }
}
