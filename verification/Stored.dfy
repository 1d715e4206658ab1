/** Stored fields: `.fdx` points at each document's block of entries in `.fdt`. */
module Stored {
  import opened Wrappers
  import opened Bytes
  import Inverter
  import Postings

  datatype StoredRaw = StoredRaw(fieldNum: nat, value: string, tokenized: bool, isBinary: bool)

  // ----- what the bytes hold -----

  /** A length-prefixed run of raw bytes. */
  function RunAt(fdt: seq<Byte>, pos: nat): (r: Result<Parsed<seq<Byte>>>)
    ensures r.Success? ==> pos < r.value.next <= |fdt|
  {
    var len :- VIntAt(fdt, pos);
    if len.next + len.value > |fdt| then Failure(Truncated(len.next))
    else Success(Parsed(fdt[len.next..len.next + len.value], len.next + len.value))
  }

  /** One entry. Bit 0 of the flags marks a tokenized field, bit 1 a binary one; `lossy` is the
      decoding of raw bytes as text. */
  function EntryAt(fdt: seq<Byte>, pos: nat, lossy: seq<Byte> -> string): (r: Result<Parsed<StoredRaw>>)
    ensures r.Success? ==> pos < r.value.next <= |fdt|
  {
    var num :- VIntAt(fdt, pos);
    var flags :- ByteAt(fdt, num.next);
    if flags.value / 2 % 2 == 1 then
      var run :- RunAt(fdt, flags.next);
      Success(Parsed(StoredRaw(num.value, lossy(run.value), flags.value % 2 == 1, true), run.next))
    else
      var s :- StringAt(fdt, flags.next);
      Success(Parsed(StoredRaw(num.value, s.value, flags.value % 2 == 1, false), s.next))
  }

  function EntriesAt(fdt: seq<Byte>, pos: nat, n: nat, lossy: seq<Byte> -> string): Scan<StoredRaw>
    decreases n
  {
    if n == 0 then Scan([], None)
    else
      match EntryAt(fdt, pos, lossy)
      case Failure(e) => Scan([], Some(e))
      case Success(p) => After([p.value], EntriesAt(fdt, p.next, n - 1, lossy))
  }

  /** The document's block; a document beyond `.fdx` has none. */
  function BlockAt(fdx: seq<Byte>, fdt: seq<Byte>, docId: nat): Result<Option<Parsed<nat>>> {
    if docId * 8 + 8 > |fdx| then Success(None)
    else
      var offset :- IntAt(fdx, docId * 8, 8);
      var count :- VIntAt(fdt, offset.value);
      Success(Some(count))
  }

  function FieldsAt(fdx: seq<Byte>, fdt: seq<Byte>, docId: nat, lossy: seq<Byte> -> string): Scan<StoredRaw> {
    match BlockAt(fdx, fdt, docId)
    case Failure(e) => Scan([], Some(e))
    case Success(None) => Scan([], None)
    case Success(Some(count)) => EntriesAt(fdt, count.next, count.value, lossy)
  }

  /** A run of any bytes reads back where it was written, at the very end of the file too. */
  lemma {:induction false} RunRoundTrip(fdt: seq<Byte>, pos: nat, run: seq<Byte>)
    requires |run| < U64 && At(fdt, pos, VInt(|run|) + run)
    ensures RunAt(fdt, pos) == Success(Parsed(run, pos + |VInt(|run|)| + |run|))
  {
    hide VInt, VIntAt, At;
    AtSplit(fdt, pos, VInt(|run|), run);
    VIntRoundTrip(fdt, pos, |run|);
    AtIs(fdt, pos + |VInt(|run|)|, run);
  }

  lemma {:induction false} AtIs(data: seq<Byte>, pos: nat, s: seq<Byte>)
    requires At(data, pos, s)
    ensures pos + |s| <= |data| && data[pos..pos + |s|] == s
  {
  }

  /** A run fails exactly when its length does not decode or fewer bytes are left than it says. */
  lemma {:induction false} RunFails(fdt: seq<Byte>, pos: nat)
    ensures RunAt(fdt, pos).Failure? <==>
            VIntAt(fdt, pos).Failure? || |fdt| - VIntAt(fdt, pos).value.next < VIntAt(fdt, pos).value.value
  {
    hide VIntAt;
  }

  /** `.fdx` has eight bytes a document: beyond it there are no stored fields, which is no error; within
      it there is an offset to follow. */
  lemma {:induction false} BlockBeyond(fdx: seq<Byte>, fdt: seq<Byte>, docId: nat, lossy: seq<Byte> -> string)
    ensures docId >= |fdx| / 8 ==> FieldsAt(fdx, fdt, docId, lossy) == Scan([], None)
    ensures docId < |fdx| / 8 ==>
              && IntAt(fdx, docId * 8, 8).Success?
              && BlockAt(fdx, fdt, docId) == match VIntAt(fdt, IntAt(fdx, docId * 8, 8).value.value)
                                             case Failure(e) => Failure(e)
                                             case Success(count) => Success(Some(count))
  {
    hide VIntAt, EntriesAt;
  }

  // ----- the readers -----

  method ReadStoredRaw(fdx: seq<Byte>, fdt: seq<Byte>, docId: nat, lossy: seq<Byte> -> string) returns (r: Result<seq<StoredRaw>>)
    ensures r == FieldsAt(fdx, fdt, docId, lossy).ToResult()
  {
    hide VIntAt, StringAt, IntAt, ByteAt, RunAt;
    var block := BlockAt(fdx, fdt, docId);
    match block {
      case Failure(e) => return Failure(e);
      case Success(None) => return Success([]);
      case Success(Some(count)) =>
        var out: seq<StoredRaw>, pos: nat := [], count.next;
        ghost var all := EntriesAt(fdt, pos, count.value, lossy);
        AfterNothing(all);
        for i := 0 to count.value
          invariant all == After(out, EntriesAt(fdt, pos, count.value - i, lossy))
        {
          var fieldNum := ReadVInt(fdt, pos);
          if fieldNum.Failure? {
            return Failure(fieldNum.error);
          }
          var flags := ByteAt(fdt, fieldNum.value.next);
          if flags.Failure? {
            return Failure(flags.error);
          }
          var tokenized, isBinary := flags.value.value % 2 == 1, flags.value.value / 2 % 2 == 1;
          var value: string, next: nat;
          if isBinary {
            var run := RunAt(fdt, flags.value.next);
            if run.Failure? {
              return Failure(run.error);
            }
            value, next := lossy(run.value.value), run.value.next;
          } else {
            var s := ReadModifiedUtf8(fdt, flags.value.next);
            if s.Failure? {
              return Failure(s.error);
            }
            value, next := s.value.value, s.value.next;
          }
          var entry := StoredRaw(fieldNum.value.value, value, tokenized, isBinary);
          AfterMore(out, entry, EntriesAt(fdt, next, count.value - i - 1, lossy));
          out, pos := out + [entry], next;
        }
        assert out + [] == out;
        return Success(out);
    }
  }

  function FirstNumbered(items: seq<StoredRaw>, num: nat): Option<string> {
    if items == [] then None
    else if items[0].fieldNum == num then Some(items[0].value)
    else FirstNumbered(items[1..], num)
  }

  /** A walk's error counts only when the field does not come first. */
  function FieldOf(s: Scan<StoredRaw>, num: nat): Result<Option<string>> {
    match FirstNumbered(s.items, num)
    case Some(v) => Success(Some(v))
    case None => if s.error.Some? then Failure(s.error.value) else Success(None)
  }

  lemma {:induction false} FieldAfter(entry: StoredRaw, s: Scan<StoredRaw>, num: nat)
    ensures FieldOf(After([entry], s), num) == if entry.fieldNum == num then Success(Some(entry.value)) else FieldOf(s, num)
  {
    assert ([entry] + s.items)[1..] == s.items;
  }

  lemma {:induction false} FieldIsFirst(s: Scan<StoredRaw>, num: nat)
    ensures s.error.None? ==> FieldOf(s, num) == Success(FirstNumbered(s.items, num))
  {
  }

  /** Reads one field, stepping over the others undecoded: on any bytes, corrupt or not, the first
      entry with that number that the full read reaches, or the error that ends it before one. */
  method ReadStoredField(fdx: seq<Byte>, fdt: seq<Byte>, docId: nat, fieldNum: nat, lossy: seq<Byte> -> string) returns (r: Result<Option<string>>)
    ensures r == FieldOf(FieldsAt(fdx, fdt, docId, lossy), fieldNum)
    ensures FieldsAt(fdx, fdt, docId, lossy).error.None? ==> r == Success(FirstNumbered(FieldsAt(fdx, fdt, docId, lossy).items, fieldNum))
  {
    FieldIsFirst(FieldsAt(fdx, fdt, docId, lossy), fieldNum);
    hide VIntAt, StringAt, IntAt, ByteAt, RunAt, FieldOf;
    NothingRead(fieldNum);
    var block := BlockAt(fdx, fdt, docId);
    match block {
      case Failure(e) => return Failure(e);
      case Success(None) => return Success(None);
      case Success(Some(count)) =>
        var pos: nat := count.next;
        ghost var all := EntriesAt(fdt, pos, count.value, lossy);
        for i := 0 to count.value
          invariant FieldOf(all, fieldNum) == FieldOf(EntriesAt(fdt, pos, count.value - i, lossy), fieldNum)
        {
          var entry := EntryAt(fdt, pos, lossy);
          if entry.Success? {
            FieldAfter(entry.value.value, EntriesAt(fdt, entry.value.next, count.value - i - 1, lossy), fieldNum);
          }
          var num := ReadVInt(fdt, pos);
          if num.Failure? {
            return Failure(num.error);
          }
          var flags := ByteAt(fdt, num.value.next);
          if flags.Failure? {
            return Failure(flags.error);
          }
          var isBinary, wanted := flags.value.value / 2 % 2 == 1, num.value.value == fieldNum;
          if isBinary {
            var run := RunAt(fdt, flags.value.next);
            if run.Failure? {
              return Failure(run.error);
            }
            if wanted {
              return Success(Some(lossy(run.value.value)));
            }
            pos := run.value.next;
          } else if wanted {
            var s := ReadModifiedUtf8(fdt, flags.value.next);
            return if s.Failure? then Failure(s.error) else Success(Some(s.value.value));
          } else {
            var skipped := SkipModifiedUtf8(fdt, flags.value.next);
            if skipped.Failure? {
              return Failure(skipped.error);
            }
            pos := skipped.value;
          }
        }
        return Success(None);
    }
  }

  lemma {:induction false} NothingRead(num: nat)
    ensures FieldOf(Scan([], None), num) == Success(None)
    ensures forall e: Error :: FieldOf(Scan([], Some(e)), num) == Failure(e)
  {
  }

  // ----- the writer -----

  function FlagsByte(f: Inverter.StoredField): Byte {
    if f.tokenized then 1 else 0
  }

  function EntryBytes(f: Inverter.StoredField): seq<Byte> {
    VInt(f.fieldNum) + ([FlagsByte(f)] + StringBytes(f.value))
  }

  function EntriesBytes(fields: seq<Inverter.StoredField>): seq<Byte> {
    if fields == [] then [] else EntryBytes(fields[0]) + EntriesBytes(fields[1..])
  }

  function BlockBytes(fields: seq<Inverter.StoredField>): seq<Byte> {
    VInt(|fields|) + EntriesBytes(fields)
  }

  function FdtBytes(docs: seq<seq<Inverter.StoredField>>): seq<Byte> {
    if docs == [] then [] else FdtBytes(docs[..|docs| - 1]) + BlockBytes(docs[|docs| - 1])
  }

  function FdxBytes(docs: seq<seq<Inverter.StoredField>>): (s: seq<Byte>)
    ensures |s| == 8 * |docs|
  {
    if docs == [] then [] else FdxBytes(docs[..|docs| - 1]) + BigEndian(|FdtBytes(docs[..|docs| - 1])|, 8)
  }

  /** Writes one document at a time; no offset is patched. */
  class StoredStreamWriter {
    var fdt: seq<Byte>
    var fdx: seq<Byte>
    var fdtLen: nat
    ghost var docs: seq<seq<Inverter.StoredField>>

    ghost predicate Valid()
      reads this
    {
      fdt == FdtBytes(docs) && fdx == FdxBytes(docs) && fdtLen == |fdt|
    }

    constructor ()
      ensures Valid() && docs == []
    {
      fdt, fdx, fdtLen, docs := [], [], 0, [];
    }

    method AddDoc(fields: seq<Inverter.StoredField>)
      requires Valid()
      modifies this
      ensures Valid() && docs == old(docs) + [fields]
    {
      hide EntryBytes, VInt, BigEndian;
      assert (docs + [fields])[..|docs|] == docs;
      fdx := fdx + BigEndian(fdtLen, 8);
      var block := new Buffer();
      WriteVInt(block, |fields|);
      NoEntries();
      for i := 0 to |fields|
        invariant fresh(block) && block.bytes + EntriesBytes(fields[i..]) == BlockBytes(fields)
        modifies block
      {
        assert fields[i..][1..] == fields[i + 1..];
        Postings.Append(block.bytes, EntryBytes(fields[i]), EntriesBytes(fields[i + 1..]));
        WriteEntry(block, fields[i]);
      }
      assert fields[|fields|..] == [] && block.bytes + [] == block.bytes;
      fdt := fdt + block.bytes;
      fdtLen := fdtLen + |block.bytes|;
      docs := docs + [fields];
    }
  }

  lemma {:induction false} NoEntries()
    ensures EntriesBytes([]) == []
  {
  }

  method WriteEntry(block: Buffer, f: Inverter.StoredField)
    modifies block
    ensures block.bytes == old(block.bytes) + EntryBytes(f)
  {
    hide VInt, StringBytes;
    Postings.Append(block.bytes, VInt(f.fieldNum), [FlagsByte(f)] + StringBytes(f.value));
    Postings.Append(block.bytes + VInt(f.fieldNum), [FlagsByte(f)], StringBytes(f.value));
    WriteVInt(block, f.fieldNum);
    block.Push(FlagsByte(f));
    WriteModifiedUtf8(block, f.value);
  }

  method WriteStored(docs: seq<seq<Inverter.StoredField>>) returns (fdt: seq<Byte>, fdx: seq<Byte>)
    ensures fdt == FdtBytes(docs) && fdx == FdxBytes(docs)
  {
    hide FdtBytes, FdxBytes;
    var writer := new StoredStreamWriter();
    assert docs[..0] == [];
    for i := 0 to |docs|
      invariant fresh(writer) && writer.Valid() && writer.docs == docs[..i]
    {
      assert docs[..i + 1] == docs[..i] + [docs[i]];
      writer.AddDoc(docs[i]);
    }
    assert docs[..|docs|] == docs;
    return writer.fdt, writer.fdx;
  }

  // ----- reading undoes writing -----

  function AsRead(fields: seq<Inverter.StoredField>): (r: seq<StoredRaw>)
    ensures |r| == |fields|
    ensures forall i | 0 <= i < |fields| :: r[i] == StoredRaw(fields[i].fieldNum, fields[i].value, fields[i].tokenized, false)
  {
    seq(|fields|, i requires 0 <= i < |fields| => StoredRaw(fields[i].fieldNum, fields[i].value, fields[i].tokenized, false))
  }

  /** The format's widths. */
  predicate Fits(fields: seq<Inverter.StoredField>) {
    |fields| < U64 && forall i | 0 <= i < |fields| :: fields[i].fieldNum < U64 && |fields[i].value| < U64
  }

  lemma {:induction false} EntryRoundTrip(fdt: seq<Byte>, pos: nat, f: Inverter.StoredField, lossy: seq<Byte> -> string)
    requires f.fieldNum < U64 && |f.value| < U64 && Bytes.At(fdt, pos, EntryBytes(f))
    ensures EntryAt(fdt, pos, lossy) == Success(Parsed(StoredRaw(f.fieldNum, f.value, f.tokenized, false), pos + |EntryBytes(f)|))
  {
    hide VInt, VIntAt, StringAt, StringBytes, Bytes.At;
    var a, b, c := VInt(f.fieldNum), [FlagsByte(f)], StringBytes(f.value);
    AtSplit(fdt, pos, a, b + c);
    AtSplit(fdt, pos + |a|, b, c);
    VIntRoundTrip(fdt, pos, f.fieldNum);
    FlagsRead(fdt, pos + |a|, FlagsByte(f));
    StringRoundTrip(fdt, pos + |a| + 1, f.value);
  }

  lemma {:induction false} EntriesRoundTrip(fdt: seq<Byte>, pos: nat, fields: seq<Inverter.StoredField>, lossy: seq<Byte> -> string)
    requires Fits(fields) && Bytes.At(fdt, pos, EntriesBytes(fields))
    ensures EntriesAt(fdt, pos, |fields|, lossy) == Scan(AsRead(fields), None)
    decreases fields
  {
    hide EntryAt, EntryBytes, Bytes.At;
    if fields == [] {
      assert AsRead(fields) == [];
    } else {
      var f, rest := fields[0], fields[1..];
      AtSplit(fdt, pos, EntryBytes(f), EntriesBytes(rest));
      EntryRoundTrip(fdt, pos, f, lossy);
      EntriesRoundTrip(fdt, pos + |EntryBytes(f)|, rest, lossy);
      assert [StoredRaw(f.fieldNum, f.value, f.tokenized, false)] + AsRead(rest) == AsRead(fields);
    }
  }

  lemma {:induction false} FlagsRead(fdt: seq<Byte>, pos: nat, b: Byte)
    requires Bytes.At(fdt, pos, [b])
    ensures ByteAt(fdt, pos) == Success(Parsed(b, pos + 1))
  {
    assert fdt[pos] == fdt[pos..pos + 1][0];
  }

  /** Where a document's pointer and block lie, whatever follows them. */
  lemma {:induction false} DocLies(docs: seq<seq<Inverter.StoredField>>, d: nat)
    requires d < |docs|
    ensures Bytes.At(FdxBytes(docs), 8 * d, BigEndian(|FdtBytes(docs[..d])|, 8))
    ensures Bytes.At(FdtBytes(docs), |FdtBytes(docs[..d])|, BlockBytes(docs[d]))
    decreases |docs|
  {
    hide BlockBytes, BigEndian;
    var before := docs[..|docs| - 1];
    if d < |docs| - 1 {
      DocLies(before, d);
      assert before[..d] == docs[..d];
      StillAt(FdxBytes(before), 8 * d, BigEndian(|FdtBytes(docs[..d])|, 8), BigEndian(|FdtBytes(before)|, 8));
      StillAt(FdtBytes(before), |FdtBytes(docs[..d])|, BlockBytes(docs[d]), BlockBytes(docs[|docs| - 1]));
    }
  }

  lemma {:induction false} StillAt(data: seq<Byte>, pos: nat, s: seq<Byte>, more: seq<Byte>)
    requires Bytes.At(data, pos, s)
    ensures Bytes.At(data + more, pos, s)
  {
    assert (data + more)[pos..pos + |s|] == data[pos..pos + |s|];
  }

  /** Every document's stored fields read back, in order. */
  lemma {:induction false} StoredRoundTrip(docs: seq<seq<Inverter.StoredField>>, d: nat, lossy: seq<Byte> -> string)
    requires d < |docs| && Fits(docs[d]) && |FdtBytes(docs)| < U64
    ensures FieldsAt(FdxBytes(docs), FdtBytes(docs), d, lossy) == Scan(AsRead(docs[d]), None)
  {
    hide FdxBytes, FdtBytes, VInt, VIntAt, IntAt, EntriesBytes, EntriesAt, BigEndian, Bytes.At;
    var fdx, fdt := FdxBytes(docs), FdtBytes(docs);
    var offset := |FdtBytes(docs[..d])|;
    DocLies(docs, d);
    AtSplit(fdt, offset, VInt(|docs[d]|), EntriesBytes(docs[d]));
    AtWithin(fdt, offset, BlockBytes(docs[d]));
    IntRoundTrip(fdx, 8 * d, offset);
    VIntRoundTrip(fdt, offset, |docs[d]|);
    EntriesRoundTrip(fdt, offset + |VInt(|docs[d]|)|, docs[d], lossy);
  }

  lemma {:induction false} AtWithin(data: seq<Byte>, pos: nat, s: seq<Byte>)
    requires Bytes.At(data, pos, s)
    ensures pos + |s| <= |data|
  {
  }
}
