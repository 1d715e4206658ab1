/** The compound file: a directory of offsets and names, then the sub-files back to back. Offsets are
    not known when the directory is written and are patched in place. */
module CompoundFiles {
  import opened Wrappers
  import opened Bytes
  import Postings

  datatype File = File(ext: string, data: seq<Byte>)

  // ----- layout -----

  function DirBytes(segment: string, exts: seq<string>, offsets: seq<nat>): seq<Byte>
    requires |offsets| == |exts|
  {
    if exts == [] then []
    else
      var n := |exts| - 1;
      DirBytes(segment, exts[..n], offsets[..n]) + (BigEndian(offsets[n], 8) + StringBytes(segment + exts[n]))
  }

  /** The directory's size does not depend on the offsets in it. */
  function DirSize(segment: string, exts: seq<string>): nat {
    if exts == [] then 0 else DirSize(segment, exts[..|exts| - 1]) + 8 + |StringBytes(segment + exts[|exts| - 1])|
  }

  function DataBytes(datas: seq<seq<Byte>>): seq<Byte> {
    if datas == [] then [] else DataBytes(datas[..|datas| - 1]) + datas[|datas| - 1]
  }

  /** The first `k` offsets are right, the others not patched yet. */
  function Offsets(base: nat, datas: seq<seq<Byte>>, k: nat): (o: seq<nat>)
    requires k <= |datas|
    ensures |o| == |datas|
    ensures forall i | 0 <= i < |datas| :: o[i] == if i < k then base + |DataBytes(datas[..i])| else 0
  {
    seq(|datas|, i requires 0 <= i < |datas| => if i < k then base + |DataBytes(datas[..i])| else 0)
  }

  function Exts(files: seq<File>): (r: seq<string>)
    ensures |r| == |files| && forall i | 0 <= i < |files| :: r[i] == files[i].ext
  {
    seq(|files|, i requires 0 <= i < |files| => files[i].ext)
  }

  function Datas(files: seq<File>): (r: seq<seq<Byte>>)
    ensures |r| == |files| && forall i | 0 <= i < |files| :: r[i] == files[i].data
  {
    seq(|files|, i requires 0 <= i < |files| => files[i].data)
  }

  /** Where the data begins. */
  function Base(segment: string, files: seq<File>): nat {
    |VInt(|files|)| + DirSize(segment, Exts(files))
  }

  function Packed(segment: string, files: seq<File>): seq<Byte> {
    VInt(|files|) + DirBytes(segment, Exts(files), Offsets(Base(segment, files), Datas(files), |files|)) + DataBytes(Datas(files))
  }

  lemma {:induction false} DirSized(segment: string, exts: seq<string>, offsets: seq<nat>)
    requires |offsets| == |exts|
    ensures |DirBytes(segment, exts, offsets)| == DirSize(segment, exts)
  {
    hide StringBytes, BigEndian;
    if exts != [] {
      DirSized(segment, exts[..|exts| - 1], offsets[..|exts| - 1]);
    }
  }

  lemma {:induction false} DirGrows(segment: string, exts: seq<string>, k: nat)
    requires k < |exts|
    ensures DirSize(segment, exts[..k]) + 8 <= DirSize(segment, exts)
  {
    hide StringBytes;
    if k < |exts| - 1 {
      assert exts[..|exts| - 1][..k] == exts[..k];
      DirGrows(segment, exts[..|exts| - 1], k);
    }
  }

  /** Overwriting the `k`-th offset in place gives the directory with that offset. */
  lemma {:induction false} PatchedDir(segment: string, exts: seq<string>, offsets: seq<nat>, k: nat, v: nat)
    requires |offsets| == |exts| && k < |exts|
    ensures var d, p := DirBytes(segment, exts, offsets), DirSize(segment, exts[..k]);
            p + 8 <= |d| && d[..p] + BigEndian(v, 8) + d[p + 8..] == DirBytes(segment, exts, offsets[k := v])
    decreases |exts|
  {
    hide StringBytes, BigEndian, DirBytes, DirSize;
    var n, p := |exts| - 1, DirSize(segment, exts[..k]);
    var before, last := DirBytes(segment, exts[..n], offsets[..n]), StringBytes(segment + exts[n]);
    DirLast(segment, exts, offsets);
    DirLast(segment, exts, offsets[k := v]);
    DirSized(segment, exts[..n], offsets[..n]);
    if k < n {
      PatchedDir(segment, exts[..n], offsets[..n], k, v);
      assert exts[..n][..k] == exts[..k] && offsets[k := v][..n] == offsets[..n][k := v];
      PatchFront(before, BigEndian(offsets[n], 8) + last, p, BigEndian(v, 8));
    } else {
      assert offsets[k := v][..n] == offsets[..n];
      PatchBack(before, BigEndian(offsets[n], 8), last, BigEndian(v, 8));
    }
  }

  lemma {:induction false} DirLast(segment: string, exts: seq<string>, offsets: seq<nat>)
    requires |offsets| == |exts| > 0
    ensures DirBytes(segment, exts, offsets) ==
              DirBytes(segment, exts[..|exts| - 1], offsets[..|exts| - 1]) + (BigEndian(offsets[|exts| - 1], 8) + StringBytes(segment + exts[|exts| - 1]))
  {
  }

  lemma {:induction false} PatchFront(a: seq<Byte>, b: seq<Byte>, p: nat, w: seq<Byte>)
    requires p + |w| <= |a|
    ensures (a + b)[..p] + w + (a + b)[p + |w|..] == (a[..p] + w + a[p + |w|..]) + b
  {
  }

  lemma {:induction false} PatchBack(a: seq<Byte>, o: seq<Byte>, b: seq<Byte>, w: seq<Byte>)
    requires |o| == |w|
    ensures (a + (o + b))[..|a|] + w + (a + (o + b))[|a| + |w|..] == a + (w + b)
  {
  }

  // ----- the writers -----

  /** The directory with zeros for offsets, and where each of them stands. */
  method WriteDirectory(out: Buffer, segment: string, exts: seq<string>) returns (positions: seq<nat>)
    modifies out
    ensures out.bytes == old(out.bytes) + VInt(|exts|) + DirBytes(segment, exts, seq(|exts|, _ => 0))
    ensures |positions| == |exts|
    ensures forall k | 0 <= k < |exts| :: positions[k] == |old(out.bytes)| + |VInt(|exts|)| + DirSize(segment, exts[..k])
  {
    hide StringBytes, BigEndian, VInt;
    WriteVInt(out, |exts|);
    positions := [];
    ghost var head := out.bytes;
    NoDirectory(segment);
    assert exts[..0] == [];
    for i := 0 to |exts|
      invariant out.bytes == head + DirBytes(segment, exts[..i], seq(i, _ => 0))
      invariant |positions| == i && forall k | 0 <= k < i :: positions[k] == |head| + DirSize(segment, exts[..k])
    {
      DirSized(segment, exts[..i], seq(i, _ => 0));
      positions := positions + [|out.bytes|];
      OneNameMore(segment, exts, i, head);
      out.Extend(BigEndian(0, 8));
      WriteModifiedUtf8(out, segment + exts[i]);
    }
    assert exts[..|exts|] == exts;
  }

  lemma {:induction false} NoDirectory(segment: string)
    ensures DirBytes(segment, [], []) == [] && DirSize(segment, []) == 0
  {
  }

  lemma {:induction false} OneNameMore(segment: string, exts: seq<string>, i: nat, head: seq<Byte>)
    requires i < |exts|
    ensures head + DirBytes(segment, exts[..i], seq(i, _ => 0)) + BigEndian(0, 8) + StringBytes(segment + exts[i])
         == head + DirBytes(segment, exts[..i + 1], seq(i + 1, _ => 0))
  {
    hide StringBytes, BigEndian;
    assert exts[..i + 1][..i] == exts[..i] && seq(i + 1, _ => 0)[..i] == seq(i, _ => 0);
  }

  /** What the buffer holds after `k` sub-files: their offsets patched, their data appended. */
  function PackedUpTo(head: seq<Byte>, segment: string, exts: seq<string>, base: nat, datas: seq<seq<Byte>>, k: nat): seq<Byte>
    requires |exts| == |datas| && k <= |datas|
  {
    head + DirBytes(segment, exts, Offsets(base, datas, k)) + DataBytes(datas[..k])
  }

  /** Patching the next offset. */
  lemma {:induction false} PatchStep(head: seq<Byte>, segment: string, exts: seq<string>, base: nat, datas: seq<seq<Byte>>, k: nat)
    requires |exts| == |datas| && k < |datas| && base == |head| + DirSize(segment, exts)
    ensures var s, p := PackedUpTo(head, segment, exts, base, datas, k), |head| + DirSize(segment, exts[..k]);
            && p + 8 <= |s| && |s| == base + |DataBytes(datas[..k])|
            && s[..p] + BigEndian(|s|, 8) + s[p + 8..] == head + DirBytes(segment, exts, Offsets(base, datas, k + 1)) + DataBytes(datas[..k])
  {
    hide DataBytes, DirBytes, DirSize, BigEndian;
    var offsets, v, p := Offsets(base, datas, k), base + |DataBytes(datas[..k])|, DirSize(segment, exts[..k]);
    var d := DirBytes(segment, exts, offsets);
    DirSized(segment, exts, offsets);
    PatchedDir(segment, exts, offsets, k, v);
    assert Offsets(base, datas, k + 1) == offsets[k := v];
    PatchMiddle(head, d, DataBytes(datas[..k]), p, BigEndian(v, 8));
  }

  lemma {:induction false} PatchMiddle(a: seq<Byte>, d: seq<Byte>, b: seq<Byte>, p: nat, w: seq<Byte>)
    requires p + |w| <= |d|
    ensures var s := a + d + b;
            s[..|a| + p] + w + s[|a| + p + |w|..] == a + (d[..p] + w + d[p + |w|..]) + b
  {
    var s := a + d + b;
    assert s[..|a| + p] == a + d[..p];
    assert s[|a| + p + |w|..] == d[p + |w|..] + b;
  }

  lemma {:induction false} DataStep(datas: seq<seq<Byte>>, k: nat)
    requires k < |datas|
    ensures DataBytes(datas[..k + 1]) == DataBytes(datas[..k]) + datas[k]
  {
    assert datas[..k + 1][..k] == datas[..k];
  }

  lemma {:induction false} NothingPatched(head: seq<Byte>, segment: string, exts: seq<string>, base: nat, datas: seq<seq<Byte>>)
    requires |exts| == |datas|
    ensures PackedUpTo(head, segment, exts, base, datas, 0) == head + DirBytes(segment, exts, seq(|exts|, _ => 0))
  {
    hide DirBytes;
    assert Offsets(base, datas, 0) == seq(|exts|, _ => 0);
    assert datas[..0] == [];
    var d := head + DirBytes(segment, exts, seq(|exts|, _ => 0));
    assert d + [] == d;
  }

  method WriteCfs(segment: string, files: seq<File>) returns (out: Buffer)
    ensures fresh(out) && out.bytes == Packed(segment, files)
  {
    hide DirBytes, DirSize, DataBytes, BigEndian, VInt;
    out := new Buffer();
    ghost var exts, datas, base, head := Exts(files), Datas(files), Base(segment, files), VInt(|files|);
    var positions := WriteDirectory(out, segment, Exts(files));
    NothingPatched(head, segment, exts, base, datas);
    assert [] + head == head;
    for i := 0 to |files|
      invariant out.bytes == PackedUpTo(head, segment, exts, base, datas, i)
    {
      PatchStep(head, segment, exts, base, datas, i);
      out.Patch(positions[i], BigEndian(|out.bytes|, 8));
      DataStep(datas, i);
      Postings.Append(head + DirBytes(segment, exts, Offsets(base, datas, i + 1)), DataBytes(datas[..i]), datas[i]);
      out.Extend(files[i].data);
    }
    assert datas[..|files|] == datas;
  }

  // ----- streaming -----

  /** A sub-file's source: bytes in memory, or a file whose measured length and later contents may
      fail to be read, or disagree. */
  datatype Source = Mem(data: seq<Byte>) | OnDisk(measured: Option<nat>, contents: Option<seq<Byte>>) {
    function Length(): Option<nat> {
      if Mem? then Some(|data|) else measured
    }

    /** What is copied in the end. */
    function Copied(): seq<Byte> {
      if Mem? then data else if contents.Some? then contents.value else []
    }

    /** The source can be read and keeps the length it was measured at. */
    predicate Stable() {
      OnDisk? ==> measured.Some? && contents.Some? && |contents.value| == measured.value
    }
  }

  datatype SourceFile = SourceFile(ext: string, source: Source)

  function Contents(files: seq<SourceFile>): (r: seq<File>)
    ensures |r| == |files| && forall i | 0 <= i < |files| :: r[i] == File(files[i].ext, files[i].source.Copied())
  {
    seq(|files|, i requires 0 <= i < |files| => File(files[i].ext, files[i].source.Copied()))
  }

  /** The bytes of stable sources; the measured lengths of any others. */
  function Measured(files: seq<SourceFile>): (r: seq<nat>)
    requires forall i | 0 <= i < |files| :: files[i].source.Length().Some?
    ensures |r| == |files| && forall i | 0 <= i < |files| :: r[i] == files[i].source.Length().value
  {
    seq(|files|, i requires 0 <= i < |files| => files[i].source.Length().value)
  }

  /** Succeeds exactly when every source stays as measured, and then writes byte for byte what the
      buffering writer would; nothing is written when a length cannot be measured. */
  method WriteCfsStreaming(out: Buffer, segment: string, files: seq<SourceFile>) returns (ok: bool)
    modifies out
    ensures ok <==> forall i | 0 <= i < |files| :: files[i].source.Stable()
    ensures ok ==> out.bytes == old(out.bytes) + Packed(segment, Contents(files))
    ensures (exists i | 0 <= i < |files| :: files[i].source.Length().None?) ==> !ok && out.bytes == old(out.bytes)
  {
    hide DirBytes, DirSize, DataBytes, BigEndian, VInt;
    var dir, measured := PatchedDirectory(segment, files);
    if !measured {
      return false;
    }
    ghost var start := out.bytes;
    out.Extend(dir.bytes);
    ghost var datas, head := Datas(Contents(files)), dir.bytes;
    assert datas[..0] == [];
    NoData();
    assert out.bytes + [] == out.bytes;
    for i := 0 to |files|
      invariant forall j | 0 <= j < i :: files[j].source.Stable()
      invariant dir.bytes == head && out.bytes == start + dir.bytes + DataBytes(datas[..i])
    {
      if !files[i].source.Stable() {
        if files[i].source.contents.Some? {
          out.Extend(files[i].source.contents.value);
        }
        return false;
      }
      DataStep(datas, i);
      Postings.Append(start + dir.bytes, DataBytes(datas[..i]), datas[i]);
      out.Extend(files[i].source.Copied());
    }
    assert datas[..|files|] == datas;
    SameOffsets(segment, files);
    Postings.Append(start, dir.bytes, DataBytes(datas));
    assert dir.bytes + DataBytes(datas) == Packed(segment, Contents(files));
    return true;
  }

  lemma {:induction false} NoData()
    ensures DataBytes([]) == []
  {
  }

  function RunningOffsets(base: nat, lengths: seq<nat>, k: nat): (o: seq<nat>)
    requires k <= |lengths|
    ensures |o| == |lengths|
  {
    seq(|lengths|, i requires 0 <= i < |lengths| => if i < k then base + Sum(lengths[..i]) else 0)
  }

  function Sum(ns: seq<nat>): nat {
    if ns == [] then 0 else Sum(ns[..|ns| - 1]) + ns[|ns| - 1]
  }

  function SourceExts(files: seq<SourceFile>): (r: seq<string>)
    ensures |r| == |files| && forall i | 0 <= i < |files| :: r[i] == files[i].ext
  {
    seq(|files|, i requires 0 <= i < |files| => files[i].ext)
  }

  /** The directory, built and patched in memory from the measured lengths. */
  method PatchedDirectory(segment: string, files: seq<SourceFile>) returns (dir: Buffer, measured: bool)
    ensures fresh(dir)
    ensures measured <==> forall i | 0 <= i < |files| :: files[i].source.Length().Some?
    ensures measured ==> var base := |VInt(|files|)| + DirSize(segment, SourceExts(files));
              dir.bytes == VInt(|files|) + DirBytes(segment, SourceExts(files), RunningOffsets(base, Measured(files), |files|))
  {
    hide DirBytes, DirSize, BigEndian, VInt, Sum, Running, RunningOffsets;
    dir := new Buffer();
    ghost var head, exts := VInt(|files|), SourceExts(files);
    var positions := WriteDirectory(dir, segment, SourceExts(files));
    DirSized(segment, exts, seq(|exts|, _ => 0));
    var base := |dir.bytes|;
    assert [] + head == head;
    NothingRunning(base, |files|);
    var offset, lengths: seq<nat> := base, [];
    ghost var offsets: seq<nat> := seq(|exts|, _ => 0);
    for i := 0 to |files|
      invariant forall j | 0 <= j < i :: files[j].source.Length().Some?
      invariant |lengths| == i && forall j | 0 <= j < i :: lengths[j] == files[j].source.Length().value
      invariant offset == base + Sum(lengths)
      invariant |offsets| == |exts| && Running(offsets, base, lengths, |exts|)
      invariant dir.bytes == head + DirBytes(segment, exts, offsets)
    {
      var len := files[i].source.Length();
      if len.None? {
        return dir, false;
      }
      PatchedDir(segment, exts, offsets, i, offset);
      PatchTail(head, DirBytes(segment, exts, offsets), DirSize(segment, exts[..i]), BigEndian(offset, 8));
      dir.Patch(positions[i], BigEndian(offset, 8));
      RunningStep(offsets, base, lengths, |exts|, len.value);
      offsets := offsets[i := offset];
      offset, lengths := offset + len.value, lengths + [len.value];
    }
    assert lengths == Measured(files);
    RunningDone(offsets, base, lengths);
    return dir, true;
  }

  /** Offsets of the first `|lengths|` sub-files are in place. */
  predicate Running(offsets: seq<nat>, base: nat, lengths: seq<nat>, n: nat) {
    && |offsets| == n >= |lengths|
    && forall j | 0 <= j < n :: offsets[j] == if j < |lengths| then base + Sum(lengths[..j]) else 0
  }

  lemma {:induction false} NothingRunning(base: nat, n: nat)
    ensures Running(seq(n, _ => 0), base, [], n)
    ensures Sum([]) == 0
  {
  }

  lemma {:induction false} RunningStep(offsets: seq<nat>, base: nat, lengths: seq<nat>, n: nat, len: nat)
    requires Running(offsets, base, lengths, n) && |lengths| < n
    ensures |offsets[|lengths| := base + Sum(lengths)]| == n
    ensures Running(offsets[|lengths| := base + Sum(lengths)], base, lengths + [len], n)
    ensures Sum(lengths + [len]) == Sum(lengths) + len
  {
    assert (lengths + [len])[..|lengths|] == lengths;
    assert forall j | 0 <= j < |lengths| :: (lengths + [len])[..j] == lengths[..j];
  }

  lemma {:induction false} RunningDone(offsets: seq<nat>, base: nat, lengths: seq<nat>)
    requires Running(offsets, base, lengths, |lengths|)
    ensures offsets == RunningOffsets(base, lengths, |lengths|)
  {
  }

  lemma {:induction false} PatchTail(a: seq<Byte>, d: seq<Byte>, p: nat, w: seq<Byte>)
    requires p + |w| <= |d|
    ensures var s := a + d; s[..|a| + p] + w + s[|a| + p + |w|..] == a + (d[..p] + w + d[p + |w|..])
  {
  }

  /** Stable sources' running offsets are the offsets of their contents. */
  lemma {:induction false} SameOffsets(segment: string, files: seq<SourceFile>)
    requires forall i | 0 <= i < |files| :: files[i].source.Stable()
    ensures forall i | 0 <= i < |files| :: files[i].source.Length().Some?
    ensures var base := |VInt(|files|)| + DirSize(segment, SourceExts(files));
            && SourceExts(files) == Exts(Contents(files)) && base == Base(segment, Contents(files))
            && RunningOffsets(base, Measured(files), |files|) == Offsets(base, Datas(Contents(files)), |files|)
  {
    hide VInt, DirSize;
    var lengths, datas := Measured(files), Datas(Contents(files));
    assert SourceExts(files) == Exts(Contents(files));
    forall i | 0 <= i < |files| ensures Sum(lengths[..i]) == |DataBytes(datas[..i])| {
      SumIsSize(lengths, datas, i);
    }
  }

  lemma {:induction false} SumIsSize(lengths: seq<nat>, datas: seq<seq<Byte>>, k: nat)
    requires |lengths| == |datas| && k <= |datas| && forall i | 0 <= i < |datas| :: lengths[i] == |datas[i]|
    ensures Sum(lengths[..k]) == |DataBytes(datas[..k])|
  {
    if k > 0 {
      SumIsSize(lengths, datas, k - 1);
      assert lengths[..k][..k - 1] == lengths[..k - 1] && datas[..k][..k - 1] == datas[..k - 1];
    }
  }

  // ----- the reader -----

  datatype DirEntry = DirEntry(offset: nat, name: string)

  datatype SubFile = SubFile(name: string, start: nat, end: nat)

  function DirEntryAt(data: seq<Byte>, pos: nat): (r: Result<Parsed<DirEntry>>)
    ensures r.Success? ==> pos < r.value.next <= |data|
  {
    var offset :- IntAt(data, pos, 8);
    var name :- StringAt(data, offset.next);
    Success(Parsed(DirEntry(offset.value, name.value), name.next))
  }

  function DirAt(data: seq<Byte>, pos: nat, n: nat): Result<Parsed<seq<DirEntry>>>
    decreases n
  {
    if n == 0 then Success(Parsed([], pos))
    else
      var e :- DirEntryAt(data, pos);
      Prepend([e.value], DirAt(data, e.next, n - 1))
  }

  /** Each sub-file runs to the next one's offset, the last to the end. */
  function EndOf(raw: seq<DirEntry>, i: nat, total: nat): nat
    requires i < |raw|
  {
    if i + 1 < |raw| then raw[i + 1].offset else total
  }

  predicate InRange(raw: seq<DirEntry>, total: nat) {
    forall i | 0 <= i < |raw| :: raw[i].offset <= EndOf(raw, i, total) <= total
  }

  function SubFiles(raw: seq<DirEntry>, total: nat): (r: seq<SubFile>)
    ensures |r| == |raw| && forall i | 0 <= i < |raw| :: r[i] == SubFile(raw[i].name, raw[i].offset, EndOf(raw, i, total))
  {
    seq(|raw|, i requires 0 <= i < |raw| => SubFile(raw[i].name, raw[i].offset, EndOf(raw, i, total)))
  }

  datatype CompoundFile = CompoundFile(bytes: seq<Byte>, entries: seq<SubFile>) {

    predicate Valid() {
      forall i | 0 <= i < |entries| :: entries[i].start <= entries[i].end <= |bytes|
    }

    function Find(k: nat, name: string): Option<seq<Byte>>
      requires Valid() && k <= |entries|
      decreases |entries| - k
    {
      if k == |entries| then None
      else if entries[k].name == name then Some(bytes[entries[k].start..entries[k].end])
      else Find(k + 1, name)
    }

    function Sub(name: string): Option<seq<Byte>>
      requires Valid()
    {
      Find(0, name)
    }

    lemma {:induction false} FindsOnly(k: nat, i: nat)
      requires Valid() && k <= i < |entries|
      requires forall j | 0 <= j < |entries| && j != i :: entries[j].name != entries[i].name
      ensures Find(k, entries[i].name) == Some(bytes[entries[i].start..entries[i].end])
      decreases i - k
    {
      if k < i {
        FindsOnly(k + 1, i);
      }
    }
  }

  function Directory(data: seq<Byte>): Result<seq<DirEntry>> {
    var count :- VIntAt(data, 0);
    var dir :- DirAt(data, count.next, count.value);
    Success(dir.value)
  }

  method ReadDirectory(data: seq<Byte>) returns (r: Result<seq<DirEntry>>)
    ensures r == Directory(data)
  {
    hide VIntAt, IntAt, StringAt;
    var count := ReadVInt(data, 0);
    if count.Failure? {
      return Failure(count.error);
    }
    var pos: nat, n, raw: seq<DirEntry> := count.value.next, count.value.value, [];
    ghost var all := DirAt(data, pos, n);
    PrependNothing(all);
    for i := 0 to n
      invariant |raw| == i && all == Prepend(raw, DirAt(data, pos, n - i))
    {
      var offset := IntAt(data, pos, 8);
      if offset.Failure? {
        return Failure(offset.error);
      }
      var name := ReadModifiedUtf8(data, offset.value.next);
      if name.Failure? {
        return Failure(name.error);
      }
      PrependMore(raw, DirEntry(offset.value.value, name.value.value), DirAt(data, name.value.next, n - i - 1));
      raw, pos := raw + [DirEntry(offset.value.value, name.value.value)], name.value.next;
    }
    assert raw + [] == raw;
    return Success(raw);
  }

  /** Opens exactly when the directory decodes and every offset is in range and in order; the
      sub-files are then safe to slice. */
  method Open(data: seq<Byte>) returns (r: Result<CompoundFile>)
    ensures Directory(data).Failure? ==> r == Failure(Directory(data).error)
    ensures Directory(data).Success? && !InRange(Directory(data).value, |data|) ==> r == Failure(OutOfRange)
    ensures Directory(data).Success? && InRange(Directory(data).value, |data|) ==>
              r == Success(CompoundFile(data, SubFiles(Directory(data).value, |data|))) && r.value.Valid()
  {
    hide Directory;
    var total := |data|;
    var dir := ReadDirectory(data);
    if dir.Failure? {
      return Failure(dir.error);
    }
    var raw, entries: seq<SubFile> := dir.value, [];
    for i := 0 to |raw|
      invariant |entries| == i
      invariant forall j | 0 <= j < i :: raw[j].offset <= EndOf(raw, j, total) <= total
      invariant forall j | 0 <= j < i :: entries[j] == SubFile(raw[j].name, raw[j].offset, EndOf(raw, j, total))
    {
      var start, end := raw[i].offset, if i + 1 < |raw| then raw[i + 1].offset else total;
      if start > end || end > total {
        return Failure(OutOfRange);
      }
      entries := entries + [SubFile(raw[i].name, start, end)];
    }
    assert entries == SubFiles(raw, total);
    return Success(CompoundFile(data, entries));
  }

  // ----- opening undoes packing -----

  /** The directory entries that packing writes. */
  function RawEntries(segment: string, files: seq<File>): (r: seq<DirEntry>)
    ensures |r| == |files|
    ensures forall i | 0 <= i < |files| ::
              r[i] == DirEntry(Base(segment, files) + |DataBytes(Datas(files)[..i])|, segment + files[i].ext)
  {
    seq(|files|, i requires 0 <= i < |files| => DirEntry(Base(segment, files) + |DataBytes(Datas(files)[..i])|, segment + files[i].ext))
  }

  /** The format's widths. */
  predicate Fits(segment: string, files: seq<File>) {
    |files| < U64 && |Packed(segment, files)| < U64 && forall i | 0 <= i < |files| :: |segment + files[i].ext| < U64
  }

  lemma {:induction false} StillAt(data: seq<Byte>, pos: nat, s: seq<Byte>, more: seq<Byte>)
    requires Bytes.At(data, pos, s)
    ensures Bytes.At(data + more, pos, s)
  {
    assert (data + more)[pos..pos + |s|] == data[pos..pos + |s|];
  }

  lemma {:induction false} Behind(head: seq<Byte>, data: seq<Byte>, pos: nat, s: seq<Byte>)
    requires Bytes.At(data, pos, s)
    ensures Bytes.At(head + data, |head| + pos, s)
  {
    assert (head + data)[|head| + pos..|head| + pos + |s|] == data[pos..pos + |s|];
  }

  lemma {:induction false} EntryLies(segment: string, exts: seq<string>, offsets: seq<nat>, k: nat)
    requires |offsets| == |exts| && k < |exts|
    ensures Bytes.At(DirBytes(segment, exts, offsets), DirSize(segment, exts[..k]), BigEndian(offsets[k], 8) + StringBytes(segment + exts[k]))
    decreases |exts|
  {
    hide StringBytes, BigEndian;
    var n := |exts| - 1;
    DirSized(segment, exts[..n], offsets[..n]);
    if k < n {
      assert exts[..n][..k] == exts[..k];
      EntryLies(segment, exts[..n], offsets[..n], k);
      StillAt(DirBytes(segment, exts[..n], offsets[..n]), DirSize(segment, exts[..k]), BigEndian(offsets[k], 8) + StringBytes(segment + exts[k]),
              BigEndian(offsets[n], 8) + StringBytes(segment + exts[n]));
    }
  }

  lemma {:induction false} DataLies(datas: seq<seq<Byte>>, k: nat)
    requires k < |datas|
    ensures Bytes.At(DataBytes(datas), |DataBytes(datas[..k])|, datas[k])
    decreases |datas|
  {
    var n := |datas| - 1;
    if k < n {
      assert datas[..n][..k] == datas[..k];
      DataLies(datas[..n], k);
      StillAt(DataBytes(datas[..n]), |DataBytes(datas[..k])|, datas[k], datas[n]);
    }
  }

  lemma {:induction false} EntryDecodes(segment: string, files: seq<File>, k: nat)
    requires Fits(segment, files) && k < |files|
    ensures var pos := |VInt(|files|)| + DirSize(segment, Exts(files)[..k]);
            DirEntryAt(Packed(segment, files), pos) ==
              Success(Parsed(RawEntries(segment, files)[k], |VInt(|files|)| + DirSize(segment, Exts(files)[..k + 1])))
  {
    hide DirBytes, DataBytes, BigEndian, StringBytes, VInt, StringAt, IntAt;
    var exts, datas, base, head := Exts(files), Datas(files), Base(segment, files), VInt(|files|);
    var offsets := Offsets(base, datas, |files|);
    var dir, size := DirBytes(segment, exts, offsets), DirSize(segment, exts[..k]);
    var pos, name := |head| + size, segment + exts[k];
    EntryLies(segment, exts, offsets, k);
    Behind(head, dir, size, BigEndian(offsets[k], 8) + StringBytes(name));
    StillAt(head + dir, pos, BigEndian(offsets[k], 8) + StringBytes(name), DataBytes(datas));
    AtSplit(Packed(segment, files), pos, BigEndian(offsets[k], 8), StringBytes(name));
    OffsetFits(segment, files, k);
    IntRoundTrip(Packed(segment, files), pos, offsets[k]);
    StringRoundTrip(Packed(segment, files), pos + 8, name);
    assert exts[..k + 1][..k] == exts[..k];
  }

  /** Offsets lie within the file. */
  lemma {:induction false} OffsetFits(segment: string, files: seq<File>, k: nat)
    requires k <= |files|
    ensures Base(segment, files) + |DataBytes(Datas(files)[..k])| <= |Packed(segment, files)|
    ensures k == |files| ==> Base(segment, files) + |DataBytes(Datas(files)[..k])| == |Packed(segment, files)|
    decreases |files| - k
  {
    hide DirBytes, BigEndian, StringBytes, VInt, DirSize;
    var datas := Datas(files);
    DirSized(segment, Exts(files), Offsets(Base(segment, files), datas, |files|));
    if k == |files| {
      assert datas[..k] == datas;
    } else {
      OffsetFits(segment, files, k + 1);
      DataStep(datas, k);
    }
  }

  lemma {:induction false} BaseIs(segment: string, files: seq<File>)
    ensures Base(segment, files) == |VInt(|files|)| + DirSize(segment, Exts(files))
  {
  }

  lemma {:induction false} DirDecodes(segment: string, files: seq<File>, k: nat)
    requires Fits(segment, files) && k <= |files|
    ensures DirAt(Packed(segment, files), |VInt(|files|)| + DirSize(segment, Exts(files)[..k]), |files| - k)
         == Success(Parsed(RawEntries(segment, files)[k..], Base(segment, files)))
    decreases |files| - k
  {
    hide Packed, DirSize, VInt, DirEntryAt, Fits, Base, RawEntries, DataBytes, Datas;
    BaseIs(segment, files);
    if k == |files| {
      assert Exts(files)[..k] == Exts(files);
    } else {
      EntryDecodes(segment, files, k);
      DirDecodes(segment, files, k + 1);
      var raw := RawEntries(segment, files);
      assert [raw[k]] + raw[k + 1..] == raw[k..];
    }
  }

  /** Packing sub-files under distinct names and opening the result gives every one back, byte for byte. */
  lemma {:induction false} PackRoundTrip(segment: string, files: seq<File>)
    requires Fits(segment, files) && forall i, j | 0 <= i < j < |files| :: files[i].ext != files[j].ext
    ensures var data := Packed(segment, files);
            && Directory(data).Success? && InRange(Directory(data).value, |data|)
            && forall i | 0 <= i < |files| ::
                 CompoundFile(data, SubFiles(Directory(data).value, |data|)).Sub(segment + files[i].ext) == Some(files[i].data)
  {
    hide Packed, Directory, Fits, CompoundFile.Sub, SubFiles, RawEntries;
    DirectoryDecodes(segment, files);
    RangesHold(segment, files);
    forall i | 0 <= i < |files|
      ensures CompoundFile(Packed(segment, files), SubFiles(RawEntries(segment, files), |Packed(segment, files)|)).Sub(segment + files[i].ext) == Some(files[i].data)
    {
      SubGives(segment, files, i);
    }
  }

  lemma {:induction false} SubGives(segment: string, files: seq<File>, i: nat)
    requires i < |files| && forall i, j | 0 <= i < j < |files| :: files[i].ext != files[j].ext
    ensures var data := Packed(segment, files);
            var cf := CompoundFile(data, SubFiles(RawEntries(segment, files), |data|));
            cf.Valid() && cf.Sub(segment + files[i].ext) == Some(files[i].data)
  {
    hide Packed, DataBytes, Base, CompoundFile.Sub, Exts, Datas;
    var data := Packed(segment, files);
    RangesHold(segment, files);
    var cf := CompoundFile(data, SubFiles(RawEntries(segment, files), |data|));
    NamesDiffer(segment, files, i);
    SubFound(cf, i);
    DataFound(segment, files, i);
  }

  lemma {:induction false} DirectoryDecodes(segment: string, files: seq<File>)
    requires Fits(segment, files)
    ensures Directory(Packed(segment, files)) == Success(RawEntries(segment, files))
  {
    hide DirBytes, DataBytes, VInt, VIntAt, DirAt;
    var data, head := Packed(segment, files), VInt(|files|);
    assert Bytes.At(data, 0, head) by {
      assert data[0..|head|] == head;
    }
    VIntRoundTrip(data, 0, |files|);
    DirDecodes(segment, files, 0);
    assert Exts(files)[..0] == [] && RawEntries(segment, files)[0..] == RawEntries(segment, files);
  }

  lemma {:induction false} RangesHold(segment: string, files: seq<File>)
    ensures InRange(RawEntries(segment, files), |Packed(segment, files)|)
    ensures forall i | 0 <= i < |files| ::
              EndOf(RawEntries(segment, files), i, |Packed(segment, files)|) == RawEntries(segment, files)[i].offset + |files[i].data|
  {
    hide Packed, DataBytes, Base;
    var raw, total := RawEntries(segment, files), |Packed(segment, files)|;
    forall i | 0 <= i < |files|
      ensures EndOf(raw, i, total) == raw[i].offset + |files[i].data| && EndOf(raw, i, total) <= total
    {
      DataStep(Datas(files), i);
      OffsetFits(segment, files, i + 1);
    }
  }

  lemma {:induction false} NamesDiffer(segment: string, files: seq<File>, i: nat)
    requires i < |files| && forall i, j | 0 <= i < j < |files| :: files[i].ext != files[j].ext
    ensures forall j | 0 <= j < |files| && j != i :: segment + files[j].ext != segment + files[i].ext
  {
    forall j | 0 <= j < |files| && j != i ensures segment + files[j].ext != segment + files[i].ext {
      assert (segment + files[j].ext)[|segment|..] == files[j].ext;
      assert (segment + files[i].ext)[|segment|..] == files[i].ext;
    }
  }

  lemma {:induction false} SubFound(cf: CompoundFile, i: nat)
    requires cf.Valid() && i < |cf.entries|
    requires forall j | 0 <= j < |cf.entries| && j != i :: cf.entries[j].name != cf.entries[i].name
    ensures cf.Sub(cf.entries[i].name) == Some(cf.bytes[cf.entries[i].start..cf.entries[i].end])
  {
    cf.FindsOnly(0, i);
  }

  lemma {:induction false} DataFound(segment: string, files: seq<File>, i: nat)
    requires i < |files|
    ensures var start := RawEntries(segment, files)[i].offset;
            Bytes.At(Packed(segment, files), start, files[i].data)
  {
    hide DirBytes, DataBytes, VInt, DirSize;
    var datas, head := Datas(files), VInt(|files|);
    var dir := DirBytes(segment, Exts(files), Offsets(Base(segment, files), datas, |files|));
    DirSized(segment, Exts(files), Offsets(Base(segment, files), datas, |files|));
    DataLies(datas, i);
    Behind(head + dir, DataBytes(datas), |DataBytes(datas[..i])|, datas[i]);
  }
}
