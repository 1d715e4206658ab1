/** Byte primitives of the index format: varints, big-endian integers and modified UTF-8.
    Functions named `...At` say what a read at a position yields; the methods are the loops. */
module Bytes {
  import opened Wrappers

  type Byte = b: int | 0 <= b < 256

  const U32: nat := 0x1_0000_0000
  const U63: nat := 0x8000_0000_0000_0000
  const U64: nat := 0x1_0000_0000_0000_0000

  /** A growable byte vector held by mutable reference. */
  class Buffer {
    var bytes: seq<Byte>

    constructor ()
      ensures bytes == []
    {
      bytes := [];
    }

    method Push(b: Byte)
      modifies this
      ensures bytes == old(bytes) + [b]
    {
      bytes := bytes + [b];
    }

    method Extend(s: seq<Byte>)
      modifies this
      ensures bytes == old(bytes) + s
    {
      bytes := bytes + s;
    }

    /** Overwrites in place: the back-patch of an offset or a count. */
    method Patch(at: nat, s: seq<Byte>)
      requires at + |s| <= |bytes|
      modifies this
      ensures bytes == old(bytes)[..at] + s + old(bytes)[at + |s|..]
    {
      bytes := bytes[..at] + s + bytes[at + |s|..];
    }
  }

  /** `s` is what `data` holds from `pos` on. */
  predicate At(data: seq<Byte>, pos: nat, s: seq<Byte>) {
    pos + |s| <= |data| && data[pos..pos + |s|] == s
  }

  lemma {:induction false} AtSplit(data: seq<Byte>, pos: nat, a: seq<Byte>, b: seq<Byte>)
    requires At(data, pos, a + b)
    ensures At(data, pos, a) && At(data, pos + |a|, b)
  {
    var s := data[pos..pos + |a + b|];
    assert data[pos..pos + |a|] == s[..|a|] == a;
    assert data[pos + |a|..pos + |a| + |b|] == s[|a|..] == b;
  }

  // ----- varints -----

  /** Unsigned LEB128 (section 7.6 of DWARF version 5). */
  function VInt(v: nat): (s: seq<Byte>)
    ensures |s| >= 1
  {
    if v < 128 then [v] else [v % 128 + 128] + VInt(v / 128)
  }

  /** The groups from `pos` on as one number, when `k` groups were read before. */
  function GroupsAt(data: seq<Byte>, pos: nat, k: nat): (r: Result<Parsed<nat>>)
    ensures r.Success? ==> pos < r.value.next <= |data|
    decreases |data| - pos
  {
    if pos >= |data| then Failure(Truncated(pos))
    else if k >= 10 then Failure(Overlong)
    else if data[pos] < 128 then Success(Parsed(data[pos], pos + 1))
    else
      var rest :- GroupsAt(data, pos + 1, k + 1);
      Success(Parsed(data[pos] % 128 + 128 * rest.value, rest.next))
  }

  function VIntAt(data: seq<Byte>, pos: nat): (r: Result<Parsed<nat>>)
    ensures r.Success? ==> pos < r.value.next <= |data| && r.value.value < U64
  {
    var g :- GroupsAt(data, pos, 0);
    Success(Parsed(g.value % U64, g.next))
  }

  method WriteVInt(buf: Buffer, v: nat)
    modifies buf
    ensures buf.bytes == old(buf.bytes) + VInt(v)
  {
    var rest := v;
    while true
      invariant buf.bytes + VInt(rest) == old(buf.bytes) + VInt(v)
      decreases rest
    {
      var b := rest % 128;
      ghost var was := rest;
      rest := rest / 128;
      if rest != 0 {
        assert VInt(was) == [b + 128] + VInt(rest);
        b := b + 128;
      } else {
        assert VInt(was) == [b];
      }
      ghost var before := buf.bytes;
      buf.Push(b);
      if rest == 0 {
        return;
      }
      assert before + VInt(was) == buf.bytes + VInt(rest);
    }
  }

  function Pow128(k: nat): (p: nat)
    ensures p >= 1
  {
    if k == 0 then 1 else 128 * Pow128(k - 1)
  }

  lemma {:induction false} Pow128Values()
    ensures Pow128(9) == U63 && Pow128(1) == 128
    ensures Pow128(8) * 128 == U63
  {
    assert Pow128(1) == 128 && Pow128(2) == 0x4000 && Pow128(3) == 0x20_0000 && Pow128(4) == 0x1000_0000;
    assert Pow128(5) == 128 * 0x1000_0000 && Pow128(6) == 0x4000 * 0x1000_0000;
    assert Pow128(7) == 0x20_0000 * 0x1000_0000 && Pow128(8) == 0x100_0000_0000_0000;
  }

  lemma {:induction false} Pow128Monotone(j: nat, k: nat)
    requires j <= k
    ensures Pow128(j) <= Pow128(k)
  {
    if j < k {
      Pow128Monotone(j, k - 1);
    }
  }

  /** What is left to read, `rest`, completes the `k` groups accumulated in `acc` to `total`. */
  ghost predicate Completes(total: Result<Parsed<nat>>, acc: nat, k: nat, rest: Result<Parsed<nat>>) {
    && (k <= 9 ==> acc < Pow128(k))
    && (rest.Failure? ==> total == rest)
    && (rest.Success? ==>
          && k <= 9 && total.Success? && total.value.next == rest.value.next
          && total.value.value == acc + Pow128(k) * rest.value.value)
  }

  /** The OR of a 7-bit group shifted to a position above every bit set so far is an addition; at
      the tenth group the shift leaves the 64-bit word and only the group's lowest bit stays. */
  method ReadVInt(data: seq<Byte>, pos: nat) returns (r: Result<Parsed<nat>>)
    ensures r == VIntAt(data, pos)
  {
    hide GroupsAt, Completes, Pow128;
    var p: nat, acc: nat, k: nat := pos, 0, 0;
    NoGroupsRead(GroupsAt(data, pos, 0));
    while true
      invariant pos <= p && k <= 10
      invariant Completes(GroupsAt(data, pos, 0), acc, k, GroupsAt(data, p, k))
      decreases |data| - p
    {
      GroupsEnd(data, p, k, acc, GroupsAt(data, pos, 0));
      if p >= |data| {
        return Failure(Truncated(p));
      }
      var b := data[p];
      p := p + 1;
      if k >= 10 {
        return Failure(Overlong);
      }
      ghost var before := acc;
      acc := acc + (b % 128 * Pow128(k)) % U64;
      if b < 128 {
        LastGroup(before, b, k);
        return Success(Parsed(acc, p));
      }
      NextGroup(data, p - 1, k, before, GroupsAt(data, pos, 0));
      k := k + 1;
    }
  }

  lemma {:induction false} NoGroupsRead(total: Result<Parsed<nat>>)
    ensures Completes(total, 0, 0, total)
  {
  }

  /** How a varint's reading ends at a position: out of data, over-long, or at its last group. */
  lemma {:induction false} GroupsEnd(data: seq<Byte>, p: nat, k: nat, acc: nat, total: Result<Parsed<nat>>)
    requires Completes(total, acc, k, GroupsAt(data, p, k)) && k <= 10
    ensures p >= |data| ==> total == Failure(Truncated(p))
    ensures p < |data| && k >= 10 ==> total == Failure(Overlong)
    ensures p < |data| && k < 10 && data[p] < 128 ==> acc < Pow128(k) && total == Success(Parsed(acc + Pow128(k) * data[p], p + 1))
  {
    hide Pow128;
  }

  lemma {:induction false} LastGroup(acc: nat, b: Byte, k: nat)
    requires b < 128 && k <= 9 && acc < Pow128(k)
    ensures acc + (b % 128 * Pow128(k)) % U64 == (acc + Pow128(k) * b) % U64
  {
    hide Pow128;
    Pow128Values();
    assert b % 128 == b;
    if k < 9 {
      ShiftFits(b, k);
      NoWrap(acc, b * Pow128(k));
      assert Pow128(k) * b == b * Pow128(k);
    } else {
      TopGroup(acc, b);
    }
  }

  lemma {:induction false} NoWrap(acc: nat, g: nat)
    requires acc + g < U64
    ensures acc + g % U64 == (acc + g) % U64
  {
  }

  lemma {:induction false} NextGroup(data: seq<Byte>, p: nat, k: nat, acc: nat, total: Result<Parsed<nat>>)
    requires p < |data| && k <= 9 && data[p] >= 128
    requires Completes(total, acc, k, GroupsAt(data, p, k))
    ensures Completes(total, acc + (data[p] % 128 * Pow128(k)) % U64, k + 1, GroupsAt(data, p + 1, k + 1))
  {
    hide Pow128, GroupsAt;
    var b, rest := data[p], GroupsAt(data, p + 1, k + 1);
    GroupsUnfold(data, p, k);
    if k < 9 {
      NextAcc(acc, b % 128, k);
      if rest.Success? {
        GroupStep(acc, b, k, rest.value.value);
      }
    }
  }

  lemma {:induction false} NextAcc(acc: nat, g: nat, k: nat)
    requires g < 128 && k < 9 && acc < Pow128(k)
    ensures acc + (g * Pow128(k)) % U64 == acc + g * Pow128(k) < Pow128(k + 1)
  {
    hide Pow128;
    ShiftFits(g, k);
    NoWrap(0, g * Pow128(k));
  }

  lemma {:induction false} GroupsUnfold(data: seq<Byte>, p: nat, k: nat)
    requires p < |data| && k <= 9 && data[p] >= 128
    ensures var rest := GroupsAt(data, p + 1, k + 1);
            && (rest.Failure? ==> GroupsAt(data, p, k) == Failure(rest.error))
            && (rest.Success? ==> k < 9 && GroupsAt(data, p, k) == Success(Parsed(data[p] % 128 + 128 * rest.value.value, rest.value.next)))
  {
  }

  lemma {:induction false} ShiftFits(g: nat, k: nat)
    requires g < 128 && k < 9
    ensures g * Pow128(k) < U64 && g * Pow128(k) + Pow128(k) <= Pow128(k + 1)
    ensures Pow128(k + 1) <= U63
  {
    Pow128Values();
    Pow128Monotone(k + 1, 9);
    assert (g + 1) * Pow128(k) <= 128 * Pow128(k);
  }

  lemma {:induction false} TopGroup(acc: nat, b: Byte)
    requires acc < U63
    ensures (b % 128 * U63) % U64 == b % 2 * U63
    ensures (acc + U63 * b) % U64 == acc + b % 2 * U63
  {
    var half, bit := b / 2, b % 2;
    assert b == 2 * half + bit;
    assert U63 * b == U64 * half + U63 * bit;
    ModAdd(acc + U63 * bit, half);
    var g := b % 128;
    assert g == 2 * (g / 2) + bit;
    assert g * U63 == U64 * (g / 2) + U63 * bit;
    ModAdd(U63 * bit, g / 2);
  }

  lemma {:induction false} ModAdd(x: nat, q: nat)
    requires x < U64
    ensures (x + U64 * q) % U64 == x
  {
  }

  lemma {:induction false} GroupStep(acc: nat, b: Byte, k: nat, rest: nat)
    ensures acc + Pow128(k) * (b % 128 + 128 * rest) == (acc + b % 128 * Pow128(k)) + Pow128(k + 1) * rest
  {
    assert Pow128(k) * (b % 128 + 128 * rest) == Pow128(k) * (b % 128) + Pow128(k) * (128 * rest);
    assert Pow128(k) * (128 * rest) == (128 * Pow128(k)) * rest;
  }

  /** Every 64-bit value reads back, whatever surrounds its bytes. */
  lemma {:induction false} VIntRoundTrip(data: seq<Byte>, pos: nat, v: nat)
    requires v < U64 && At(data, pos, VInt(v))
    ensures VIntAt(data, pos) == Success(Parsed(v, pos + |VInt(v)|))
  {
    GroupsRoundTrip(data, pos, v, 0);
  }

  lemma {:induction false} GroupsRoundTrip(data: seq<Byte>, pos: nat, v: nat, k: nat)
    requires k <= 9 && v * Pow128(k) < U64 && At(data, pos, VInt(v))
    ensures GroupsAt(data, pos, k) == Success(Parsed(v, pos + |VInt(v)|))
    decreases v
  {
    hide Pow128;
    assert data[pos] == data[pos..pos + |VInt(v)|][0];
    if v < 128 {
    } else {
      NextDigit(v, k);
      AtSplit(data, pos, [v % 128 + 128], VInt(v / 128));
      GroupsRoundTrip(data, pos + 1, v / 128, k + 1);
    }
  }

  lemma {:induction false} NextDigit(v: nat, k: nat)
    requires v >= 128 && k <= 9 && v * Pow128(k) < U64
    ensures k < 9 && v / 128 * Pow128(k + 1) < U64
  {
    Pow128Values();
    assert v / 128 * (128 * Pow128(k)) == (v / 128 * 128) * Pow128(k) <= v * Pow128(k);
  }

  // ----- big-endian integers -----

  function BigEndian(v: nat, n: nat): (s: seq<Byte>)
    ensures |s| == n
  {
    if n == 0 then [] else BigEndian(v / 256, n - 1) + [v % 256]
  }

  function FromBigEndian(s: seq<Byte>): nat {
    if s == [] then 0 else FromBigEndian(s[..|s| - 1]) * 256 + s[|s| - 1]
  }

  function Pow256(n: nat): nat {
    if n == 0 then 1 else 256 * Pow256(n - 1)
  }

  lemma {:induction false} BigEndianRoundTrip(v: nat, n: nat)
    requires v < Pow256(n)
    ensures FromBigEndian(BigEndian(v, n)) == v
  {
    if n > 0 {
      BigEndianRoundTrip(v / 256, n - 1);
      var s := BigEndian(v, n);
      assert s[..n - 1] == BigEndian(v / 256, n - 1);
    }
  }

  /** A fixed-width big-endian read (`read_u32_be` is `n == 4`, `read_u64_be` is `n == 8`). */
  function IntAt(data: seq<Byte>, pos: nat, n: nat): (r: Result<Parsed<nat>>)
    ensures r.Success? ==> r.value.next == pos + n <= |data|
  {
    if pos + n > |data| then Failure(Truncated(pos))
    else Success(Parsed(FromBigEndian(data[pos..pos + n]), pos + n))
  }

  lemma {:induction false} IntRoundTrip(data: seq<Byte>, pos: nat, v: nat)
    requires v < U64 && At(data, pos, BigEndian(v, 8))
    ensures IntAt(data, pos, 8) == Success(Parsed(v, pos + 8))
  {
    assert Pow256(4) == U32 && Pow256(8) == U64;
    BigEndianRoundTrip(v, 8);
  }

  // ----- modified UTF-8 -----

  /** UTF-8 (section 3 of RFC 3629), except that NUL takes two bytes. */
  function CharBytes(c: char): (s: seq<Byte>)
    ensures 1 <= |s| <= 4
  {
    var n := c as int;
    if n == 0 then [0xC0, 0x80]
    else if n < 0x80 then [n]
    else if n < 0x800 then [0xC0 + n / 64, 0x80 + n % 64]
    else if n < 0x1_0000 then [0xE0 + n / 4096, 0x80 + n / 64 % 64, 0x80 + n % 64]
    else [0xF0 + n / 262144, 0x80 + n / 4096 % 64, 0x80 + n / 64 % 64, 0x80 + n % 64]
  }

  function CharsBytes(s: string): seq<Byte> {
    if s == [] then [] else CharBytes(s[0]) + CharsBytes(s[1..])
  }

  /** A string on disk: its number of code points, then the code points. */
  function StringBytes(s: string): seq<Byte> {
    VInt(|s|) + CharsBytes(s)
  }

  /** A number that is no scalar value decodes to the replacement character. */
  function ToChar(n: nat): char {
    if n < 0xD800 || 0xE000 <= n < 0x11_0000 then n as char else '\U{FFFD}'
  }

  function ByteAt(data: seq<Byte>, pos: nat): (r: Result<Parsed<Byte>>)
    ensures r.Success? ==> r.value.next == pos + 1 <= |data|
  {
    if pos < |data| then Success(Parsed(data[pos], pos + 1)) else Failure(Truncated(pos))
  }

  function CharAt(data: seq<Byte>, pos: nat): (r: Result<Parsed<char>>)
    ensures r.Success? ==> pos < r.value.next <= |data|
  {
    var b0 :- ByteAt(data, pos);
    if b0.value < 0x80 then Success(Parsed(ToChar(b0.value), b0.next))
    else if 0xC0 <= b0.value < 0xE0 then
      var b1 :- ByteAt(data, b0.next);
      Success(Parsed(ToChar(b0.value % 32 * 64 + b1.value % 64), b1.next))
    else if 0xE0 <= b0.value < 0xF0 then
      var b1 :- ByteAt(data, b0.next);
      var b2 :- ByteAt(data, b1.next);
      Success(Parsed(ToChar(b0.value % 16 * 4096 + b1.value % 64 * 64 + b2.value % 64), b2.next))
    else
      var b1 :- ByteAt(data, b0.next);
      var b2 :- ByteAt(data, b1.next);
      var b3 :- ByteAt(data, b2.next);
      Success(Parsed(ToChar(b0.value % 8 * 262144 + b1.value % 64 * 4096 + b2.value % 64 * 64 + b3.value % 64), b3.next))
  }

  function CharsAt(data: seq<Byte>, pos: nat, n: nat): (r: Result<Parsed<string>>)
    ensures r.Success? ==> pos + n <= r.value.next && |r.value.value| == n
    ensures r.Success? && n > 0 ==> r.value.next <= |data|
    decreases n
  {
    if n == 0 then Success(Parsed([], pos))
    else
      var c :- CharAt(data, pos);
      var rest :- CharsAt(data, c.next, n - 1);
      Success(Parsed([c.value] + rest.value, rest.next))
  }

  function StringAt(data: seq<Byte>, pos: nat): (r: Result<Parsed<string>>)
    ensures r.Success? ==> pos < r.value.next <= |data|
  {
    var n :- VIntAt(data, pos);
    CharsAt(data, n.next, n.value)
  }

  lemma {:induction false} Joined(a: seq<Byte>, b: seq<Byte>, c: seq<Byte>)
    ensures a + (b + c) == (a + b) + c
  {
  }

  method WriteModifiedUtf8(buf: Buffer, s: string)
    modifies buf
    ensures buf.bytes == old(buf.bytes) + StringBytes(s)
  {
    hide CharBytes, VInt;
    WriteVInt(buf, |s|);
    ghost var start := buf.bytes;
    assert s[0..] == s;
    for i := 0 to |s|
      invariant buf.bytes + CharsBytes(s[i..]) == start + CharsBytes(s)
    {
      assert s[i..][1..] == s[i + 1..];
      Joined(buf.bytes, CharBytes(s[i]), CharsBytes(s[i + 1..]));
      buf.Extend(CharBytes(s[i]));
    }
    assert buf.bytes + [] == buf.bytes;
    Joined(old(buf.bytes), VInt(|s|), CharsBytes(s));
  }

  method ReadModifiedUtf8(data: seq<Byte>, pos: nat) returns (r: Result<Parsed<string>>)
    ensures r == StringAt(data, pos)
  {
    hide GroupsAt, CharAt;
    var count := ReadVInt(data, pos);
    if count.Failure? {
      return Failure(count.error);
    }
    var n, p, s := count.value.value, count.value.next, "";
    PrependNothing(CharsAt(data, p, n));
    for i := 0 to n
      invariant StringAt(data, pos) == Prepend(s, CharsAt(data, p, n - i))
    {
      var c := CharAt(data, p);
      if c.Failure? {
        return Failure(c.error);
      }
      PrependMore(s, c.value.value, CharsAt(data, c.value.next, n - i - 1));
      s, p := s + [c.value.value], c.value.next;
    }
    assert s + [] == s;
    return Success(Parsed(s, p));
  }

  /** Steps over the string without decoding it: on every byte string, corrupt or not, it stops
      where the reader stops and fails with the reader's error. */
  method SkipModifiedUtf8(data: seq<Byte>, pos: nat) returns (r: Result<nat>)
    ensures StringAt(data, pos).Success? ==> r == Success(StringAt(data, pos).value.next)
    ensures StringAt(data, pos).Failure? ==> r == Failure(StringAt(data, pos).error)
  {
    hide VIntAt, CharAt;
    var count := ReadVInt(data, pos);
    if count.Failure? {
      return Failure(count.error);
    }
    var n, p := count.value.value, count.value.next;
    ghost var s := "";
    PrependNothing(CharsAt(data, p, n));
    for i := 0 to n
      invariant StringAt(data, pos) == Prepend(s, CharsAt(data, p, n - i))
    {
      ghost var c := CharAt(data, p);
      var next := SkipChar(data, p);
      if next.Failure? {
        return Failure(next.error);
      }
      p := next.value;
      PrependMore(s, c.value.value, CharsAt(data, p, n - i - 1));
      s := s + [c.value.value];
    }
    return Success(p);
  }

  /** Steps over one character by its first byte and its continuation bytes. */
  method SkipChar(data: seq<Byte>, pos: nat) returns (r: Result<nat>)
    ensures CharAt(data, pos).Success? ==> r == Success(CharAt(data, pos).value.next)
    ensures CharAt(data, pos).Failure? ==> r == Failure(CharAt(data, pos).error)
  {
    hide ToChar;
    var b0 := ByteAt(data, pos);
    if b0.Failure? {
      return Failure(b0.error);
    }
    var p: nat := b0.value.next;
    var continuation := if b0.value.value < 0x80 then 0 else if 0xC0 <= b0.value.value < 0xE0 then 1
    else if 0xE0 <= b0.value.value < 0xF0 then 2 else 3;
    for j := 0 to continuation
      invariant p == pos + 1 + j <= |data|
    {
      var b := ByteAt(data, p);
      if b.Failure? {
        return Failure(b.error);
      }
      p := b.value.next;
    }
    return Success(p);
  }

  lemma {:induction false} AtIndex(data: seq<Byte>, pos: nat, s: seq<Byte>, i: nat)
    requires At(data, pos, s) && i < |s|
    ensures data[pos + i] == s[i]
  {
    assert data[pos + i] == data[pos..pos + |s|][i];
  }

  /** Cutting a number into base-64 digits and putting it together again. */
  lemma {:induction false} Digits64(n: nat)
    requires n < 0x11_0000
    ensures n == n / 262144 * 262144 + n / 4096 % 64 * 4096 + n / 64 % 64 * 64 + n % 64
    ensures n < 0x1_0000 ==> n == n / 4096 * 4096 + n / 64 % 64 * 64 + n % 64
  {
    assert n / 4096 == n / 262144 * 64 + n / 4096 % 64;
    assert n / 64 == n / 4096 * 64 + n / 64 % 64;
  }

  lemma {:induction false} LowBits(d: nat)
    ensures d < 64 ==> (0x80 + d) % 64 == d
    ensures d < 32 ==> (0xC0 + d) % 32 == d
    ensures d < 16 ==> (0xE0 + d) % 16 == d
    ensures d < 8 ==> (0xF0 + d) % 8 == d
  {
  }

  lemma {:induction false} CharRoundTrip(data: seq<Byte>, pos: nat, c: char)
    requires At(data, pos, CharBytes(c))
    ensures CharAt(data, pos) == Success(Parsed(c, pos + |CharBytes(c)|))
  {
    var n, s := c as int, CharBytes(c);
    AtIndex(data, pos, s, 0);
    if 0 < n < 0x80 {
    } else if n < 0x800 {
      AtIndex(data, pos, s, 1);
      LowBits(n / 64);
      LowBits(n % 64);
    } else if n < 0x1_0000 {
      ThreeBytes(data, pos, c);
    } else {
      FourBytes(data, pos, c);
    }
  }

  lemma {:induction false} ThreeBytes(data: seq<Byte>, pos: nat, c: char)
    requires 0x800 <= c as int < 0x1_0000 && At(data, pos, CharBytes(c))
    ensures CharAt(data, pos) == Success(Parsed(c, pos + 3))
  {
    var n, s := c as int, CharBytes(c);
    AtIndex(data, pos, s, 0);
    AtIndex(data, pos, s, 1);
    AtIndex(data, pos, s, 2);
    LowBits(n / 4096);
    LowBits(n / 64 % 64);
    LowBits(n % 64);
    Digits64(n);
  }

  lemma {:induction false} FourBytes(data: seq<Byte>, pos: nat, c: char)
    requires 0x1_0000 <= c as int && At(data, pos, CharBytes(c))
    ensures CharAt(data, pos) == Success(Parsed(c, pos + 4))
  {
    var n, s := c as int, CharBytes(c);
    AtIndex(data, pos, s, 0);
    AtIndex(data, pos, s, 1);
    AtIndex(data, pos, s, 2);
    AtIndex(data, pos, s, 3);
    LowBits(n / 262144);
    LowBits(n / 4096 % 64);
    LowBits(n / 64 % 64);
    LowBits(n % 64);
    Digits64(n);
  }

  lemma {:induction false} CharsRoundTrip(data: seq<Byte>, pos: nat, s: string)
    requires At(data, pos, CharsBytes(s))
    ensures CharsAt(data, pos, |s|) == Success(Parsed(s, pos + |CharsBytes(s)|))
    decreases s
  {
    hide CharAt, CharBytes;
    if s != [] {
      var next, end := pos + |CharBytes(s[0])|, pos + |CharsBytes(s)|;
      assert CharAt(data, pos) == Success(Parsed(s[0], next)) && At(data, next, CharsBytes(s[1..])) by {
        AtSplit(data, pos, CharBytes(s[0]), CharsBytes(s[1..]));
        CharRoundTrip(data, pos, s[0]);
      }
      assert CharsAt(data, next, |s| - 1) == Success(Parsed(s[1..], end)) by {
        CharsRoundTrip(data, next, s[1..]);
      }
      CharsCons(data, pos, next, s, end);
    }
  }

  lemma {:induction false} CharsCons(data: seq<Byte>, pos: nat, next: nat, s: string, end: nat)
    requires s != [] && CharAt(data, pos) == Success(Parsed(s[0], next))
    requires CharsAt(data, next, |s| - 1) == Success(Parsed(s[1..], end))
    ensures CharsAt(data, pos, |s|) == Success(Parsed(s, end))
  {
    assert [s[0]] + s[1..] == s;
  }

  /** Every string reads back: all scalar values, NUL and the supplementary planes included. */
  lemma {:induction false} StringRoundTrip(data: seq<Byte>, pos: nat, s: string)
    requires |s| < U64 && At(data, pos, StringBytes(s))
    ensures StringAt(data, pos) == Success(Parsed(s, pos + |StringBytes(s)|))
  {
    hide CharsAt, CharsBytes, GroupsAt;
    var chars := pos + |VInt(|s|)|;
    assert At(data, pos, VInt(|s|)) && At(data, chars, CharsBytes(s)) by {
      AtSplit(data, pos, VInt(|s|), CharsBytes(s));
    }
    assert VIntAt(data, pos) == Success(Parsed(|s|, chars)) by {
      VIntRoundTrip(data, pos, |s|);
    }
    assert CharsAt(data, chars, |s|) == Success(Parsed(s, chars + |CharsBytes(s)|)) by {
      CharsRoundTrip(data, chars, s);
    }
  }
}
