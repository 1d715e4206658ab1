/** The one-byte norm: a table of 256 floats, searched and rounded to the nearest. */
module Norms {

  function Pow2(n: nat): (p: nat)
    ensures p >= 1
  {
    if n == 0 then 1 else 2 * Pow2(n - 1)
  }

  /** A float, or the infinity that an absent field's length norm is. */
  datatype Norm = Finite(x: real) | Infinite

  const UNIT: real := 8589934592.0  // 2 to the 33rd

  /** What the table holds, in units of 2 to the -33rd: byte `b` has exponent `b / 4` and two bits of
      mantissa; byte zero stands for zero. */
  function Scaled(b: nat): nat {
    if b == 0 then 0 else (4 + b % 4) * Pow2(b / 4)
  }

  function DecodeNorm(b: nat): real {
    (Scaled(b) as real) / UNIT
  }

  lemma {:induction false} DoubleNext(k: nat)
    ensures Pow2(k + 1) == 2 * Pow2(k)
  {
  }

  lemma {:induction false} OneMore(m: nat, p: nat)
    ensures (m + 1) * p == m * p + p
  {
  }

  lemma {:induction false} AtLeastFour(m: nat, p: nat)
    ensures 4 * p <= (4 + m) * p
  {
  }

  /** The byte, shifted into a single-precision float (section 3.4 of IEEE 754): exponent field
      `bits / 2^23`, biased by 127, and 23 bits of fraction; both sides times 2 to the 54th. */
  lemma {:induction false} BitsDecoded(b: nat)
    requires 0 < b < 256
    ensures var bits := b * 0x20_0000 + 0x3000_0000;
            var exponent, fraction := bits / 0x80_0000, bits % 0x80_0000;
            && exponent == 96 + b / 4
            && DecodeNorm(b) * 18014398509481984.0 == ((0x80_0000 + fraction) * Pow2(exponent - 96)) as real
  {
    var bits := b * 0x20_0000 + 0x3000_0000;
    assert bits == (96 + b / 4) * 0x80_0000 + b % 4 * 0x20_0000;
    assert bits / 0x80_0000 == 96 + b / 4 && bits % 0x80_0000 == b % 4 * 0x20_0000;
    var p := Pow2(b / 4);
    assert (0x80_0000 + b % 4 * 0x20_0000) * p == 0x20_0000 * ((4 + b % 4) * p) by {
      Regroup(b % 4, p);
    }
    assert (Scaled(b) as real) / UNIT * 18014398509481984.0 == (Scaled(b) as real) * 2097152.0;
  }

  lemma {:induction false} Regroup(m: nat, p: nat)
    ensures (0x80_0000 + m * 0x20_0000) * p == 0x20_0000 * ((4 + m) * p)
  {
    assert 0x80_0000 + m * 0x20_0000 == 0x20_0000 * (4 + m);
  }

  /** Four bytes on, the value doubles; 120 stands for a half, 124 for one, 128 for two. */
  lemma {:induction false} Doubles(b: nat)
    requires b > 0
    ensures DecodeNorm(b + 4) == 2.0 * DecodeNorm(b)
    ensures DecodeNorm(120) == 0.5 && DecodeNorm(124) == 1.0 && DecodeNorm(128) == 2.0
  {
    assert (b + 4) / 4 == b / 4 + 1 && (b + 4) % 4 == b % 4;
    Doubled(4 + b % 4, Pow2(b / 4));
    Pow2At30();
  }

  lemma {:induction false} Doubled(m: nat, p: nat)
    ensures m * (2 * p) == 2 * (m * p)
  {
  }

  lemma {:induction false} Pow2At30()
    ensures Pow2(30) == 1073741824 && Pow2(31) == 2147483648 && Pow2(32) == 4294967296
  {
    assert Pow2(8) == 256 by {
      assert Pow2(4) == 16;
    }
    assert Pow2(16) == 65536 by {
      assert Pow2(12) == 4096;
    }
    assert Pow2(24) == 16777216 by {
      assert Pow2(20) == 1048576;
    }
    assert Pow2(28) == 268435456;
  }

  /** Consecutive values differ by at most a quarter of the smaller. */
  lemma {:induction false} NextValue(b: nat)
    ensures Scaled(b) < Scaled(b + 1)
    ensures b > 0 ==> 4 * (Scaled(b + 1) - Scaled(b)) <= Scaled(b)
  {
    hide Pow2;
    var k, m := b / 4, b % 4;
    DoubleNext(k);
    if m < 3 {
      assert (b + 1) / 4 == k && (b + 1) % 4 == m + 1;
      OneMore(4 + m, Pow2(k));
    } else {
      assert (b + 1) / 4 == k + 1 && (b + 1) % 4 == 0;
    }
    AtLeastFour(m, Pow2(k));
  }

  lemma {:induction false} ScaledAscends(a: nat, b: nat)
    requires a < b
    ensures Scaled(a) < Scaled(b)
    decreases b
  {
    hide Scaled;
    NextValue(b - 1);
    if a < b - 1 {
      ScaledAscends(a, b - 1);
    }
  }

  lemma {:induction false} Divided(a: nat, b: nat)
    ensures a < b ==> (a as real) / UNIT < (b as real) / UNIT
  {
  }

  lemma {:induction false} DecodeAscends(a: nat, b: nat)
    requires a < b
    ensures DecodeNorm(a) < DecodeNorm(b)
  {
    hide Scaled;
    ScaledAscends(a, b);
    Divided(Scaled(a), Scaled(b));
  }

  function Distance(x: real, b: nat): real {
    if x >= DecodeNorm(b) then x - DecodeNorm(b) else DecodeNorm(b) - x
  }

  predicate Nearest(x: real, b: nat) {
    b < 256 && forall c: nat | c < 256 :: Distance(x, b) <= Distance(x, c)
  }

  /** Of two equally near, the smaller. */
  predicate NearestLow(x: real, b: nat) {
    Nearest(x, b) && forall c: nat | c < b :: Distance(x, b) < Distance(x, c)
  }

  /** Binary search, then rounding to the nearer neighbour: a nearest table entry for every positive
      value, zero for the others, the last byte for infinity. */
  method EncodeNorm(f: Norm) returns (b: nat)
    ensures b < 256
    ensures f.Infinite? ==> b == 255
    ensures f.Finite? && f.x <= 0.0 ==> b == 0
    ensures f.Finite? && f.x > 0.0 ==> Nearest(f.x, b)
    ensures f.Finite? && f.x > 0.0 ==> NearestLow(f.x, b)
  {
    hide DecodeNorm;
    if f.Finite? && f.x <= 0.0 {
      return 0;
    }
    var lo: int, hi: int := 0, 255;
    while hi >= lo
      invariant 0 <= lo <= hi + 1 <= 256
      invariant f.Infinite? ==> hi == 255
      invariant f.Finite? && lo > 0 ==> DecodeNorm(lo - 1) < f.x
      invariant f.Finite? && hi < 255 ==> f.x < DecodeNorm(hi + 1)
    {
      var mid := (hi + lo) / 2;
      if f.Finite? && f.x < DecodeNorm(mid) {
        hi := mid - 1;
      } else if f.Infinite? || f.x > DecodeNorm(mid) {
        lo := mid + 1;
      } else {
        Exact(f.x, mid);
        return mid;
      }
    }
    if f.Infinite? {
      return 255;
    }
    ZeroFirst();
    if hi != 255 && f.x - DecodeNorm(hi) > DecodeNorm(hi + 1) - f.x {
      Between(f.x, hi);
      return hi + 1;
    }
    if hi != 255 {
      Between(f.x, hi);
    } else {
      Beyond(f.x);
    }
    return hi;
  }

  lemma {:induction false} ZeroFirst()
    ensures DecodeNorm(0) == 0.0
  {
  }

  lemma {:induction false} Exact(x: real, b: nat)
    requires b < 256 && x == DecodeNorm(b)
    ensures NearestLow(x, b)
  {
    hide DecodeNorm;
    forall c: nat | c < b ensures Distance(x, b) < Distance(x, c) {
      DecodeAscends(c, b);
    }
  }

  /** Between two neighbours, one of them is nearest. */
  lemma {:induction false} Between(x: real, b: nat)
    requires b < 255 && DecodeNorm(b) < x < DecodeNorm(b + 1)
    ensures x - DecodeNorm(b) > DecodeNorm(b + 1) - x ==> NearestLow(x, b + 1)
    ensures x - DecodeNorm(b) <= DecodeNorm(b + 1) - x ==> NearestLow(x, b)
  {
    hide DecodeNorm;
    forall c: nat | c < b ensures Distance(x, b) < Distance(x, c) {
      DecodeAscends(c, b);
    }
    forall c: nat | c < 256 ensures Distance(x, b) <= Distance(x, c) || Distance(x, b + 1) <= Distance(x, c) {
      if c < b {
        DecodeAscends(c, b);
      } else if c > b + 1 {
        DecodeAscends(b + 1, c);
      }
    }
  }

  lemma {:induction false} Beyond(x: real)
    requires DecodeNorm(255) < x
    ensures NearestLow(x, 255)
  {
    hide DecodeNorm;
    forall c: nat | c < 256 ensures Distance(x, 255) <= Distance(x, c) && (c < 255 ==> Distance(x, 255) < Distance(x, c)) {
      if c < 255 {
        DecodeAscends(c, 255);
      }
    }
  }

  /** Encoding a decoded byte gives it back, for all 256. */
  lemma {:induction false} DecodeThenEncode(b: nat, c: nat)
    requires b < 256 && Nearest(DecodeNorm(b), c)
    ensures c == b
  {
    hide DecodeNorm;
    assert Distance(DecodeNorm(b), b) == 0.0;
    if c < b {
      DecodeAscends(c, b);
    } else if b < c {
      DecodeAscends(b, c);
    }
  }

  /** Within the table's range the error is at most an eighth of the value. */
  lemma {:induction false} ErrorWithinEighth(x: real, b: nat)
    requires DecodeNorm(1) <= x <= DecodeNorm(255) && Nearest(x, b)
    ensures 8.0 * Distance(x, b) <= x
  {
    hide DecodeNorm;
    var k := Floor(x, 255);
    QuarterGap(k);
    ZeroFirst();
    DecodeAscends(0, 1);
    assert Distance(x, b) <= Distance(x, k);
    if k < 255 {
      assert Distance(x, b) <= Distance(x, k + 1);
    }
  }

  /** The last entry at or below `x`. */
  lemma {:induction false} Floor(x: real, n: nat) returns (k: nat)
    requires 1 <= n <= 255 && DecodeNorm(1) <= x && (n < 255 ==> x < DecodeNorm(n + 1))
    requires x <= DecodeNorm(255)
    ensures 1 <= k <= 255 && DecodeNorm(k) <= x && (k < 255 ==> x < DecodeNorm(k + 1))
    ensures k == 255 ==> x == DecodeNorm(255)
    decreases n
  {
    hide DecodeNorm;
    if DecodeNorm(n) <= x {
      k := n;
    } else {
      k := Floor(x, n - 1);
    }
  }

  lemma {:induction false} QuarterGap(b: nat)
    requires b > 0
    ensures 4.0 * (DecodeNorm(b + 1) - DecodeNorm(b)) <= DecodeNorm(b)
  {
    hide Scaled;
    NextValue(b);
    GapDivided(Scaled(b), Scaled(b + 1));
  }

  lemma {:induction false} GapDivided(a: nat, b: nat)
    requires 4 * (b - a) <= a
    ensures 4.0 * ((b as real) / UNIT - (a as real) / UNIT) <= (a as real) / UNIT
  {
    assert 4.0 * (b as real) <= 5.0 * (a as real);
  }
}
