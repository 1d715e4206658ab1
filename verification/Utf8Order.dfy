/** UTF-8 keeps order: strings compare byte by byte as they compare code point by code point, which is
    what lets the other modules order terms as strings. */
module Utf8Order {
  import opened Bytes
  import opened Lex

  /** UTF-8 (section 3 of RFC 3629); unlike the index's own form, NUL is one byte. */
  function CharUtf8(c: char): (s: seq<Byte>)
    ensures 1 <= |s| <= 4
  {
    if c == '\0' then [0] else CharBytes(c)
  }

  function Utf8(s: string): seq<Byte> {
    if s == [] then [] else CharUtf8(s[0]) + Utf8(s[1..])
  }

  predicate BytesLess(a: seq<Byte>, b: seq<Byte>)
    decreases |a|
  {
    |b| > 0 && (|a| == 0 || a[0] < b[0] || (a[0] == b[0] && BytesLess(a[1..], b[1..])))
  }

  lemma {:induction false} SharedPrefix(p: seq<Byte>, a: seq<Byte>, b: seq<Byte>)
    ensures BytesLess(p + a, p + b) <==> BytesLess(a, b)
  {
    if p == [] {
      assert p + a == a && p + b == b;
    } else {
      assert (p + a)[1..] == p[1..] + a && (p + b)[1..] == p[1..] + b;
      SharedPrefix(p[1..], a, b);
    }
  }

  lemma {:induction false} BytesAsymmetric(a: seq<Byte>, b: seq<Byte>)
    ensures !(BytesLess(a, b) && BytesLess(b, a))
  {
    if a != [] && b != [] {
      BytesAsymmetric(a[1..], b[1..]);
    }
  }

  lemma {:induction false} BytesIrreflexive(a: seq<Byte>)
    ensures !BytesLess(a, a)
  {
    BytesAsymmetric(a, a);
  }

  /** Two strings part after a shared prefix. */
  lemma {:induction false} Part(p: seq<Byte>, x: Byte, y: Byte, s: seq<Byte>, t: seq<Byte>)
    requires x < y
    ensures BytesLess(p + ([x] + s), p + ([y] + t))
  {
    SharedPrefix(p, [x] + s, [y] + t);
  }

  lemma {:induction false} Part2(a0: Byte, a1: Byte, b0: Byte, b1: Byte, s: seq<Byte>, t: seq<Byte>)
    requires a0 < b0 || (a0 == b0 && a1 < b1)
    ensures BytesLess([a0, a1] + s, [b0, b1] + t)
  {
    assert [a0, a1] + s == [a0] + ([a1] + s) && [b0, b1] + t == [b0] + ([b1] + t);
    if a0 == b0 {
      Part([a0], a1, b1, s, t);
    }
  }

  lemma {:induction false} Part3(a0: Byte, a1: Byte, a2: Byte, b0: Byte, b1: Byte, b2: Byte, s: seq<Byte>, t: seq<Byte>)
    requires a0 < b0 || (a0 == b0 && (a1 < b1 || (a1 == b1 && a2 < b2)))
    ensures BytesLess([a0, a1, a2] + s, [b0, b1, b2] + t)
  {
    assert [a0, a1, a2] + s == [a0] + ([a1, a2] + s) && [b0, b1, b2] + t == [b0] + ([b1, b2] + t);
    if a0 == b0 {
      Part2(a1, a2, b1, b2, s, t);
      SharedPrefix([a0], [a1, a2] + s, [b1, b2] + t);
    }
  }

  lemma {:induction false} Part4(a0: Byte, a1: Byte, a2: Byte, a3: Byte, b0: Byte, b1: Byte, b2: Byte, b3: Byte, s: seq<Byte>, t: seq<Byte>)
    requires a0 < b0 || (a0 == b0 && (a1 < b1 || (a1 == b1 && (a2 < b2 || (a2 == b2 && a3 < b3)))))
    ensures BytesLess([a0, a1, a2, a3] + s, [b0, b1, b2, b3] + t)
  {
    assert [a0, a1, a2, a3] + s == [a0] + ([a1, a2, a3] + s) && [b0, b1, b2, b3] + t == [b0] + ([b1, b2, b3] + t);
    if a0 == b0 {
      Part3(a1, a2, a3, b1, b2, b3, s, t);
      SharedPrefix([a0], [a1, a2, a3] + s, [b1, b2, b3] + t);
    }
  }

  lemma {:induction false} CharsLess(c: char, d: char, s: seq<Byte>, t: seq<Byte>)
    requires c < d
    ensures BytesLess(CharUtf8(c) + s, CharUtf8(d) + t)
  {
    hide BytesLess;
    var a, b := CharUtf8(c), CharUtf8(d);
    var m, n := c as int, d as int;
    if |a| != |b| || |a| == 1 {
      LeadsPart(c, d);
      assert a + s == [] + ([a[0]] + (a[1..] + s)) && b + t == [] + ([b[0]] + (b[1..] + t));
      Part([], a[0], b[0], a[1..] + s, b[1..] + t);
    } else if |a| == 2 {
      Part2(a[0], a[1], b[0], b[1], s, t);
    } else if |a| == 3 {
      Digits3(m, n);
      Part3(a[0], a[1], a[2], b[0], b[1], b[2], s, t);
    } else {
      Digits4(m, n);
      Part4(a[0], a[1], a[2], a[3], b[0], b[1], b[2], b[3], s, t);
    }
  }

  lemma {:induction false} LeadsPart(c: char, d: char)
    requires c < d && (|CharUtf8(c)| != |CharUtf8(d)| || |CharUtf8(c)| == 1)
    ensures CharUtf8(c)[0] < CharUtf8(d)[0]
  {
  }

  lemma {:induction false} Digits3(m: nat, n: nat)
    requires m < n
    ensures m / 4096 < n / 4096 || (m / 4096 == n / 4096 && (m / 64 % 64 < n / 64 % 64 || (m / 64 % 64 == n / 64 % 64 && m % 64 < n % 64)))
  {
    assert m / 4096 == m / 64 / 64 && n / 4096 == n / 64 / 64;
  }

  lemma {:induction false} Digits4(m: nat, n: nat)
    requires m < n
    ensures m / 262144 < n / 262144 || (m / 262144 == n / 262144 &&
              (m / 4096 % 64 < n / 4096 % 64 || (m / 4096 % 64 == n / 4096 % 64 &&
                (m / 64 % 64 < n / 64 % 64 || (m / 64 % 64 == n / 64 % 64 && m % 64 < n % 64)))))
  {
    assert m / 262144 == m / 64 / 64 / 64 && n / 262144 == n / 64 / 64 / 64;
    Digits3(m, n);
  }

  lemma {:induction false} LessInBytes(a: string, b: string)
    requires Less(a, b)
    ensures BytesLess(Utf8(a), Utf8(b))
  {
    hide CharUtf8;
    if a != [] {
      if a[0] < b[0] {
        CharsLess(a[0], b[0], Utf8(a[1..]), Utf8(b[1..]));
      } else {
        LessInBytes(a[1..], b[1..]);
        SharedPrefix(CharUtf8(a[0]), Utf8(a[1..]), Utf8(b[1..]));
      }
    }
  }

  /** Byte order and code point order coincide. */
  lemma {:induction false} SameOrder(a: string, b: string)
    ensures Less(a, b) <==> BytesLess(Utf8(a), Utf8(b))
  {
    Total(a, b);
    if Less(a, b) {
      LessInBytes(a, b);
    } else if a == b {
      BytesIrreflexive(Utf8(a));
    } else {
      LessInBytes(b, a);
      BytesAsymmetric(Utf8(a), Utf8(b));
    }
  }

  lemma {:induction false} Utf8Append(a: string, b: string)
    ensures Utf8(a + b) == Utf8(a) + Utf8(b)
  {
    if a == [] {
      assert a + b == b;
    } else {
      assert (a + b)[1..] == a[1..] + b;
      Utf8Append(a[1..], b);
    }
  }
}
