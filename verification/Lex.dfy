/** Order of strings as the term dictionary uses it: code point by code point, which for UTF-8
    is the same as byte by byte (`Utf8Order.dfy`). */
module Lex {

  predicate Less(a: string, b: string)
    decreases |a|
  {
    |b| > 0 && (|a| == 0 || a[0] < b[0] || (a[0] == b[0] && Less(a[1..], b[1..])))
  }

  predicate AtMost(a: string, b: string) {
    a == b || Less(a, b)
  }

  lemma {:induction false} Irreflexive(a: string)
    ensures !Less(a, a)
  {
    if a != [] {
      Irreflexive(a[1..]);
    }
  }

  lemma {:induction false} Transitive(a: string, b: string, c: string)
    requires Less(a, b) && Less(b, c)
    ensures Less(a, c)
  {
    if a != [] && a[0] == b[0] == c[0] {
      Transitive(a[1..], b[1..], c[1..]);
    }
  }

  lemma {:induction false} Total(a: string, b: string)
    ensures Less(a, b) || a == b || Less(b, a)
  {
    if a != [] && b != [] && a[0] == b[0] {
      Total(a[1..], b[1..]);
      assert a == [a[0]] + a[1..] && b == [b[0]] + b[1..];
    }
  }

  lemma {:induction false} Asymmetric(a: string, b: string)
    requires Less(a, b)
    ensures !Less(b, a) && a != b
  {
    Irreflexive(a);
    if Less(b, a) {
      Transitive(a, b, a);
    }
  }

  /** A string never precedes its own prefix. */
  lemma {:induction false} PrefixAtMost(p: string, s: string)
    requires p <= s
    ensures AtMost(p, s)
  {
    if p != [] {
      assert s[0] == p[0] && p[1..] <= s[1..];
      PrefixAtMost(p[1..], s[1..]);
      assert p == [p[0]] + p[1..] && s == [s[0]] + s[1..];
    } else if s == [] {
      assert p == s;
    }
  }

  /** The strings starting with `p` are contiguous: once past them, none follows. */
  lemma {:induction false} PrefixRangeEnds(p: string, t: string, u: string)
    requires Less(p, t) && !(p <= t) && Less(t, u)
    ensures !(p <= u)
  {
    if p <= u {
      assert p != [];
      if p[0] == t[0] {
        assert !(p[1..] <= t[1..]);
        PrefixRangeEnds(p[1..], t[1..], u[1..]);
      }
    }
  }

  // ----- the composite (field name, text) key -----

  datatype Key = Key(field: string, text: string)

  predicate KeyLess(a: Key, b: Key) {
    Less(a.field, b.field) || (a.field == b.field && Less(a.text, b.text))
  }

  predicate KeyAtMost(a: Key, b: Key) {
    a == b || KeyLess(a, b)
  }

  lemma {:induction false} KeyTransitive(a: Key, b: Key, c: Key)
    requires KeyLess(a, b) && KeyLess(b, c)
    ensures KeyLess(a, c)
  {
    if Less(a.field, b.field) && Less(b.field, c.field) {
      Transitive(a.field, b.field, c.field);
    } else if a.field == b.field == c.field {
      Transitive(a.text, b.text, c.text);
    }
  }

  lemma {:induction false} KeyTotal(a: Key, b: Key)
    ensures KeyLess(a, b) || a == b || KeyLess(b, a)
  {
    Total(a.field, b.field);
    Total(a.text, b.text);
  }

  lemma {:induction false} KeyAsymmetric(a: Key, b: Key)
    requires KeyLess(a, b)
    ensures !KeyLess(b, a) && a != b
  {
    if Less(a.field, b.field) {
      Asymmetric(a.field, b.field);
    } else {
      Asymmetric(a.text, b.text);
      Irreflexive(a.field);
    }
  }
}
