/** Edit distance by two rows of dynamic programming, and what it measures: the least number of
    single-byte insertions, deletions and substitutions. */
module Distance {
  import opened Bytes

  function Min(a: nat, b: nat): nat {
    if a <= b then a else b
  }

  function Cost(x: Byte, y: Byte): nat {
    if x == y then 0 else 1
  }

  /** The recurrence, on the last bytes. */
  function Lev(a: seq<Byte>, b: seq<Byte>): nat
    decreases |a| + |b|
  {
    if a == [] then |b|
    else if b == [] then |a|
    else
      var a', b' := a[..|a| - 1], b[..|b| - 1];
      Min(Min(Lev(a', b) + 1, Lev(a, b') + 1), Lev(a', b') + Cost(a[|a| - 1], b[|b| - 1]))
  }

  method LevenshteinBytes(a: seq<Byte>, b: seq<Byte>) returns (d: nat)
    ensures d == Lev(a, b)
  {
    hide Lev;
    var n, m := |a|, |b|;
    Borders(a, b);
    assert a[..n] == a && b[..m] == b;
    if n == 0 {
      return m;
    }
    if m == 0 {
      return n;
    }
    var prev := new nat[m + 1](j => j);
    var cur := new nat[m + 1](_ => 0);
    for i := 1 to n + 1
      invariant prev != cur && fresh(prev) && fresh(cur) && prev.Length == cur.Length == m + 1
      invariant forall j | 0 <= j <= m :: prev[j] == Lev(a[..i - 1], b[..j])
    {
      cur[0] := i;
      for j := 1 to m + 1
        invariant forall k | 0 <= k <= m :: prev[k] == Lev(a[..i - 1], b[..k])
        invariant forall k | 0 <= k < j :: cur[k] == Lev(a[..i], b[..k])
      {
        Cell(a, b, i, j);
        var cost := if a[i - 1] != b[j - 1] then 1 else 0;
        cur[j] := Min(Min(prev[j] + 1, cur[j - 1] + 1), prev[j - 1] + cost);
      }
      prev, cur := cur, prev;
    }
    return prev[m];
  }

  lemma {:induction false} Borders(a: seq<Byte>, b: seq<Byte>)
    ensures forall j | 0 <= j <= |b| :: Lev(a[..0], b[..j]) == j
    ensures forall i | 0 <= i <= |a| :: Lev(a[..i], b[..0]) == i
  {
  }

  lemma {:induction false} Cell(a: seq<Byte>, b: seq<Byte>, i: nat, j: nat)
    requires 0 < i <= |a| && 0 < j <= |b|
    ensures Lev(a[..i], b[..j])
         == Min(Min(Lev(a[..i - 1], b[..j]) + 1, Lev(a[..i], b[..j - 1]) + 1), Lev(a[..i - 1], b[..j - 1]) + Cost(a[i - 1], b[j - 1]))
  {
    hide Lev;
    LevStep(a[..i - 1], a[i - 1], b[..j - 1], b[j - 1]);
    assert a[..i] == a[..i - 1] + [a[i - 1]] && b[..j] == b[..j - 1] + [b[j - 1]];
  }

  // ----- edits -----

  /** `d` is `c` with one byte put in at `i`. */
  predicate InsertedAt(c: seq<Byte>, d: seq<Byte>, i: nat) {
    i <= |c| && |d| == |c| + 1 && d == c[..i] + [d[i]] + c[i..]
  }

  /** `d` is `c` with the byte at `i` replaced. */
  predicate SubstitutedAt(c: seq<Byte>, d: seq<Byte>, i: nat) {
    i < |c| && |d| == |c| && d == c[..i] + [d[i]] + c[i + 1..]
  }

  ghost predicate OneEdit(c: seq<Byte>, d: seq<Byte>) {
    || (exists i: nat :: InsertedAt(c, d, i))
    || (exists i: nat :: InsertedAt(d, c, i))
    || (exists i: nat :: SubstitutedAt(c, d, i))
  }

  /** A chain of single edits from `a` to `b`. */
  ghost predicate Rewrites(p: seq<seq<Byte>>, a: seq<Byte>, b: seq<Byte>) {
    p != [] && p[0] == a && p[|p| - 1] == b && forall k | 0 <= k < |p| - 1 :: OneEdit(p[k], p[k + 1])
  }

  // ----- the distance changes by at most one per edit -----

  predicate Near(x: nat, y: nat) {
    x <= y + 1 && y <= x + 1
  }

  lemma {:induction false} LastByte(a: seq<Byte>, b: seq<Byte>, y: Byte)
    ensures Near(Lev(a, b), Lev(a, b + [y]))
    decreases |a|
  {
    if a == [] {
    } else {
      var a' := a[..|a| - 1];
      LastByte(a', b, y);
      LastByteLeft(a', b, a[|a| - 1]);
      assert a == a' + [a[|a| - 1]];
      assert (b + [y])[..|b|] == b;
    }
  }

  lemma {:induction false} LastByteLeft(a: seq<Byte>, b: seq<Byte>, x: Byte)
    ensures Lev(a + [x], b) <= Lev(a, b) + 1
  {
    assert (a + [x])[..|a|] == a;
  }

  /** The recurrence on strings given with their last bytes. */
  lemma {:induction false} LevStep(a: seq<Byte>, x: Byte, b: seq<Byte>, y: Byte)
    ensures Lev(a + [x], b + [y]) == Min(Min(Lev(a, b + [y]) + 1, Lev(a + [x], b) + 1), Lev(a, b) + Cost(x, y))
  {
    hide Lev;
    Unroll(a + [x], b + [y]);
    assert (a + [x])[..|a|] == a && (b + [y])[..|b|] == b;
  }

  lemma {:induction false} Unroll(a: seq<Byte>, b: seq<Byte>)
    requires a != [] && b != []
    ensures var a', b' := a[..|a| - 1], b[..|b| - 1];
            Lev(a, b) == Min(Min(Lev(a', b) + 1, Lev(a, b') + 1), Lev(a', b') + Cost(a[|a| - 1], b[|b| - 1]))
  {
  }

  lemma {:induction false} FromNothing(b: seq<Byte>)
    ensures Lev([], b) == |b|
  {
  }

  lemma {:induction false} InsertNear(a: seq<Byte>, u: seq<Byte>, y: Byte, v: seq<Byte>)
    ensures Near(Lev(a, u + v), Lev(a, u + [y] + v))
    decreases |a| + |v|
  {
    hide Lev;
    if v == [] {
      assert u + v == u && u + [y] + v == u + [y];
      LastByte(a, u, y);
    } else if a == [] {
      FromNothing(u + v);
      FromNothing(u + [y] + v);
    } else {
      var a', x, v', z := a[..|a| - 1], a[|a| - 1], v[..|v| - 1], v[|v| - 1];
      InsertNear(a', u, y, v);
      InsertNear(a, u, y, v');
      InsertNear(a', u, y, v');
      Regroup(a, u, v);
      Regroup(a, u + [y], v);
      LevStep(a', x, u + v', z);
      LevStep(a', x, u + [y] + v', z);
    }
  }

  lemma {:induction false} Regroup(a: seq<Byte>, u: seq<Byte>, v: seq<Byte>)
    requires a != [] && v != []
    ensures a == a[..|a| - 1] + [a[|a| - 1]] && u + v == u + v[..|v| - 1] + [v[|v| - 1]]
  {
  }

  lemma {:induction false} SubstituteNear(a: seq<Byte>, u: seq<Byte>, x: Byte, y: Byte, v: seq<Byte>)
    ensures Near(Lev(a, u + [x] + v), Lev(a, u + [y] + v))
    decreases |a| + |v|
  {
    hide Lev;
    if a == [] {
      FromNothing(u + [x] + v);
      FromNothing(u + [y] + v);
    } else {
      var a', w := a[..|a| - 1], a[|a| - 1];
      SubstituteNear(a', u, x, y, v);
      if v == [] {
        assert u + [x] + v == u + [x] && u + [y] + v == u + [y] && a == a' + [w];
        LevStep(a', w, u, x);
        LevStep(a', w, u, y);
      } else {
        var v', z := v[..|v| - 1], v[|v| - 1];
        SubstituteNear(a, u, x, y, v');
        SubstituteNear(a', u, x, y, v');
        Regroup(a, u + [x], v);
        Regroup(a, u + [y], v);
        LevStep(a', w, u + [x] + v', z);
        LevStep(a', w, u + [y] + v', z);
      }
    }
  }

  lemma {:induction false} EditNear(a: seq<Byte>, c: seq<Byte>, d: seq<Byte>)
    requires OneEdit(c, d)
    ensures Near(Lev(a, c), Lev(a, d))
  {
    hide Lev;
    if i: nat :| InsertedAt(c, d, i) {
      InsertNear(a, c[..i], d[i], c[i..]);
      assert c[..i] + c[i..] == c;
    } else if i: nat :| InsertedAt(d, c, i) {
      InsertNear(a, d[..i], c[i], d[i..]);
      assert d[..i] + d[i..] == d;
    } else {
      var i: nat :| SubstitutedAt(c, d, i);
      SubstituteNear(a, c[..i], c[i], d[i], c[i + 1..]);
      assert c == c[..i] + [c[i]] + c[i + 1..];
    }
  }

  lemma {:induction false} SelfDistance(a: seq<Byte>)
    ensures Lev(a, a) == 0
  {
    if a != [] {
      SelfDistance(a[..|a| - 1]);
    }
  }

  /** No chain of edits is shorter than the distance. */
  lemma {:induction false} NoShorterRewriting(p: seq<seq<Byte>>, a: seq<Byte>, b: seq<Byte>)
    requires Rewrites(p, a, b)
    ensures Lev(a, b) <= |p| - 1
  {
    hide Lev, OneEdit;
    if |p| == 1 {
      SelfDistance(a);
    } else {
      var q := p[..|p| - 1];
      forall k | 0 <= k < |q| - 1 ensures OneEdit(q[k], q[k + 1]) {
        assert OneEdit(p[k], p[k + 1]);
      }
      NoShorterRewriting(q, a, q[|q| - 1]);
      assert OneEdit(p[|p| - 2], p[|p| - 1]);
      EditNear(a, q[|q| - 1], b);
    }
  }

  // ----- and some chain is that short -----

  lemma {:induction false} SuffixEdit(c: seq<Byte>, d: seq<Byte>, x: Byte)
    requires OneEdit(c, d)
    ensures OneEdit(c + [x], d + [x])
  {
    hide InsertedAt, SubstitutedAt;
    if i: nat :| InsertedAt(c, d, i) {
      SuffixInsert(c, d, i, x);
    } else if i: nat :| InsertedAt(d, c, i) {
      SuffixInsert(d, c, i, x);
    } else {
      var i: nat :| SubstitutedAt(c, d, i);
      SuffixSubstitute(c, d, i, x);
    }
  }

  lemma {:induction false} SuffixInsert(c: seq<Byte>, d: seq<Byte>, i: nat, x: Byte)
    requires InsertedAt(c, d, i)
    ensures InsertedAt(c + [x], d + [x], i)
  {
    assert (c + [x])[..i] == c[..i] && (c + [x])[i..] == c[i..] + [x];
    assert c[..i] + [d[i]] + c[i..] + [x] == c[..i] + [d[i]] + (c[i..] + [x]);
  }

  lemma {:induction false} SuffixSubstitute(c: seq<Byte>, d: seq<Byte>, i: nat, x: Byte)
    requires SubstitutedAt(c, d, i)
    ensures SubstitutedAt(c + [x], d + [x], i)
  {
    assert (c + [x])[..i] == c[..i] && (c + [x])[i + 1..] == c[i + 1..] + [x];
    assert c[..i] + [d[i]] + c[i + 1..] + [x] == c[..i] + [d[i]] + (c[i + 1..] + [x]);
  }

  lemma {:induction false} AppendEdit(b: seq<Byte>, y: Byte)
    ensures OneEdit(b, b + [y]) && OneEdit(b + [y], b)
  {
    assert InsertedAt(b, b + [y], |b|);
  }

  lemma {:induction false} SwapLast(b: seq<Byte>, x: Byte, y: Byte)
    ensures OneEdit(b + [x], b + [y])
  {
    assert SubstitutedAt(b + [x], b + [y], |b|) by {
      assert b + [y] == (b + [x])[..|b|] + [y] + (b + [x])[|b| + 1..];
    }
  }

  function Suffixed(p: seq<seq<Byte>>, x: Byte): (q: seq<seq<Byte>>)
    ensures |q| == |p| && forall k | 0 <= k < |p| :: q[k] == p[k] + [x]
  {
    seq(|p|, k requires 0 <= k < |p| => p[k] + [x])
  }

  lemma {:induction false} SuffixedRewrites(p: seq<seq<Byte>>, a: seq<Byte>, b: seq<Byte>, x: Byte)
    requires Rewrites(p, a, b)
    ensures Rewrites(Suffixed(p, x), a + [x], b + [x])
  {
    hide OneEdit;
    var q := Suffixed(p, x);
    forall k | 0 <= k < |q| - 1 ensures OneEdit(q[k], q[k + 1]) {
      SuffixEdit(p[k], p[k + 1], x);
    }
  }

  lemma {:induction false} ThenEdit(p: seq<seq<Byte>>, a: seq<Byte>, b: seq<Byte>, c: seq<Byte>)
    requires Rewrites(p, a, b) && OneEdit(b, c)
    ensures Rewrites(p + [c], a, c)
  {
    hide OneEdit;
    var q := p + [c];
    forall k | 0 <= k < |q| - 1 ensures OneEdit(q[k], q[k + 1]) {
      if k < |p| - 1 {
        assert q[k] == p[k] && q[k + 1] == p[k + 1];
      }
    }
  }

  lemma {:induction false} EditThen(p: seq<seq<Byte>>, a: seq<Byte>, b: seq<Byte>, c: seq<Byte>)
    requires Rewrites(p, b, c) && OneEdit(a, b)
    ensures Rewrites([a] + p, a, c)
  {
    hide OneEdit;
    var q := [a] + p;
    forall k | 0 <= k < |q| - 1 ensures OneEdit(q[k], q[k + 1]) {
      if k > 0 {
        assert q[k] == p[k - 1] && q[k + 1] == p[k];
      }
    }
  }

  lemma {:induction false} ShortestRewriting(a: seq<Byte>, b: seq<Byte>) returns (p: seq<seq<Byte>>)
    ensures Rewrites(p, a, b) && |p| - 1 == Lev(a, b)
    decreases |a| + |b|
  {
    hide OneEdit;
    if a == [] && b == [] {
      return [a];
    }
    if a == [] || (b != [] && Lev(a, b) == Lev(a, b[..|b| - 1]) + 1) {
      // the last byte of `b` is inserted
      var b', y := b[..|b| - 1], b[|b| - 1];
      p := ShortestRewriting(a, b');
      AppendEdit(b', y);
      assert b == b' + [y];
      ThenEdit(p, a, b', b);
      return p + [b];
    }
    var a', x := a[..|a| - 1], a[|a| - 1];
    assert a == a' + [x];
    if b == [] || Lev(a, b) == Lev(a', b) + 1 {
      // the last byte of `a` is deleted
      p := ShortestRewriting(a', b);
      AppendEdit(a', x);
      EditThen(p, a, a', b);
      return [a] + p;
    }
    var b', y := b[..|b| - 1], b[|b| - 1];
    assert b == b' + [y];
    p := ShortestRewriting(a', b');
    SuffixedRewrites(p, a', b', x);
    p := Suffixed(p, x);
    if x != y {
      SwapLast(b', x, y);
      ThenEdit(p, a, b' + [x], b);
      p := p + [b];
    }
  }

  /** The distance is the least number of single-byte edits. */
  lemma {:induction false} DistanceIsLeast(a: seq<Byte>, b: seq<Byte>)
    ensures exists p :: Rewrites(p, a, b) && |p| - 1 == Lev(a, b)
    ensures forall p | Rewrites(p, a, b) :: |p| - 1 >= Lev(a, b)
  {
    hide Lev, Rewrites;
    var p := ShortestRewriting(a, b);
    forall q | Rewrites(q, a, b) ensures |q| - 1 >= Lev(a, b) {
      NoShorterRewriting(q, a, b);
    }
  }

  /** Strings of different lengths are at least that far apart. */
  lemma {:induction false} AtLeastLengthDifference(a: seq<Byte>, b: seq<Byte>)
    ensures |a| <= |b| + Lev(a, b) && |b| <= |a| + Lev(a, b)
    decreases |a| + |b|
  {
    if a != [] && b != [] {
      var a', b' := a[..|a| - 1], b[..|b| - 1];
      AtLeastLengthDifference(a', b);
      AtLeastLengthDifference(a, b');
      AtLeastLengthDifference(a', b');
    }
  }
}
