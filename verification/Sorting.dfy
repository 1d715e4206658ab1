/** The standard library's sorts, as the model uses them: a stable sort by a strict order. */
module Sorting {

  /** `less` is a strict order (elements neither way related count as equal). */
  ghost predicate StrictOrder<T(!new)>(less: (T, T) -> bool) {
    && (forall a :: !less(a, a))
    && (forall a, b, c :: less(a, b) && less(b, c) ==> less(a, c))
    && (forall a, b, c :: less(a, c) ==> less(a, b) || less(b, c))
  }

  /** No two elements of `s` count as equal, and none occurs twice. */
  ghost predicate Distinguishes<T(!new)>(less: (T, T) -> bool, s: seq<T>) {
    forall i, j | 0 <= i < j < |s| :: less(s[i], s[j]) || less(s[j], s[i])
  }

  ghost predicate Ascends<T(!new)>(less: (T, T) -> bool, s: seq<T>) {
    forall i, j | 0 <= i < j < |s| :: less(s[i], s[j])
  }

  ghost predicate NeverDescends<T(!new)>(less: (T, T) -> bool, s: seq<T>) {
    forall i, j | 0 <= i < j < |s| :: !less(s[j], s[i])
  }

  function Insert<T>(less: (T, T) -> bool, x: T, s: seq<T>): (r: seq<T>)
    ensures multiset(r) == multiset(s) + multiset{x} && |r| == |s| + 1
  {
    if s == [] || less(x, s[0]) then [x] + s
    else
      assert s == [s[0]] + s[1..];
      [s[0]] + Insert(less, x, s[1..])
  }

  function Sort<T>(less: (T, T) -> bool, s: seq<T>): (r: seq<T>)
    ensures multiset(r) == multiset(s) && |r| == |s|
  {
    if s == [] then []
    else
      assert s == s[..|s| - 1] + [s[|s| - 1]];
      Insert(less, s[|s| - 1], Sort(less, s[..|s| - 1]))
  }

  lemma {:induction false} SameElements<T>(a: seq<T>, b: seq<T>)
    requires multiset(a) == multiset(b)
    ensures |a| == |b| && forall x :: x in a <==> x in b
  {
    assert |multiset(a)| == |a| && |multiset(b)| == |b|;
    forall x ensures x in a <==> x in b {
      assert x in a <==> x in multiset(a);
      assert x in b <==> x in multiset(b);
    }
  }

  lemma {:induction false} InsertSorts<T(!new)>(less: (T, T) -> bool, x: T, s: seq<T>)
    requires StrictOrder(less) && NeverDescends(less, s)
    ensures NeverDescends(less, Insert(less, x, s))
  {
    if s != [] && !less(x, s[0]) {
      var rest := Insert(less, x, s[1..]);
      InsertSorts(less, x, s[1..]);
      SameElements(rest, s[1..] + [x]);
      forall j | 0 <= j < |rest| ensures !less(rest[j], s[0]) {
        assert rest[j] in s[1..] + [x];
      }
    }
  }

  lemma {:induction false} SortSorts<T(!new)>(less: (T, T) -> bool, s: seq<T>)
    requires StrictOrder(less)
    ensures NeverDescends(less, Sort(less, s))
  {
    if s != [] {
      SortSorts(less, s[..|s| - 1]);
      InsertSorts(less, s[|s| - 1], Sort(less, s[..|s| - 1]));
    }
  }

  /** Elements that all differ come out strictly ascending. */
  lemma {:induction false} SortAscends<T(!new)>(less: (T, T) -> bool, s: seq<T>)
    requires StrictOrder(less) && Distinguishes(less, s)
    ensures Ascends(less, Sort(less, s))
  {
    var r := Sort(less, s);
    SortSorts(less, s);
    forall i, j | 0 <= i < j < |r| ensures less(r[i], r[j]) {
      if r[i] == r[j] {
        Twice(r, i, j);
        var a, b := TwoPlaces(s, r[i]);
        Related(less, s, a, b);
        assert false;
      } else {
        SameElements(r, s);
        Related(less, s, IndexOf(s, r[i]), IndexOf(s, r[j]));
      }
    }
  }

  lemma {:induction false} Related<T(!new)>(less: (T, T) -> bool, s: seq<T>, a: nat, b: nat)
    requires Distinguishes(less, s) && a < |s| && b < |s| && a != b
    ensures less(s[a], s[b]) || less(s[b], s[a])
  {
  }

  ghost function IndexOf<T>(s: seq<T>, x: T): (i: nat)
    requires x in s
    ensures i < |s| && s[i] == x
  {
    var i :| 0 <= i < |s| && s[i] == x;
    i
  }

  lemma {:induction false} Twice<T>(s: seq<T>, i: nat, j: nat)
    requires i < j < |s| && s[i] == s[j]
    ensures multiset(s)[s[i]] >= 2
  {
    assert s == s[..j] + [s[j]] + s[j + 1..];
    assert s[i] in s[..j] by {
      assert s[..j][i] == s[i];
    }
  }

  lemma {:induction false} TwoPlaces<T>(s: seq<T>, x: T) returns (a: nat, b: nat)
    requires multiset(s)[x] >= 2
    ensures a < b < |s| && s[a] == x && s[b] == x
  {
    b := IndexOf(s, x);
    var rest := s[..b] + s[b + 1..];
    assert s == s[..b] + [s[b]] + s[b + 1..];
    assert multiset(s) == multiset(rest) + multiset{x};
    var c := IndexOf(rest, x);
    a := if c < b then c else c + 1;
    if b < a {
      a, b := b, a;
    }
  }

  /** There is one ascending arrangement of given elements: sorts that need not be stable agree too. */
  lemma {:induction false} AscendingUnique<T(!new)>(less: (T, T) -> bool, a: seq<T>, b: seq<T>)
    requires StrictOrder(less) && Ascends(less, a) && Ascends(less, b) && multiset(a) == multiset(b)
    ensures a == b
  {
    SameElements(a, b);
    if a != [] {
      SameHead(less, a, b);
      TailElements(a);
      TailElements(b);
      TailAscends(less, a);
      TailAscends(less, b);
      hide StrictOrder, Ascends;
      AscendingUnique(less, a[1..], b[1..]);
    }
  }

  lemma {:induction false} TailElements<T>(s: seq<T>)
    requires s != []
    ensures s == [s[0]] + s[1..] && multiset(s[1..]) == multiset(s) - multiset{s[0]}
  {
    assert s == [s[0]] + s[1..];
  }

  lemma {:induction false} TailAscends<T(!new)>(less: (T, T) -> bool, s: seq<T>)
    requires Ascends(less, s) && s != []
    ensures Ascends(less, s[1..])
  {
  }

  lemma {:induction false} SameHead<T(!new)>(less: (T, T) -> bool, a: seq<T>, b: seq<T>)
    requires StrictOrder(less) && Ascends(less, a) && Ascends(less, b) && multiset(a) == multiset(b) && a != []
    ensures b != [] && a[0] == b[0]
  {
    SameElements(a, b);
    assert a[0] in b && b[0] in a;
    var i, j := IndexOf(b, a[0]), IndexOf(a, b[0]);
  }

  /** Without repeats, the same members make the same multiset. */
  lemma {:induction false} SameSet<T(!new)>(a: seq<T>, b: seq<T>)
    requires forall i, j | 0 <= i < j < |a| :: a[i] != a[j]
    requires forall i, j | 0 <= i < j < |b| :: b[i] != b[j]
    requires forall x :: x in a <==> x in b
    ensures multiset(a) == multiset(b)
  {
    forall x: T ensures multiset(a)[x] == multiset(b)[x] {
      if multiset(a)[x] >= 2 {
        var i, j := TwoPlaces(a, x);
        assert false;
      }
      if multiset(b)[x] >= 2 {
        var i, j := TwoPlaces(b, x);
        assert false;
      }
      assert x in multiset(a) <==> x in a;
      assert x in multiset(b) <==> x in b;
    }
  }

  /** Of two ascending lists, the one that holds exactly the other's leading elements is its prefix. */
  lemma {:induction false} LeadingPrefix<T(!new)>(less: (T, T) -> bool, a: seq<T>, b: seq<T>)
    requires StrictOrder(less) && Ascends(less, a) && Ascends(less, b)
    requires forall x | x in a :: x in b
    requires forall x, y | x in a && y in b && y !in a :: less(x, y)
    ensures |a| <= |b| && a == b[..|a|]
  {
    if a != [] {
      assert a[0] in b;
      SameFirst(less, a, b);
      var a', b' := a[1..], b[1..];
      forall x | x in a' ensures x in b' {
        var i :| 0 <= i < |a'| && a'[i] == x;
        assert less(a[0], a[i + 1]) && a[i + 1] in a;
        var k :| 0 <= k < |b| && b[k] == x;
        assert k != 0;
        assert b'[k - 1] == x;
      }
      forall x, y | x in a' && y in b' && y !in a' ensures less(x, y) {
        var k :| 0 <= k < |b'| && b'[k] == y;
        assert less(b[0], b[k + 1]);
        assert y != a[0] && y in b && a == [a[0]] + a';
        assert y !in a && x in a;
      }
      LeadingPrefix(less, a', b');
    }
  }

  lemma {:induction false} FirstLeast<T(!new)>(less: (T, T) -> bool, s: seq<T>, x: T)
    requires Ascends(less, s) && x in s
    ensures s[0] == x || less(s[0], x)
  {
    var i :| 0 <= i < |s| && s[i] == x;
  }

  lemma {:induction false} SameFirst<T(!new)>(less: (T, T) -> bool, a: seq<T>, b: seq<T>)
    requires StrictOrder(less) && Ascends(less, a) && Ascends(less, b) && a != []
    requires forall x | x in a :: x in b
    requires forall x, y | x in a && y in b && y !in a :: less(x, y)
    ensures b != [] && a[0] == b[0]
  {
    assert a[0] in a && a[0] in b;
    assert b[0] in b;
    FirstLeast(less, b, a[0]);
    if b[0] in a {
      FirstLeast(less, a, b[0]);
    }
  }
}
