/** Failure-compatible results shared by every reader of the index format. */
module Wrappers {

  datatype Option<+T> = None | Some(value: T)

  /** `take(n)` */
  function FirstN<T>(s: seq<T>, n: nat): seq<T> {
    if n <= |s| then s[..n] else s
  }

  /** The readers' error kinds: the data ended at an offset, a varint carried more than 64 bits, or a number was out of range. */
  datatype Error = Truncated(pos: nat) | Overlong | OutOfRange

  datatype Result<+T> = Success(value: T) | Failure(error: Error) {
    predicate IsFailure() {
      Failure?
    }

    function PropagateFailure<U>(): Result<U>
      requires Failure?
    {
      Failure(error)
    }

    function Extract(): T
      requires Success?
    {
      value
    }
  }

  /** A decoded value and the position just past it. */
  datatype Parsed<+T> = Parsed(value: T, next: nat)

  /** What a loop that has read `xs` so far returns, when the rest of the input reads as `r`. */
  function Prepend<T>(xs: seq<T>, r: Result<Parsed<seq<T>>>): Result<Parsed<seq<T>>> {
    match r
    case Success(p) => Success(Parsed(xs + p.value, p.next))
    case Failure(e) => Failure(e)
  }

  lemma {:induction false} PrependNothing<T>(r: Result<Parsed<seq<T>>>)
    ensures Prepend([], r) == r
  {
    if r.Success? {
      assert [] + r.value.value == r.value.value;
    }
  }

  lemma {:induction false} PrependMore<T>(xs: seq<T>, x: T, r: Result<Parsed<seq<T>>>)
    ensures Prepend(xs + [x], r) == Prepend(xs, Prepend([x], r))
  {
    if r.Success? {
      assert xs + [x] + r.value.value == xs + ([x] + r.value.value);
    }
  }

  /** The items a walk visits before it ends, and the error that ended it early, if any. */
  datatype Scan<+T> = Scan(items: seq<T>, error: Option<Error>) {
    function ToResult(): Result<seq<T>> {
      match error
      case None => Success(items)
      case Some(e) => Failure(e)
    }
  }

  function After<T>(xs: seq<T>, s: Scan<T>): Scan<T> {
    Scan(xs + s.items, s.error)
  }

  lemma {:induction false} AfterNothing<T>(s: Scan<T>)
    ensures After([], s) == s
  {
    assert [] + s.items == s.items;
  }

  lemma {:induction false} AfterMore<T>(xs: seq<T>, x: T, s: Scan<T>)
    ensures After(xs + [x], s) == After(xs, After([x], s))
  {
    assert xs + [x] + s.items == xs + ([x] + s.items);
  }
}
