/**
 Durations as Go's `time.Duration` values: integer nanoseconds.

 The monitor only ever adds durations, compares them, divides them by a
 count and truncates them to milliseconds. This module defines those
 operations once, together with the reference notions (sum, smallest and
 largest element of a list) the rest of the model is proved against.
 */
module Durations {

  /** One millisecond, in nanoseconds (`time.Millisecond`). */
  const Millisecond: int := 1_000_000

  /** One second, in nanoseconds (`time.Second`). */
  const Second: int := 1_000 * Millisecond

  function Abs(x: int): (r: nat)
    ensures r == x || r == -x
  {
    if x < 0 then -x else x
  }

  /** Sum of a list of durations, accumulated in list order. */
  function Sum(xs: seq<int>): int
  {
    if |xs| == 0 then 0 else Sum(xs[..|xs| - 1]) + xs[|xs| - 1]
  }

  lemma SumAppend(xs: seq<int>, d: int)
    ensures Sum(xs + [d]) == Sum(xs) + d
  {
    assert (xs + [d])[..|xs|] == xs;
  }

  lemma {:induction false} SumNonNegative(xs: seq<int>)
    requires NonNegative(xs)
    ensures Sum(xs) >= 0
  {
    if |xs| > 0 {
      SumNonNegative(xs[..|xs| - 1]);
    }
  }

  /** Every duration in the list is at least zero. */
  predicate NonNegative(xs: seq<int>)
  {
    forall i :: 0 <= i < |xs| ==> xs[i] >= 0
  }

  /** Every duration in the list is strictly positive. */
  predicate Positive(xs: seq<int>)
  {
    forall i :: 0 <= i < |xs| ==> xs[i] > 0
  }

  /** `m` is an element of `xs` and no element is smaller. */
  predicate IsMinOf(m: int, xs: seq<int>)
  {
    m in xs && forall i :: 0 <= i < |xs| ==> m <= xs[i]
  }

  /** `m` is an element of `xs` and no element is larger. */
  predicate IsMaxOf(m: int, xs: seq<int>)
  {
    m in xs && forall i :: 0 <= i < |xs| ==> xs[i] <= m
  }

  /**
   Go's integer division on `int64`/`time.Duration`: the quotient is
   truncated toward zero (Dafny's own `/` is Euclidean). Overflow of the
   single case `MinInt64 / -1` is not modelled, as integers are unbounded.
   */
  function Quot(a: int, b: int): (q: int)
    requires b != 0
    ensures Abs(q) * Abs(b) <= Abs(a) < (Abs(q) + 1) * Abs(b)
    ensures q == 0 || (q > 0 <==> (a > 0) == (b > 0))
    ensures a >= 0 && b > 0 ==> q == a / b
  {
    var q0 := Abs(a) / Abs(b);
    DivBounds(Abs(a), Abs(b));
    if (a >= 0) == (b > 0) then q0 else -q0
  }

  /** Euclidean division of naturals brackets the dividend. */
  lemma DivBounds(x: nat, y: int)
    requires y > 0
    ensures 0 <= x / y && (x / y) * y <= x < (x / y + 1) * y
  {
    var q, r := x / y, x % y;
    assert x == q * y + r && 0 <= r < y;
    assert (q + 1) * y == q * y + y;
  }

  /**
   `time.Duration.Milliseconds()`: the duration in whole milliseconds,
   truncated toward zero.
   */
  function Milliseconds(d: int): (ms: int)
    ensures d >= 0 ==> 0 <= ms && ms * Millisecond <= d < (ms + 1) * Millisecond
    ensures d <= 0 ==> ms <= 0 && ms * Millisecond >= d > (ms - 1) * Millisecond
  {
    Quot(d, Millisecond)
  }

  /** Truncation to milliseconds never reverses the order of two durations. */
  lemma MillisecondsMonotonic(a: int, b: int)
    requires a <= b
    ensures Milliseconds(a) <= Milliseconds(b)
  {
    var ma, mb := Milliseconds(a), Milliseconds(b);
    if 0 <= a {
      assert ma * Millisecond <= b < (mb + 1) * Millisecond;
    } else if b <= 0 {
      assert (ma - 1) * Millisecond < a <= b <= mb * Millisecond;
    }
  }
}
