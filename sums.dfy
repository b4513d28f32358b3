/** Finite sums over real-valued functions, the arithmetic that every
    windowed sum and every normalisation in the filters is built from.
    Dafny has no function extensionality, so every lemma relates two
    functions through a pointwise hypothesis on the summation range. */
module Sums {

  /** f(0) + f(1) + ... + f(n - 1). */
  function Sum(n: nat, f: int -> real): real
  {
    if n == 0 then 0.0 else Sum(n - 1, f) + f(n - 1)
  }

  /** The sum of f(a, b) over the rectangle 0 <= a < m, 0 <= b < n. */
  function Sum2(m: nat, n: nat, f: (int, int) -> real): real
  {
    Sum(m, a => RowSum(n, f, a))
  }

  /** The sum of row a of f: f(a, 0) + ... + f(a, n - 1). */
  function RowSum(n: nat, f: (int, int) -> real, a: int): real
  {
    Sum(n, b => f(a, b))
  }

  /** Functions that agree on [0, n) have the same sum. */
  lemma {:induction false} SumCongruent(n: nat, f: int -> real, g: int -> real)
    requires forall x :: 0 <= x < n ==> f(x) == g(x)
    ensures Sum(n, f) == Sum(n, g)
  {
    if n > 0 {
      SumCongruent(n - 1, f, g);
    }
  }

  /** A constant factor moves out of the sum. */
  lemma {:induction false} SumScale(n: nat, f: int -> real, g: int -> real, c: real)
    requires forall x :: 0 <= x < n ==> g(x) == c * f(x)
    ensures Sum(n, g) == c * Sum(n, f)
  {
    if n > 0 {
      SumScale(n - 1, f, g, c);
    }
  }

  /** A non-empty sum of positive terms is positive. */
  lemma {:induction false} SumPositive(n: nat, f: int -> real)
    requires n > 0
    requires forall x :: 0 <= x < n ==> f(x) > 0.0
    ensures Sum(n, f) > 0.0
  {
    if n > 1 {
      SumPositive(n - 1, f);
    }
  }

  /** Splitting off the first term: f(0) + f(1) + ... + f(n). */
  lemma {:induction false} SumShift(n: nat, f: int -> real, g: int -> real)
    requires forall x :: 0 <= x < n ==> g(x) == f(x + 1)
    ensures Sum(n + 1, f) == f(0) + Sum(n, g)
  {
    if n > 0 {
      SumShift(n - 1, f, g);
    }
  }

  /** Summing in reverse order gives the same total. */
  lemma {:induction false} SumReverse(n: nat, f: int -> real, g: int -> real)
    requires forall x :: 0 <= x < n ==> g(x) == f(n - 1 - x)
    ensures Sum(n, g) == Sum(n, f)
  {
    if n > 0 {
      var tail := y => f(y + 1);
      SumReverse(n - 1, tail, g);
      SumShift(n - 1, f, tail);
    }
  }

  lemma Sum2Congruent(m: nat, n: nat, f: (int, int) -> real, g: (int, int) -> real)
    requires forall a, b :: 0 <= a < m && 0 <= b < n ==> f(a, b) == g(a, b)
    ensures Sum2(m, n, f) == Sum2(m, n, g)
  {
    forall a | 0 <= a < m
      ensures RowSum(n, f, a) == RowSum(n, g, a)
    {
      SumCongruent(n, b => f(a, b), b => g(a, b));
    }
    SumCongruent(m, a => RowSum(n, f, a), a => RowSum(n, g, a));
  }

  lemma Sum2Scale(m: nat, n: nat, f: (int, int) -> real, g: (int, int) -> real, c: real)
    requires forall a, b :: 0 <= a < m && 0 <= b < n ==> g(a, b) == c * f(a, b)
    ensures Sum2(m, n, g) == c * Sum2(m, n, f)
  {
    forall a | 0 <= a < m
      ensures RowSum(n, g, a) == c * RowSum(n, f, a)
    {
      SumScale(n, b => f(a, b), b => g(a, b), c);
    }
    SumScale(m, a => RowSum(n, f, a), a => RowSum(n, g, a), c);
  }

  lemma Sum2Positive(m: nat, n: nat, f: (int, int) -> real)
    requires m > 0 && n > 0
    requires forall a, b :: 0 <= a < m && 0 <= b < n ==> f(a, b) > 0.0
    ensures Sum2(m, n, f) > 0.0
  {
    forall a | 0 <= a < m
      ensures RowSum(n, f, a) > 0.0
    {
      SumPositive(n, b => f(a, b));
    }
    SumPositive(m, a => RowSum(n, f, a));
  }

  /** Rotating the rectangle by 180 degrees does not change the sum. */
  lemma Sum2Reverse(m: nat, n: nat, f: (int, int) -> real, g: (int, int) -> real)
    requires forall a, b :: 0 <= a < m && 0 <= b < n ==> g(a, b) == f(m - 1 - a, n - 1 - b)
    ensures Sum2(m, n, g) == Sum2(m, n, f)
  {
    forall a | 0 <= a < m
      ensures RowSum(n, g, a) == RowSum(n, f, m - 1 - a)
    {
      SumReverse(n, b => f(m - 1 - a, b), b => g(a, b));
    }
    SumReverse(m, a => RowSum(n, f, a), a => RowSum(n, g, a));
  }
}
