/** Shared vocabulary: the outcome of an operation that the source can abort
    (a failed `assert` or a Python `ZeroDivisionError`), and the real-valued
    `max`/`min` the source takes from Python's builtins. */
module Common {

  /** Why an operation of the source stops with an exception. */
  datatype Error =
    | AssertionFailed   // an `assert` in the source does not hold
    | ZeroDivision      // a Python float is divided by zero

  datatype Result<T> = Ok(value: T) | Err(error: Error)

  /** Python's `max(x, y)` on floats. */
  function Max(x: real, y: real): (r: real)
    ensures r >= x && r >= y && (r == x || r == y)
  {
    if y > x then y else x
  }

  /** Python's `min(x, y)` on floats. */
  function Min(x: real, y: real): (r: real)
    ensures r <= x && r <= y && (r == x || r == y)
  {
    if y < x then y else x
  }

  /** Absolute value (`np.abs`). */
  function Abs(x: real): (r: real)
    ensures 0.0 <= r && (r == x || r == -x)
  {
    if x < 0.0 then -x else x
  }

  /** Python's `int(x)` on a float: truncation toward zero (also what numpy
      does when a float is stored into an integer array). */
  function Trunc(x: real): (r: int)
    ensures 0.0 <= x ==> 0 <= r && r as real <= x < r as real + 1.0
    ensures x < 0.0 ==> r <= 0 && r as real - 1.0 < x <= r as real
  {
    if x >= 0.0 then x.Floor else -((-x).Floor)
  }

  /** The closed unit interval, the documented domain of every probability,
      weight and population fraction of the model. */
  predicate Unit(x: real)
  {
    0.0 <= x <= 1.0
  }

  /** Multiplying both sides of `a <= b` by a non-negative factor. */
  lemma MulLeft(a: real, b: real, c: real)
    requires a <= b && 0.0 <= c
    ensures c * a <= c * b && a * c <= b * c
  {
  }

  /** Multiplying both sides of `a < b` by a positive factor. */
  lemma MulLeftStrict(a: real, b: real, c: real)
    requires a < b && 0.0 < c
    ensures c * a < c * b
  {
  }

  /** Dividing both sides of `a <= b` by a positive divisor. */
  lemma DivMono(a: real, b: real, c: real)
    requires a <= b && 0.0 < c
    ensures a / c <= b / c
  {
  }

  /** Division undone by multiplication. */
  lemma DivCancel(a: real, b: real)
    requires b != 0.0
    ensures (a / b) * b == a && b * (a / b) == a
    ensures (a * b) / b == a && (b * a) / b == a
  {
  }

  /** A product of nonnegative numbers is nonnegative. */
  lemma MulNonneg(a: real, b: real)
    requires 0.0 <= a && 0.0 <= b
    ensures 0.0 <= a * b
  {
  }

  /** A product of two factors in [0, 1]-scaled form: `0 <= a * m <= a`. */
  lemma ScaledBelow(a: real, m: real)
    requires 0.0 <= a && 0.0 <= m <= 1.0
    ensures 0.0 <= a * m <= a
  {
    assert 0.0 <= a * m by { MulNonneg(a, m); }
    assert a * m <= a by { MulLeft(m, 1.0, a); }
  }

  /** Squaring is monotone on nonnegative numbers. */
  lemma SquareMono(a: real, b: real)
    requires 0.0 <= a <= b
    ensures a * a <= b * b
  {
    assert a * a <= a * b by { MulLeft(a, b, a); }
    assert a * b <= b * b by { MulLeft(a, b, b); }
  }

  /** A count out of a positive total is a fraction. */
  lemma FractionUnit(k: nat, n: nat)
    requires 1 <= n && k <= n
    ensures Unit(k as real / n as real)
  {
    DivMono(k as real, n as real, n as real);
  }

  /** One minus the share of the other `n - k` out of `n` is `k / n`. */
  lemma ComplementFraction(k: nat, n: nat)
    requires 1 <= n && k <= n
    ensures 1.0 - (n - k) as real / n as real == k as real / n as real
  {
    var m, q := n as real, k as real;
    assert (n - k) as real == m - q;
    assert (m - q) / m == m / m - q / m;
    assert m / m == 1.0;
  }

  /** Truncating a count that lies in `[0, k]` gives a count in `[0, k]`. */
  lemma TruncWithin(x: real, k: nat)
    requires 0.0 <= x <= k as real
    ensures 0 <= Trunc(x) <= k
  {
  }

  /** Truncating a whole number gives it back. */
  lemma TruncWhole(x: real, k: nat)
    requires x == k as real
    ensures Trunc(x) == k
  {
  }
}
