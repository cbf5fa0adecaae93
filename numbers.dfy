/** Python's numeric conversions on floats, over the reals. */
module Numbers {
  /** `int(x)`: truncation toward zero. */
  function Trunc(x: real): int
  {
    if x >= 0.0 then x.Floor else -((-x).Floor)
  }

  /** `x % 1`: the part above the floor, in `[0, 1)`. */
  function Frac(x: real): (f: real)
    ensures 0.0 <= f < 1.0
  {
    x - x.Floor as real
  }

  function Abs(x: real): (r: real)
    ensures r >= 0.0 && (r == x || r == -x)
  {
    if x >= 0.0 then x else -x
  }

  /** `np.clip(n, lo, hi)` */
  function Clip(n: int, lo: int, hi: int): (r: int)
    requires lo <= hi
    ensures lo <= r <= hi
    ensures lo <= n <= hi ==> r == n
  {
    if n < lo then lo else if n > hi then hi else n
  }

  /** `int(x)` drops the fraction toward zero: it is the largest integer not above a
      non-negative x, and the smallest integer not below a negative x. */
  lemma TruncBounds(x: real)
    ensures x >= 0.0 ==> 0.0 <= Trunc(x) as real <= x < Trunc(x) as real + 1.0
    ensures x < 0.0 ==> Trunc(x) as real - 1.0 < x <= Trunc(x) as real <= 0.0
  {
  }

  lemma TruncExamples()
    ensures Trunc(2.7) == 2 && Trunc(-2.7) == -2 && Trunc(-0.5) == 0
  {
  }
}
