// Sign and magnitude facts about products of reals, kept apart from the
// modules that mix reals with integers so the solver meets them alone.

module RealArith {
  /** The displacement `a * ms * v` of one movement step along one axis. */
  function Scaled(a: real, ms: real, v: real): (d: real)
    requires -1.0 < a * ms < 1.0 && -1.0 <= v <= 1.0
    ensures -1.0 < d < 1.0
  {
    var t := a * ms;
    BoundedProduct(t, v);
    t * v
  }

  /** The product of two non-negative reals is non-negative. */
  lemma NonnegProduct(a: real, b: real)
    requires a >= 0.0 && b >= 0.0
    ensures a * b >= 0.0
  {
  }

  /** A product of a factor in (-1, 1) and one in [-1, 1] lies in (-1, 1). */
  lemma {:induction false} BoundedProduct(t: real, v: real)
    requires -1.0 < t < 1.0 && -1.0 <= v <= 1.0
    ensures -1.0 < t * v < 1.0
  {
    var p := if t >= 0.0 then t else -t;
    var q := if v >= 0.0 then v else -v;
    assert 0.0 <= p < 1.0 && 0.0 <= q <= 1.0;
    NonnegProduct(p, 1.0 - q);
    NonnegProduct(p, q);
    var m := p * q;
    assert p * (1.0 - q) == p - m;
    assert m <= p;
    assert t * v == m || t * v == -m;
  }

  /** The product of two positive reals is positive. */
  lemma PositiveProduct(a: real, b: real)
    requires a > 0.0 && b > 0.0
    ensures a * b > 0.0
  {
  }

  /** A fraction of a positive length is shorter than the length. */
  lemma {:induction false} ScaledFraction(f: real, n: real)
    requires 0.0 <= f < 1.0 && n > 0.0
    ensures 0.0 <= f * n < n && 0.0 <= n * f < n
  {
    NonnegProduct(f, n);
    PositiveProduct(1.0 - f, n);
    var m := f * n;
    assert (1.0 - f) * n == n - m;
  }

  /** `a` after `d` has been added to it `k` times, as the renderer's
      inner loops advance their float coordinates. */
  function Stepped(a: real, d: real, k: nat): real
    decreases k
  {
    if k == 0 then a else Stepped(a, d, k - 1) + d
  }

  /** Adding `d` repeatedly is adding `k * d` once. */
  lemma {:induction false} SteppedIsLinear(a: real, d: real, k: nat)
    ensures Stepped(a, d, k) == a + (k as real) * d
    decreases k
  {
    if k > 0 {
      SteppedIsLinear(a, d, k - 1);
      assert (k as real) * d == ((k - 1) as real) * d + d;
    }
  }
}
