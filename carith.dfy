// The pieces of C semantics the renderer and the map generator rely on:
// truncating integer division, float-to-int conversion, the int8 narrowing
// of mouse deltas, and the bitwise `&` and `^` on non-negative integers.

module CArith {

  /** C's `/` on int: the quotient is truncated toward zero. */
  function CDiv(a: int, b: int): (q: int)
    requires b != 0
    ensures a >= 0 && b > 0 ==> q == a / b
    ensures a >= 0 && b > 0 ==> q * b <= a < q * b + b
    ensures (a >= 0) == (b > 0) || a == 0 || q <= 0
  {
    if a >= 0 && b > 0 then a / b
    else if a < 0 && b < 0 then (-a) / (-b)
    else if a < 0 then -((-a) / b)
    else -(a / (-b))
  }

  /** C's conversion of a float to int: truncation toward zero. */
  function Trunc(r: real): (n: int)
    ensures r >= 0.0 ==> n == r.Floor
    ensures (n as real) - 1.0 < r < (n as real) + 1.0
    ensures n as real <= r || r < 0.0
    ensures r >= 0.0 ==> n >= 0
    ensures r <= 0.0 ==> n <= 0
  {
    if r >= 0.0 then r.Floor else -((-r).Floor)
  }

  /** `r - floor(r)`, the fractional part used for texture coordinates. */
  function Frac(r: real): (f: real)
    ensures 0.0 <= f < 1.0
  {
    r - (r.Floor as real)
  }

  function Abs(r: real): (a: real)
    ensures a >= 0.0 && (a == r || a == -r)
  {
    if r < 0.0 then -r else r
  }

  function Pow2(k: nat): (p: nat)
    ensures p >= 1
  {
    if k == 0 then 1 else 2 * Pow2(k - 1)
  }

  predicate IsPow2(w: int) {
    exists k: nat :: k <= 31 && Pow2(k) == w
  }

  const TwoTo32: int := 0x1_0000_0000

  /** Conversion of an int to `int8_t`, which wraps modulo 256. */
  function ToInt8(v: int): (r: int)
    ensures -128 <= r < 128
    ensures (r - v) % 256 == 0
    ensures -128 <= v < 128 ==> r == v
  {
    (v + 128) % 256 - 128
  }

  /** Bitwise `&` of two non-negative integers. */
  function BitAnd(a: nat, b: nat): nat
    decreases a
  {
    if a == 0 || b == 0 then 0
    else 2 * BitAnd(a / 2, b / 2) + (if a % 2 == 1 && b % 2 == 1 then 1 else 0)
  }

  /** Bitwise `^` of two non-negative integers. */
  function BitXor(a: nat, b: nat): nat
    decreases a + b
  {
    if a == 0 then b
    else if b == 0 then a
    else 2 * BitXor(a / 2, b / 2) + (if a % 2 != b % 2 then 1 else 0)
  }

  /** `n & (w - 1)` in C, for an `int` n (two's complement, 32 bits) and w >= 1;
      n is reduced modulo 2^32 first, so only its low 32 bits matter. */
  function Mask(n: int, w: int): nat
    requires 1 <= w <= 0x8000_0000
  {
    BitAnd(n % TwoTo32, w - 1)
  }

  lemma {:induction false} BitAndLowBits(a: nat, k: nat)
    ensures BitAnd(a, Pow2(k) - 1) == a % Pow2(k)
    decreases k
  {
    if k == 0 {
    } else if a == 0 {
    } else {
      var p := Pow2(k - 1);
      var m := Pow2(k);
      assert m == 2 * p;
      BitAndLowBits(a / 2, k - 1);
      var low := BitAnd(a / 2, p - 1);
      assert low == (a / 2) % p;
      BitAndOdd(a, p);
      assert BitAnd(a, m - 1) == 2 * low + a % 2;
      ModOfHalf(a, p);
    }
  }

  /** One bit of `a & (2p - 1)`: the low bit of the mask is set. */
  lemma BitAndOdd(a: nat, p: nat)
    requires a >= 1 && p >= 1
    ensures BitAnd(a, 2 * p - 1) == 2 * BitAnd(a / 2, p - 1) + a % 2
  {
    assert (2 * p - 1) / 2 == p - 1;
    assert (2 * p - 1) % 2 == 1;
  }

  /** `a * b` by repeated addition. Offsets into the map buffer are written
      with it, so the solver meets it only through its definition and
      through `MulIsTimes` where a proof asks for it. */
  function Mul(a: int, b: int): (r: int)
    ensures a >= 0 && b >= 0 ==> r >= 0
    decreases if a < 0 then -a else a
  {
    if a == 0 then 0
    else if a > 0 then Mul(a - 1, b) + b
    else Mul(a + 1, b) - b
  }

  lemma {:induction false} MulIsTimes(a: int, b: int)
    ensures Mul(a, b) == a * b
    decreases if a < 0 then -a else a
  {
    if a > 0 {
      MulIsTimes(a - 1, b);
      assert (a - 1) * b + b == a * b;
    } else if a < 0 {
      MulIsTimes(a + 1, b);
      assert (a + 1) * b - b == a * b;
    }
  }

  lemma MulMono(d: int, w: int)
    ensures d >= 1 && w >= 1 ==> d * w >= w
  {
    if d >= 1 && w >= 1 {
      assert (d - 1) * w >= 0;
    }
  }

  lemma MulLeft(a: int, b: int, h: int)
    requires a <= b && h >= 0
    ensures a * h <= b * h
  {
    assert (b - a) * h >= 0;
    assert (b - a) * h == b * h - a * h;
  }

  lemma MulSub(w: int, s: int)
    ensures (w - 1) * s == w * s - s
  {
  }

  lemma MulComm(a: int, b: int)
    ensures a * b == b * a
  {
  }

  lemma MulSucc(a: int, b: int)
    ensures (a + 1) * b == a * b + b
  {
  }

  lemma MulSmall(d: int, w: int)
    requires w >= 1 && -w < d * w < w
    ensures d == 0
  {
    MulMono(d, w);
    MulMono(-d, w);
    assert (-d) * w == -(d * w);
  }

  /** Quotient and remainder are determined by `n == q * w + r, 0 <= r < w`. */
  lemma DivModUnique(n: int, w: int, q: int, r: int)
    requires w >= 1 && n == q * w + r && 0 <= r < w
    ensures n % w == r && n / w == q
  {
    var q0, r0 := n / w, n % w;
    assert n == q0 * w + r0;
    assert (q - q0) * w == r0 - r;
    MulSmall(q - q0, w);
  }

  lemma ModOfHalf(a: nat, p: nat)
    requires p >= 1
    ensures 2 * ((a / 2) % p) + a % 2 == a % (2 * p)
  {
    var q := (a / 2) / p;
    var r := (a / 2) % p;
    assert a / 2 == q * p + r;
    assert a == 2 * (a / 2) + a % 2;
    assert a == q * (2 * p) + (2 * r + a % 2);
    DivModUnique(a, 2 * p, q, 2 * r + a % 2);
  }

  lemma {:induction false} Pow2Add(a: nat, b: nat)
    ensures Pow2(a + b) == Pow2(a) * Pow2(b)
    decreases a
  {
    if a > 0 {
      Pow2Add(a - 1, b);
      assert Pow2(a + b) == 2 * Pow2(a - 1 + b);
    }
  }

  lemma Pow2Value32()
    ensures Pow2(32) == TwoTo32
  {
    assert Pow2(8) == 256;
    assert Pow2(16) == 65536;
    assert Pow2(24) == 0x100_0000;
    assert Pow2(32) == TwoTo32;
  }

  lemma ModMod(n: int, q: int, w: int)
    requires w >= 1 && q >= 1
    ensures (n % (q * w)) % w == n % w
  {
    var m := q * w;
    MulMono(q, w);
    var d := n / m;
    var r := n % m;
    assert n == d * m + r;
    var e := r / w;
    var s := r % w;
    assert r == e * w + s;
    var t := d * q + e;
    assert t * w == d * m + e * w by {
      assert t * w == (d * q) * w + e * w;
      assert (d * q) * w == d * (q * w);
    }
    DivModUnique(n, w, t, s);
  }

  /** For a power-of-two w, masking with w - 1 is reduction modulo w,
      also for negative n: the masked coordinate lies in [0, w). */
  lemma MaskIsMod(n: int, w: int)
    requires 1 <= w <= 0x8000_0000
    requires IsPow2(w)
    ensures Mask(n, w) == n % w
    ensures 0 <= Mask(n, w) < w
  {
    var k: nat :| k <= 31 && Pow2(k) == w;
    BitAndLowBits(n % TwoTo32, k);
    Pow2Add(32 - k, k);
    Pow2Value32();
    ModMod(n, Pow2(32 - k), w);
  }

  lemma ModPeriod(n: int, w: int)
    requires w >= 1
    ensures (n + w) % w == n % w
  {
    var q := n / w;
    assert n == q * w + n % w;
    assert n + w == (q + 1) * w + n % w;
    DivModUnique(n + w, w, q + 1, n % w);
  }

  /** Sampling with the mask is periodic in the coordinate. */
  lemma MaskPeriodic(n: int, w: int)
    requires 1 <= w <= 0x8000_0000
    requires IsPow2(w)
    ensures Mask(n + w, w) == Mask(n, w)
  {
    MaskIsMod(n, w);
    MaskIsMod(n + w, w);
    ModPeriod(n, w);
  }

  /** `a & b` never exceeds `b`. */
  lemma {:induction false} BitAndBelow(a: nat, b: nat)
    ensures BitAnd(a, b) <= b
    decreases a
  {
    if a != 0 && b != 0 {
      BitAndBelow(a / 2, b / 2);
    }
  }

  /** Masking with `w - 1` yields a coordinate in [0, w), whatever w is. */
  lemma MaskBelow(n: int, w: int)
    requires 1 <= w <= 0x8000_0000
    ensures Mask(n, w) < w
  {
    BitAndBelow(n % TwoTo32, w - 1);
  }

  /** For a power-of-two w, masking leaves a coordinate already in [0, w) alone. */
  lemma MaskKeeps(n: int, w: int)
    requires 1 <= w <= 0x8000_0000 && IsPow2(w) && 0 <= n < w
    ensures Mask(n, w) == n
  {
    MaskIsMod(n, w);
    DivModUnique(n, w, 0, n);
  }

  /** The xor of two values below 2^k is below 2^k. */
  lemma {:induction false} XorBelow(a: nat, b: nat, k: nat)
    requires a < Pow2(k) && b < Pow2(k)
    ensures BitXor(a, b) < Pow2(k)
    decreases a + b
  {
    if a == 0 || b == 0 {
    } else {
      assert k >= 1;
      assert Pow2(k) == 2 * Pow2(k - 1);
      XorBelow(a / 2, b / 2, k - 1);
    }
  }
}
