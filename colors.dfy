// The integer colour macros of color.h and the two ways the renderer shades
// a y-side wall: the shift-and-mask on a packed 0x00RRGGBB pixel and the
// channel-wise halving of a palette colour.

module Colors {
  import opened CArith

  /** `XGRADIENT(X, W)`: `X * 256 / W` in C integer arithmetic. */
  function XGradient(x: int, w: int): int
    requires w != 0
  {
    CDiv(x * 256, w)
  }

  /** `YGRADIENT(Y, H)` is defined as `XGRADIENT(Y, H)`. */
  function YGradient(y: int, h: int): int
    requires h != 0
  {
    XGradient(y, h)
  }

  /** `XYGRADIENT(X, Y, W, H)`: `Y * 128 / H + X * 128 / W`. */
  function XYGradient(x: int, y: int, w: int, h: int): int
    requires w != 0 && h != 0
  {
    CDiv(y * 128, h) + CDiv(x * 128, w)
  }

  /** `XORCOLOR(X, Y, W, H)`: `(X * 256 / W) ^ (Y * 256 / H)`, for the
      non-negative coordinates and positive sizes every use passes. */
  function XorColor(x: int, y: int, w: int, h: int): nat
    requires 0 <= x && 0 <= y && 0 < w && 0 < h
  {
    BitXor(x * 256 / w, y * 256 / h)
  }

  lemma ScaledBelow(x: int, w: int, s: int)
    requires 0 <= x < w && s >= 1
    ensures 0 <= x * s / w < s
  {
    var n := x * s;
    MulLeft(0, x, s);
    MulLeft(x, w - 1, s);
    MulLeft(1, w, s);
    MulSub(w, s);
    var q := n / w;
    assert q * w <= n < q * w + w;
    MulLeft(0, q, w);
    if q >= s {
      MulLeft(s, q, w);
      MulComm(s, w);
    }
  }

  lemma XGradientRange(x: int, w: int)
    requires 0 <= x < w
    ensures 0 <= XGradient(x, w) <= 255
  {
    ScaledBelow(x, w, 256);
  }

  lemma YGradientRange(y: int, h: int)
    requires 0 <= y < h
    ensures 0 <= YGradient(y, h) <= 255
  {
    XGradientRange(y, h);
  }

  lemma XYGradientRange(x: int, y: int, w: int, h: int)
    requires 0 <= x < w && 0 <= y < h
    ensures 0 <= XYGradient(x, y, w, h) <= 254
  {
    ScaledBelow(x, w, 128);
    ScaledBelow(y, h, 128);
  }

  lemma XorColorRange(x: int, y: int, w: int, h: int)
    requires 0 <= x < w && 0 <= y < h
    ensures XorColor(x, y, w, h) <= 255
  {
    ScaledBelow(x, w, 256);
    ScaledBelow(y, h, 256);
    assert Pow2(8) == 256;
    XorBelow(x * 256 / w, y * 256 / h, 8);
  }

  /** An `RGB` triple of `uint8_t` channels, as in color.h. */
  datatype RGB = RGB(r: bv8, g: bv8, b: bv8)

  /** The three colour channels of a packed 0x00RRGGBB pixel. */
  function Blue(c: bv32): bv32 { c & 0xFF }
  function Green(c: bv32): bv32 { (c >> 8) & 0xFF }
  function Red(c: bv32): bv32 { (c >> 16) & 0xFF }

  /** `(color >> 1) & 8355711`, the darkening of the renderer. */
  function Darken(c: bv32): bv32 {
    (c >> 1) & 8355711
  }

  /** Darkening halves each colour channel and clears the top byte. */
  lemma DarkenHalvesChannels(c: bv32)
    ensures Blue(Darken(c)) == Blue(c) / 2
    ensures Green(Darken(c)) == Green(c) / 2
    ensures Red(Darken(c)) == Red(c) / 2
    ensures Darken(c) >> 24 == 0
  {
    assert Blue(Darken(c)) == Blue(c) >> 1;
    assert Green(Darken(c)) == Green(c) >> 1;
    assert Red(Darken(c)) == Red(c) >> 1;
    ShiftIsHalf32(Blue(c));
    ShiftIsHalf32(Green(c));
    ShiftIsHalf32(Red(c));
  }

  lemma ShiftIsHalf32(v: bv32)
    ensures v >> 1 == v / 2
  {
  }

  lemma ShiftIsHalf8(v: bv8)
    ensures v >> 1 == v / 2
  {
  }

  /** The palette path: each channel that is above 0 is divided by 2. */
  function HalveRGB(c: RGB): (h: RGB)
    ensures h.r == c.r / 2 && h.g == c.g / 2 && h.b == c.b / 2
    ensures h.r == c.r >> 1 && h.g == c.g >> 1 && h.b == c.b >> 1
  {
    ShiftIsHalf8(c.r);
    ShiftIsHalf8(c.g);
    ShiftIsHalf8(c.b);
    RGB(if c.r > 0 then c.r / 2 else c.r,
        if c.g > 0 then c.g / 2 else c.g,
        if c.b > 0 then c.b / 2 else c.b)
  }

  function Widen(v: bv8): bv32 { v as bv32 }

  /** Three channel values placed in the bytes of a 0x00RRGGBB pixel. */
  function Bytes(r: bv32, g: bv32, b: bv32): bv32 { (r << 16) | (g << 8) | b }

  /** A palette colour as a 0x00RRGGBB pixel. */
  function Pack(c: RGB): bv32 {
    Bytes(Widen(c.r), Widen(c.g), Widen(c.b))
  }

  lemma WidenShift(v: bv8)
    ensures Widen(v >> 1) == Widen(v) >> 1
    ensures Widen(v) < 256
  {
  }

  lemma DarkenBytes(r: bv32, g: bv32, b: bv32)
    requires r < 256 && g < 256 && b < 256
    ensures Darken(Bytes(r, g, b)) == Bytes(r >> 1, g >> 1, b >> 1)
  {
  }

  /** Both shading paths agree: darkening a packed colour is packing the
      halved colour. */
  lemma DarkenMatchesHalve(c: RGB)
    ensures Darken(Pack(c)) == Pack(HalveRGB(c))
  {
    WidenShift(c.r);
    WidenShift(c.g);
    WidenShift(c.b);
    DarkenBytes(Widen(c.r), Widen(c.g), Widen(c.b));
  }
}
