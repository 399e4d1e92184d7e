// Textures as the renderer samples them, and the built-in 64x64 textures that
// the raycaster paints when it is created with one of the AUTO_*_TEX flags.

module Textures {
  import opened CArith
  import opened Colors
  import opened Options

  /** The texture flags of `Raycast_Init`; `COLORED` is 0. */
  const AutoWallTex: bv8 := 0x01
  const AutoFloorTex: bv8 := 0x02
  const AutoCeilingTex: bv8 := 0x04
  const AutoFullTex: bv8 := 0x08

  /** A single texture: `w * h` pixels stored row after row. */
  datatype Texture = Texture(w: int, h: int, pixels: seq<bv32>)

  /** A group of wall textures sharing one size; wall code `c` uses texture `c - 1`. */
  datatype TexGroup = TexGroup(length: int, w: int, h: int, pixels: seq<seq<bv32>>)

  predicate TextureOk(t: Texture) {
    1 <= t.w < 0x10000 && 1 <= t.h < 0x10000 && |t.pixels| == Mul(t.h, t.w)
  }

  predicate GroupOk(g: TexGroup) {
    1 <= g.w < 0x10000 && 1 <= g.h < 0x10000 && 0 <= g.length < 0x10000 &&
    |g.pixels| == g.length &&
    forall i :: 0 <= i < |g.pixels| ==> |g.pixels[i]| == Mul(g.h, g.w)
  }

  /** Pixel `(x, y)` of a texture of width `w` sits at `y * w + x`. */
  lemma TexelInBounds(w: int, h: int, x: int, y: int)
    requires 0 <= x < w && 0 <= y < h
    ensures 0 <= Mul(y, w) + x < Mul(h, w)
  {
    MulIsTimes(y, w);
    MulIsTimes(h, w);
    MulLeft(y + 1, h, w);
    MulLeft(0, y, w);
  }

  /** The built-in textures are 64 pixels wide and high. */
  const AutoSize: int := 64

  /** The number of built-in wall textures. */
  const AutoWallCount: int := 10

  /** What a built-in texture shows: the floor, the ceiling, or wall `n`. */
  datatype Pattern = FloorTiles | CeilingFrame | WallPattern(n: int)

  predicate PatternOk(p: Pattern) {
    p.WallPattern? ==> 0 <= p.n < AutoWallCount
  }

  /** A C comparison used as an integer. */
  function Bit(b: bool): int { if b then 1 else 0 }

  /** The pixel value the generator computes for `(x, y)`, in C `int`
      arithmetic; every value is a 0x00RRGGBB colour. */
  function PatternPixel(p: Pattern, x: int, y: int): (v: int)
    requires PatternOk(p) && 0 <= x < AutoSize && 0 <= y < AutoSize
    ensures 0 <= v < 0x100_0000
  {
    XorColorRange(x, y, 64, 64);
    XYGradientRange(x, y, 64, 64);
    XGradientRange(x, 64);
    YGradientRange(y, 64);
    var xorC := XorColor(x, y, 64, 64);
    var xyC := XYGradient(x, y, 64, 64);
    var xC := XGradient(x, 64);
    var yC := YGradient(y, 64);
    match p
    case FloorTiles =>
      ((128 + xorC * 65536) + xorC) * Bit(x % 16 != 0 && y % 16 != 0)
    case CeilingFrame =>
      65536 + 192 * Bit(x % 64 != 0 && y % 64 != 0)
    case WallPattern(n) =>
      if n == 0 then 65536 * 254 * Bit(x != y && x != 64 - y)
      else if n == 1 then xyC + 256 * xyC + 65536 * xyC
      else if n == 2 then 256 * xyC + 65536 * xyC
      else if n == 3 then xorC + 256 * xorC + 65536 * xorC
      else if n == 4 then 256 * xorC
      else if n == 5 then 65536 * 192 * Bit(x % 16 != 0 && y % 16 != 0)
      else if n == 6 then 65536 * yC
      else if n == 7 then 128 + 256 * 128 + 65536 * 128
      else if n == 8 then ((64 * xC + 65536 * yC) + xorC) * Bit(x % 32 != 0 && y % 32 != 0)
      else ((128 * xC + 65536 * yC) + xorC) * Bit(x % 32 != 0 && y % 32 != 0)
  }

  /** A 0x00RRGGBB value stored as a `Pixel`. */
  function Encode(v: int): bv32
    requires 0 <= v < 0x100_0000
  {
    v as bv32
  }

  /** `pixels` holds pattern `p`, 64 by 64, row after row. */
  predicate Depicts(pixels: seq<bv32>, p: Pattern)
    requires PatternOk(p)
  {
    |pixels| == AutoSize * AutoSize &&
    forall x, y :: 0 <= x < AutoSize && 0 <= y < AutoSize ==>
      pixels[y * 64 + x] == Encode(PatternPixel(p, x, y))
  }

  /** Distinct coordinates of a 64-wide texture have distinct offsets. */
  lemma OffsetInjective(x: int, y: int, x': int, y': int)
    requires 0 <= x < AutoSize && 0 <= x' < AutoSize
    requires y * 64 + x == y' * 64 + x'
    ensures x == x' && y == y'
  {
    DivModUnique(y * 64 + x, 64, y, x);
    DivModUnique(y' * 64 + x', 64, y', x');
  }

  /** The generator's double loop (x outer, y inner) over a fresh 64x64
      buffer, for any pixel formula `f`. */
  method Fill(f: (int, int) -> bv32) returns (pixels: seq<bv32>)
    ensures |pixels| == AutoSize * AutoSize
    ensures forall x, y :: 0 <= x < AutoSize && 0 <= y < AutoSize ==> pixels[y * 64 + x] == f(x, y)
  {
    var a := new bv32[AutoSize * AutoSize];
    for x := 0 to AutoSize
      invariant forall x', y' :: 0 <= x' < x && 0 <= y' < AutoSize ==> a[y' * 64 + x'] == f(x', y')
    {
      for y := 0 to AutoSize
        invariant forall x', y' :: 0 <= x' < x && 0 <= y' < AutoSize ==> a[y' * 64 + x'] == f(x', y')
        invariant forall y' :: 0 <= y' < y ==> a[y' * 64 + x] == f(x, y')
      {
        ghost var before := a[..];
        a[y * 64 + x] := f(x, y);
        forall x', y' | 0 <= x' < AutoSize && 0 <= y' < AutoSize && (x', y') != (x, y)
          ensures a[y' * 64 + x'] == before[y' * 64 + x']
        {
          if y' * 64 + x' == y * 64 + x {
            OffsetInjective(x', y', x, y);
          }
        }
      }
    }
    pixels := a[..];
  }

  /** The pixel formula of pattern `p` as a total function. */
  function Formula(p: Pattern): (int, int) -> bv32
    requires PatternOk(p)
  {
    (x: int, y: int) =>
      if 0 <= x < AutoSize && 0 <= y < AutoSize then Encode(PatternPixel(p, x, y)) else 0
  }

  /** Painting a built-in texture. */
  method Paint(p: Pattern) returns (pixels: seq<bv32>)
    requires PatternOk(p)
    ensures Depicts(pixels, p)
  {
    pixels := Fill(Formula(p));
    forall x, y | 0 <= x < AutoSize && 0 <= y < AutoSize
      ensures pixels[y * 64 + x] == Encode(PatternPixel(p, x, y))
    {
      assert pixels[y * 64 + x] == Formula(p)(x, y);
    }
  }

  /** The texture of a built-in pattern. */
  predicate Shows(t: Texture, p: Pattern)
    requires PatternOk(p)
  {
    t.w == AutoSize && t.h == AutoSize && Depicts(t.pixels, p)
  }

  /** The group of the ten built-in wall textures. */
  predicate ShowsWalls(g: TexGroup) {
    g.length == AutoWallCount && g.w == AutoSize && g.h == AutoSize &&
    |g.pixels| == AutoWallCount &&
    forall i :: 0 <= i < AutoWallCount ==> Depicts(g.pixels[i], WallPattern(i))
  }

  /** `_autotex_generation`: each texture is built when its flag or the
      AUTO_FULL_TEX flag is set, and the result says whether any was. */
  method AutoTexGeneration(flags: bv8)
    returns (floor: Option<Texture>, ceiling: Option<Texture>, walls: Option<TexGroup>, generated: bool)
    ensures floor.Some? <==> flags & (AutoFloorTex | AutoFullTex) != 0
    ensures floor.Some? ==> Shows(floor.value, FloorTiles)
    ensures ceiling.Some? <==> flags & (AutoCeilingTex | AutoFullTex) != 0
    ensures ceiling.Some? ==> Shows(ceiling.value, CeilingFrame)
    ensures walls.Some? <==> flags & (AutoWallTex | AutoFullTex) != 0
    ensures walls.Some? ==> ShowsWalls(walls.value)
    ensures generated <==> floor.Some? || ceiling.Some? || walls.Some?
  {
    generated := false;
    floor, ceiling, walls := None, None, None;
    if flags & (AutoFloorTex | AutoFullTex) != 0 {
      var px := Paint(FloorTiles);
      floor := Some(Texture(AutoSize, AutoSize, px));
      generated := true;
    }
    if flags & (AutoCeilingTex | AutoFullTex) != 0 {
      var px := Paint(CeilingFrame);
      ceiling := Some(Texture(AutoSize, AutoSize, px));
      generated := true;
    }
    if flags & (AutoWallTex | AutoFullTex) != 0 {
      var group: seq<seq<bv32>> := [];
      for i := 0 to AutoWallCount
        invariant |group| == i
        invariant forall j :: 0 <= j < i ==> Depicts(group[j], WallPattern(j))
      {
        var px := Paint(WallPattern(i));
        group := group + [px];
      }
      walls := Some(TexGroup(AutoWallCount, AutoSize, AutoSize, group));
      generated := true;
    }
  }

  /** Every built-in texture has the size the renderer needs. */
  lemma AutoTexturesOk(t: Texture, p: Pattern)
    requires PatternOk(p) && Shows(t, p)
    ensures TextureOk(t)
  {
    MulIsTimes(64, 64);
  }

  lemma AutoWallsOk(g: TexGroup)
    requires ShowsWalls(g)
    ensures GroupOk(g)
  {
    MulIsTimes(64, 64);
    forall i | 0 <= i < |g.pixels|
      ensures |g.pixels[i]| == Mul(g.h, g.w)
    {
      assert Depicts(g.pixels[i], WallPattern(i));
    }
  }

  // The colour channels of a 0x00RRGGBB value held in an int.

  function RedOf(v: int): int { (v / 65536) % 256 }
  function GreenOf(v: int): int { (v / 256) % 256 }
  function BlueOf(v: int): int { v % 256 }

  lemma ChannelsOfBytes(r: int, g: int, b: int)
    requires 0 <= r < 256 && 0 <= g < 256 && 0 <= b < 256
    ensures RedOf(r * 65536 + g * 256 + b) == r
    ensures GreenOf(r * 65536 + g * 256 + b) == g
    ensures BlueOf(r * 65536 + g * 256 + b) == b
  {
    var v := r * 65536 + g * 256 + b;
    DivModUnique(v, 256, r * 256 + g, b);
    DivModUnique(r * 256 + g, 256, r, g);
    DivModUnique(v, 65536, r, g * 256 + b);
    DivModUnique(r, 256, 0, r);
  }

  /** The wall textures whose colours are whole channel values, as their
      comments describe them: red with a black cross, greyscale and yellow
      gradients, xor greyscale, xor green, red bricks, a red gradient and
      flat grey. */
  lemma WallChannels(n: int, x: int, y: int)
    requires 0 <= n < 8 && 0 <= x < AutoSize && 0 <= y < AutoSize
    ensures var v := PatternPixel(WallPattern(n), x, y);
      var xyC := XYGradient(x, y, 64, 64);
      var xorC := XorColor(x, y, 64, 64);
      var yC := YGradient(y, 64);
      (n == 0 ==> RedOf(v) == 254 * Bit(x != y && x != 64 - y) && GreenOf(v) == 0 && BlueOf(v) == 0) &&
      (n == 1 ==> RedOf(v) == xyC && GreenOf(v) == xyC && BlueOf(v) == xyC) &&
      (n == 2 ==> RedOf(v) == xyC && GreenOf(v) == xyC && BlueOf(v) == 0) &&
      (n == 3 ==> RedOf(v) == xorC && GreenOf(v) == xorC && BlueOf(v) == xorC) &&
      (n == 4 ==> RedOf(v) == 0 && GreenOf(v) == xorC && BlueOf(v) == 0) &&
      (n == 5 ==> RedOf(v) == 192 * Bit(x % 16 != 0 && y % 16 != 0) && GreenOf(v) == 0 && BlueOf(v) == 0) &&
      (n == 6 ==> RedOf(v) == yC && GreenOf(v) == 0 && BlueOf(v) == 0) &&
      (n == 7 ==> RedOf(v) == 128 && GreenOf(v) == 128 && BlueOf(v) == 128)
  {
    XorColorRange(x, y, 64, 64);
    XYGradientRange(x, y, 64, 64);
    YGradientRange(y, 64);
    var xyC := XYGradient(x, y, 64, 64);
    var xorC := XorColor(x, y, 64, 64);
    var yC := YGradient(y, 64);
    if n == 0 {
      ChannelsOfBytes(254 * Bit(x != y && x != 64 - y), 0, 0);
    } else if n == 1 {
      ChannelsOfBytes(xyC, xyC, xyC);
    } else if n == 2 {
      ChannelsOfBytes(xyC, xyC, 0);
    } else if n == 3 {
      ChannelsOfBytes(xorC, xorC, xorC);
    } else if n == 4 {
      ChannelsOfBytes(0, xorC, 0);
    } else if n == 5 {
      ChannelsOfBytes(192 * Bit(x % 16 != 0 && y % 16 != 0), 0, 0);
    } else if n == 6 {
      ChannelsOfBytes(yC, 0, 0);
    } else {
      ChannelsOfBytes(128, 128, 128);
    }
  }

  /** The floor tiles are 16 pixels wide with black joints between them,
      and the ceiling is a frame of 0x010000 around a 0x0100C0 field. */
  lemma GridLines(x: int, y: int)
    requires 0 <= x < AutoSize && 0 <= y < AutoSize
    ensures PatternPixel(FloorTiles, x, y) == 0 <==> x % 16 == 0 || y % 16 == 0
    ensures PatternPixel(CeilingFrame, x, y) == (if x != 0 && y != 0 then 0x0100C0 else 0x010000)
  {
    XorColorRange(x, y, 64, 64);
  }

  /** The two "synthwave" walls are black exactly on their 32-pixel grid. */
  lemma SynthwaveGrid(n: int, x: int, y: int)
    requires 8 <= n <= 9 && 0 <= x < AutoSize && 0 <= y < AutoSize
    ensures PatternPixel(WallPattern(n), x, y) == 0 <==> x % 32 == 0 || y % 32 == 0
  {
    XGradientRange(x, 64);
    YGradientRange(y, 64);
    XorColorRange(x, y, 64, 64);
    if x % 32 != 0 {
      assert x >= 1;
      assert XGradient(x, 64) == x * 256 / 64;
      assert x * 256 / 64 == 4 * x;
    }
  }
}
