// `_casting_textured_floor_ceiling`: in the buffered mode the floor and the
// ceiling are drawn into the frame buffer before the walls. With a floor or
// a ceiling texture every row is cast as a horizontal plane seen through the
// screen; without either the two halves of the window are filled with their
// default colours.

module FloorCast {
  import opened CArith
  import opened Colors
  import opened Options
  import opened RealArith
  import opened Textures
  import opened Views
  import opened WallCast

  /** The default colours of the floor and the ceiling. */
  const FloorColor: bv32 := 0x007B00
  const CeilingColor: bv32 := 0x003FFF

  /** An optional texture that is well formed when present. */
  predicate TexOk(t: Option<Texture>) {
    t.Some? ==> TextureOk(t.value)
  }

  /** Row y shows the floor when it lies below the horizon `h_win_h + pitch`. */
  predicate IsFloorRow(v: View, y: int) {
    (y as real) > (v.hWinH as real) + v.pitch
  }

  /** `p`: the distance in rows from row y to the horizon, truncated. */
  function RowOffset(v: View, y: int): (p: int)
    ensures p >= 0
  {
    if IsFloorRow(v, y) then Trunc((y as real) - (v.hWinH as real) - v.pitch)
    else Trunc((v.hWinH as real) - (y as real) + v.pitch)
  }

  /** `cam_z`: the height of the eye above the floor, or below the ceiling. */
  function CamZ(v: View, isFloor: bool): real {
    if isFloor then 0.5 * (v.winH as real) + v.posZ else 0.5 * (v.winH as real) - v.posZ
  }

  /** `row_dist`: the horizontal distance at which row y meets its plane. */
  function RowDist(v: View, y: int): real
    requires RowOffset(v, y) != 0
  {
    CamZ(v, IsFloorRow(v, y)) / (RowOffset(v, y) as real)
  }

  /** The point of the plane seen in column 0 of a row at distance rd, on
      the leftmost ray `dir - plane`. */
  function RowStart(v: View, rd: real): (real, real) {
    (v.posX + rd * (v.dirX - v.planeX), v.posY + rd * (v.dirY - v.planeY))
  }

  /** The move along the plane from one column to the next. */
  function RowStep(v: View, rd: real): (real, real)
    requires v.winW >= 1
  {
    (rd * ((v.dirX + v.planeX) - (v.dirX - v.planeX)) / (v.winW as real),
     rd * ((v.dirY + v.planeY) - (v.dirY - v.planeY)) / (v.winW as real))
  }

  /** The point of the plane seen in column x: distance rd along the ray of
      column x, the ray the wall caster casts for that column. */
  function PlanePoint(v: View, rd: real, x: int): (real, real)
    requires 0 <= x < v.winW
  {
    var d := ColumnDir(v, x);
    (v.posX + rd * d.0, v.posY + rd * d.1)
  }

  /** Stepping x times from the leftmost column reaches the point on the
      ray of column x. */
  lemma {:induction false} StepsFollowRays(v: View, rd: real, x: nat)
    requires x < v.winW
    ensures Stepped(RowStart(v, rd).0, RowStep(v, rd).0, x) == PlanePoint(v, rd, x).0
    ensures Stepped(RowStart(v, rd).1, RowStep(v, rd).1, x) == PlanePoint(v, rd, x).1
  {
    SteppedIsLinear(RowStart(v, rd).0, RowStep(v, rd).0, x);
    SteppedIsLinear(RowStart(v, rd).1, RowStep(v, rd).1, x);
    var n, q := v.winW as real, 2.0 * (x as real) / (v.winW as real);
    assert CameraX(x, v.winW) == q - 1.0;
    StepIsShare(rd, v.planeX, x as real, n);
    StepIsShare(rd, v.planeY, x as real, n);
  }

  lemma StepIsShare(rd: real, p: real, x: real, n: real)
    requires n > 0.0
    ensures x * (rd * ((0.0 + p) - (0.0 - p)) / n) + rd * (0.0 - p) == rd * (p * (2.0 * x / n - 1.0))
  {
    assert x * (rd * (2.0 * p) / n) == rd * p * (2.0 * x / n);
  }

  /** What is left of a coordinate once its cell, the truncated value, is
      taken away. */
  function CellFraction(f: real): (r: real)
    ensures f >= 0.0 ==> r == Frac(f)
  {
    f - (Trunc(f) as real)
  }

  /** One texel coordinate of a plane point: the fraction of the coordinate
      within its cell, scaled by the texture size n and masked with `n - 1`. */
  function TexCoord(f: real, n: int): (c: int)
    requires 1 <= n < 0x10000
    ensures 0 <= c < n
  {
    MaskedTexel(CellFraction(f), n)
  }

  /** The fraction `fr` of a cell scaled to a texture of size n, truncated
      and masked with `n - 1`. */
  function MaskedTexel(fr: real, n: int): (c: int)
    requires 1 <= n < 0x10000
    ensures 0 <= c < n
  {
    var k := Trunc((n as real) * fr);
    MaskBelow(k, n);
    Mask(k, n)
  }

  /** The darkened texel of a texture at a plane point. */
  function PlaneTexel(t: Texture, fx: real, fy: real): bv32
    requires TextureOk(t)
  {
    var tx, ty := TexCoord(fx, t.w), TexCoord(fy, t.h);
    TexelInBounds(t.w, t.h, tx, ty);
    Darken(t.pixels[Mul(ty, t.w) + tx])
  }

  /** The texture repeats once per cell: a coordinate one cell further
      samples the same texel. */
  lemma TexCoordPeriodic(f: real, n: int)
    requires 1 <= n < 0x10000 && f >= 0.0
    ensures TexCoord(f + 1.0, n) == TexCoord(f, n)
  {
    FractionPeriodic(f);
  }

  lemma FractionPeriodic(f: real)
    requires f >= 0.0
    ensures CellFraction(f + 1.0) == CellFraction(f)
  {
    assert Trunc(f + 1.0) == Trunc(f) + 1;
  }

  lemma PlaneTexelPeriodic(t: Texture, fx: real, fy: real)
    requires TextureOk(t) && fx >= 0.0 && fy >= 0.0
    ensures PlaneTexel(t, fx + 1.0, fy) == PlaneTexel(t, fx, fy)
    ensures PlaneTexel(t, fx, fy + 1.0) == PlaneTexel(t, fx, fy)
  {
    TexCoordPeriodic(fx, t.w);
    TexCoordPeriodic(fy, t.h);
  }

  /** For a power-of-two size the mask keeps the scaled fraction: the
      texel of a coordinate is its fraction within the cell, scaled to the
      texture. */
  lemma MaskedFraction(fr: real, n: int)
    requires 1 <= n < 0x10000 && IsPow2(n) && 0.0 <= fr < 1.0
    ensures MaskedTexel(fr, n) == Trunc((n as real) * fr)
  {
    TruncBelow(fr, n);
    MaskKeeps(Trunc((n as real) * fr), n);
  }

  /** The colour of column x of a row that looks at the floor (or the
      ceiling) at distance rd: the texel under the plane point, or the
      default colour when the plane has no texture. */
  function SurfaceColor(v: View, floorTex: Option<Texture>, ceilingTex: Option<Texture>,
                        isFloor: bool, rd: real, x: int): bv32
    requires TexOk(floorTex) && TexOk(ceilingTex) && 0 <= x < v.winW
  {
    var pt := PlanePoint(v, rd, x);
    if isFloor then
      (if floorTex.Some? then PlaneTexel(floorTex.value, pt.0, pt.1) else FloorColor)
    else
      (if ceilingTex.Some? then PlaneTexel(ceilingTex.value, pt.0, pt.1) else CeilingColor)
  }

  /** The pixel at (x, y) after the textured floor and ceiling pass,
      `before` being the pixel before it; a row on the horizon keeps it. */
  function TexturedPixel(v: View, floorTex: Option<Texture>, ceilingTex: Option<Texture>,
                         x: int, y: int, before: bv32): bv32
    requires TexOk(floorTex) && TexOk(ceilingTex) && 0 <= x < v.winW
  {
    if RowOffset(v, y) == 0 then before
    else SurfaceColor(v, floorTex, ceilingTex, IsFloorRow(v, y), RowDist(v, y), x)
  }

  /** The first row the untextured pass paints with the floor colour, and
      the first value of its ceiling loop, whose row `win_h - y - 1` it paints. */
  function FloorFrom(v: View): int { Trunc((v.hWinH as real) - 1.0 + v.pitch) }
  function CeilingFrom(v: View): int { Trunc((v.hWinH as real) - 1.0 - v.pitch) }

  /** The pixel in row y after the untextured pass: the ceiling, painted
      last, wins over the floor. */
  function FillPixel(v: View, y: int, before: bv32): bv32 {
    if y <= v.winH - 1 - CeilingFrom(v) then CeilingColor
    else if y >= FloorFrom(v) then FloorColor
    else before
  }

  /** The untextured pass leaves no row of the window unpainted: the floor
      starts at the latest one row below the end of the ceiling. */
  lemma FillCoversWindow(v: View, y: int, before: bv32)
    requires ViewOk(v) && 0 <= y < v.winH
    ensures FillPixel(v, y, before) == CeilingColor || FillPixel(v, y, before) == FloorColor
  {
    var a, b := (v.hWinH as real) - 1.0 + v.pitch, (v.hWinH as real) - 1.0 - v.pitch;
    assert (FloorFrom(v) as real) < a + 1.0 && (CeilingFrom(v) as real) < b + 1.0;
    if a >= 0.0 && b >= 0.0 {
      assert FloorFrom(v) as real <= a && CeilingFrom(v) as real <= b;
    } else if a < 0.0 && b < 0.0 {
      assert FloorFrom(v) <= 0 && CeilingFrom(v) <= 0;
    } else if a < 0.0 {
      assert FloorFrom(v) <= 0 && CeilingFrom(v) as real <= b;
    } else {
      assert FloorFrom(v) as real <= a && CeilingFrom(v) <= 0;
    }
    assert FloorFrom(v) + CeilingFrom(v) <= v.winH;
  }

  /** Only rows less than one row from the horizon are skipped by the
      textured pass. */
  lemma HorizonRows(v: View, y: int)
    requires RowOffset(v, y) == 0
    ensures (v.hWinH as real) + v.pitch - 1.0 < (y as real) < (v.hWinH as real) + v.pitch + 1.0
  {
  }

  /** The pixel at (x, y) after `_casting_textured_floor_ceiling`. */
  function FloorCeilingPixel(v: View, floorTex: Option<Texture>, ceilingTex: Option<Texture>,
                             x: int, y: int, before: bv32): bv32
    requires TexOk(floorTex) && TexOk(ceilingTex) && 0 <= x < v.winW
  {
    if floorTex.Some? || ceilingTex.Some? then TexturedPixel(v, floorTex, ceilingTex, x, y, before)
    else FillPixel(v, y, before)
  }

  /** One row of the textured pass. The row on the horizon, where C
      divides by `p == 0`, is left as it is. */
  method CastPlaneRow(v: View, floorTex: Option<Texture>, ceilingTex: Option<Texture>,
                      buffer: array<bv32>, y: int)
    requires ViewOk(v) && TexOk(floorTex) && TexOk(ceilingTex) && 0 <= y < v.winH
    requires buffer.Length == FrameSize(v.winW, v.winH)
    modifies buffer
    ensures forall x :: 0 <= x < v.winW ==>
      buffer[Pixel(v.winW, v.winH, x, y)] ==
        TexturedPixel(v, floorTex, ceilingTex, x, y, old(buffer[Pixel(v.winW, v.winH, x, y)]))
    ensures forall cx, cy :: 0 <= cx < v.winW && 0 <= cy < v.winH && cy != y ==>
      buffer[Pixel(v.winW, v.winH, cx, cy)] == old(buffer[Pixel(v.winW, v.winH, cx, cy)])
  {
    var isFloor := (y as real) > (v.hWinH as real) + v.pitch;
    var p := if isFloor then Trunc((y as real) - (v.hWinH as real) - v.pitch)
             else Trunc((v.hWinH as real) - (y as real) + v.pitch);
    if p == 0 {
      return;
    }
    var camZ := if isFloor then 0.5 * (v.winH as real) + v.posZ else 0.5 * (v.winH as real) - v.posZ;
    var rowDist := camZ / (p as real);
    assert isFloor == IsFloorRow(v, y) && rowDist == RowDist(v, y);
    PaintPlaneRow(v, floorTex, ceilingTex, buffer, y, isFloor, rowDist);
  }

  /** The pixels of row y at plane distance `rowDist`: the plane point
      starts on the leftmost ray and is advanced by one step per column. */
  method PaintPlaneRow(v: View, floorTex: Option<Texture>, ceilingTex: Option<Texture>,
                       buffer: array<bv32>, y: int, isFloor: bool, rowDist: real)
    requires ViewOk(v) && TexOk(floorTex) && TexOk(ceilingTex) && 0 <= y < v.winH
    requires buffer.Length == FrameSize(v.winW, v.winH)
    modifies buffer
    ensures forall x :: 0 <= x < v.winW ==>
      buffer[Pixel(v.winW, v.winH, x, y)] == SurfaceColor(v, floorTex, ceilingTex, isFloor, rowDist, x)
    ensures forall cx, cy :: 0 <= cx < v.winW && 0 <= cy < v.winH && cy != y ==>
      buffer[Pixel(v.winW, v.winH, cx, cy)] == old(buffer[Pixel(v.winW, v.winH, cx, cy)])
  {
    var start, step := RowStart(v, rowDist), RowStep(v, rowDist);
    var fx, fy := start.0, start.1;
    var x := 0;
    while x < v.winW
      invariant 0 <= x <= v.winW
      invariant fx == Stepped(start.0, step.0, x) && fy == Stepped(start.1, step.1, x)
      invariant forall cx :: 0 <= cx < x ==>
        buffer[Pixel(v.winW, v.winH, cx, y)] == SurfaceColor(v, floorTex, ceilingTex, isFloor, rowDist, cx)
      invariant forall cx, cy :: 0 <= cx < v.winW && 0 <= cy < v.winH && (cy != y || cx >= x) ==>
        buffer[Pixel(v.winW, v.winH, cx, cy)] == old(buffer[Pixel(v.winW, v.winH, cx, cy)])
    {
      StepsFollowRays(v, rowDist, x);
      var color: bv32;
      if isFloor {
        color := if floorTex.Some? then PlaneTexel(floorTex.value, fx, fy) else FloorColor;
      } else {
        color := if ceilingTex.Some? then PlaneTexel(ceilingTex.value, fx, fy) else CeilingColor;
      }
      OtherPixels(v.winW, v.winH, x, y);
      buffer[Pixel(v.winW, v.winH, x, y)] := color;
      fx := fx + step.0;
      fy := fy + step.1;
      x := x + 1;
    }
  }

  /** One column of the untextured pass: the floor loop, then the ceiling
      loop. */
  method FillColumn(v: View, buffer: array<bv32>, x: int)
    requires ViewOk(v) && 0 <= x < v.winW && buffer.Length == FrameSize(v.winW, v.winH)
    modifies buffer
    ensures forall y :: 0 <= y < v.winH ==>
      buffer[Pixel(v.winW, v.winH, x, y)] == FillPixel(v, y, old(buffer[Pixel(v.winW, v.winH, x, y)]))
    ensures forall cx, cy :: 0 <= cx < v.winW && cx != x && 0 <= cy < v.winH ==>
      buffer[Pixel(v.winW, v.winH, cx, cy)] == old(buffer[Pixel(v.winW, v.winH, cx, cy)])
  {
    PaintFloor(v, buffer, x);
    PaintCeiling(v, buffer, x);
  }

  /** The floor loop of a column: rows `h_win_h - 1 + pitch` to the bottom
      of the window get the floor colour. The start row is clipped to 0, which
      the C loop does not do (see `UnclippedStartLeavesBuffer`). */
  method PaintFloor(v: View, buffer: array<bv32>, x: int)
    requires ViewOk(v) && 0 <= x < v.winW && buffer.Length == FrameSize(v.winW, v.winH)
    modifies buffer
    ensures forall y :: 0 <= y < v.winH ==>
      buffer[Pixel(v.winW, v.winH, x, y)] ==
        (if y >= FloorFrom(v) then FloorColor else old(buffer[Pixel(v.winW, v.winH, x, y)]))
    ensures forall cx, cy :: 0 <= cx < v.winW && cx != x && 0 <= cy < v.winH ==>
      buffer[Pixel(v.winW, v.winH, cx, cy)] == old(buffer[Pixel(v.winW, v.winH, cx, cy)])
  {
    var fs := FloorFrom(v);
    var y := if fs < 0 then 0 else fs;
    while y < v.winH
      invariant (fs < 0 && y == 0) || fs <= y
      invariant y <= v.winH || y == fs
      invariant forall cy :: 0 <= cy < v.winH ==>
        buffer[Pixel(v.winW, v.winH, x, cy)] ==
          (if fs <= cy < y then FloorColor else old(buffer[Pixel(v.winW, v.winH, x, cy)]))
      invariant forall cx, cy :: 0 <= cx < v.winW && cx != x && 0 <= cy < v.winH ==>
        buffer[Pixel(v.winW, v.winH, cx, cy)] == old(buffer[Pixel(v.winW, v.winH, cx, cy)])
    {
      OtherPixels(v.winW, v.winH, x, y);
      buffer[Pixel(v.winW, v.winH, x, y)] := FloorColor;
      y := y + 1;
    }
  }

  /** The ceiling loop of a column: for y from `h_win_h - 1 - pitch` to the
      bottom of the window, row `win_h - y - 1` gets the ceiling colour. The
      start is clipped to 0, which the C loop does not do (see
      `UnclippedStartLeavesBuffer`). */
  method PaintCeiling(v: View, buffer: array<bv32>, x: int)
    requires ViewOk(v) && 0 <= x < v.winW && buffer.Length == FrameSize(v.winW, v.winH)
    modifies buffer
    ensures forall y :: 0 <= y < v.winH ==>
      buffer[Pixel(v.winW, v.winH, x, y)] ==
        (if y <= v.winH - 1 - CeilingFrom(v) then CeilingColor else old(buffer[Pixel(v.winW, v.winH, x, y)]))
    ensures forall cx, cy :: 0 <= cx < v.winW && cx != x && 0 <= cy < v.winH ==>
      buffer[Pixel(v.winW, v.winH, cx, cy)] == old(buffer[Pixel(v.winW, v.winH, cx, cy)])
  {
    var cs := CeilingFrom(v);
    var c := if cs < 0 then 0 else cs;
    while c < v.winH
      invariant (cs < 0 && c == 0) || cs <= c
      invariant c <= v.winH || c == cs
      invariant forall cy :: 0 <= cy < v.winH ==>
        buffer[Pixel(v.winW, v.winH, x, cy)] ==
          (if v.winH - c - 1 < cy <= v.winH - 1 - cs then CeilingColor
           else old(buffer[Pixel(v.winW, v.winH, x, cy)]))
      invariant forall cx, cy :: 0 <= cx < v.winW && cx != x && 0 <= cy < v.winH ==>
        buffer[Pixel(v.winW, v.winH, cx, cy)] == old(buffer[Pixel(v.winW, v.winH, cx, cy)])
    {
      OtherPixels(v.winW, v.winH, x, v.winH - c - 1);
      buffer[Pixel(v.winW, v.winH, x, v.winH - c - 1)] := CeilingColor;
      c := c + 1;
    }
  }

  /** The buffer offset of the first pixel the C floor loop writes: the
      pixel of row `h_win_h - 1 + pitch`, taken without clipping. */
  function FloorFirstWrite(v: View, x: int): int {
    Pixel(v.winW, v.winH, x, FloorFrom(v))
  }

  /** The buffer offset of the first pixel the C ceiling loop writes: the
      pixel of row `win_h - y - 1` for the unclipped start
      `y == h_win_h - 1 - pitch`. */
  function CeilingFirstWrite(v: View, x: int): int {
    Pixel(v.winW, v.winH, x, v.winH - CeilingFrom(v) - 1)
  }

  /** As written, a negative start row sends the floor loop's first write
      before the buffer and the ceiling loop's first write past its end. */
  lemma UnclippedStartLeavesBuffer(v: View, x: int)
    requires ViewOk(v) && 0 <= x < v.winW
    ensures FloorFrom(v) < 0 ==> FloorFirstWrite(v, x) < 0
    ensures CeilingFrom(v) < 0 ==> CeilingFirstWrite(v, x) >= FrameSize(v.winW, v.winH)
    ensures 0 <= FloorFrom(v) < v.winH ==> 0 <= FloorFirstWrite(v, x) < FrameSize(v.winW, v.winH)
  {
    var fs := FloorFrom(v);
    var row := v.winH - CeilingFrom(v) - 1;
    MulIsTimes(fs, v.winW);
    MulIsTimes(row, v.winW);
    MulIsTimes(v.winH, v.winW);
    if fs < 0 {
      MulLeft(fs, -1, v.winW);
    }
    if CeilingFrom(v) < 0 {
      MulLeft(v.winH, row, v.winW);
    }
  }

  /** Both cases happen for a pitch the tilt allows: in a 320 by 200 window a
      pitch of 150 starts the ceiling loop at -51 and writes row 250, past
      the 64000 pixels of the buffer; a pitch of -150 starts the floor loop
      at -51 and writes at offset -16320. */
  lemma SmallWindowLeavesBuffer()
    ensures var v := View(320, 200, 100, 1.5, 1.5, 0.0, 150.0, -1.0, 0.0, 0.0, 0.66);
      ViewOk(v) && CeilingFrom(v) == -51 && CeilingFirstWrite(v, 0) == 80000 &&
      FrameSize(v.winW, v.winH) == 64000
    ensures var v := View(320, 200, 100, 1.5, 1.5, 0.0, -150.0, -1.0, 0.0, 0.0, 0.66);
      ViewOk(v) && FloorFrom(v) == -51 && FloorFirstWrite(v, 0) == -16320
  {
    var up := View(320, 200, 100, 1.5, 1.5, 0.0, 150.0, -1.0, 0.0, 0.0, 0.66);
    var down := View(320, 200, 100, 1.5, 1.5, 0.0, -150.0, -1.0, 0.0, 0.0, 0.66);
    assert CeilingFrom(up) == -51;
    assert FloorFrom(down) == -51;
    MulIsTimes(250, 320);
    MulIsTimes(200, 320);
    MulIsTimes(-51, 320);
  }

  /** `_casting_textured_floor_ceiling`: every pixel of the window becomes
      what `FloorCeilingPixel` says. */
  method CastFloorCeiling(v: View, floorTex: Option<Texture>, ceilingTex: Option<Texture>, buffer: array<bv32>)
    requires ViewOk(v) && TexOk(floorTex) && TexOk(ceilingTex)
    requires buffer.Length == FrameSize(v.winW, v.winH)
    modifies buffer
    ensures forall x, y :: 0 <= x < v.winW && 0 <= y < v.winH ==>
      buffer[Pixel(v.winW, v.winH, x, y)] ==
        FloorCeilingPixel(v, floorTex, ceilingTex, x, y, old(buffer[Pixel(v.winW, v.winH, x, y)]))
  {
    if floorTex.Some? || ceilingTex.Some? {
      var y := 0;
      while y < v.winH
        invariant 0 <= y <= v.winH
        invariant forall cx, cy :: 0 <= cx < v.winW && 0 <= cy < y ==>
          buffer[Pixel(v.winW, v.winH, cx, cy)] ==
            TexturedPixel(v, floorTex, ceilingTex, cx, cy, old(buffer[Pixel(v.winW, v.winH, cx, cy)]))
        invariant forall cx, cy :: 0 <= cx < v.winW && y <= cy < v.winH ==>
          buffer[Pixel(v.winW, v.winH, cx, cy)] == old(buffer[Pixel(v.winW, v.winH, cx, cy)])
      {
        CastPlaneRow(v, floorTex, ceilingTex, buffer, y);
        y := y + 1;
      }
    } else {
      var x := 0;
      while x < v.winW
        invariant 0 <= x <= v.winW
        invariant forall cx, cy :: 0 <= cx < x && 0 <= cy < v.winH ==>
          buffer[Pixel(v.winW, v.winH, cx, cy)] == FillPixel(v, cy, old(buffer[Pixel(v.winW, v.winH, cx, cy)]))
        invariant forall cx, cy :: x <= cx < v.winW && 0 <= cy < v.winH ==>
          buffer[Pixel(v.winW, v.winH, cx, cy)] == old(buffer[Pixel(v.winW, v.winH, cx, cy)])
      {
        FillColumn(v, buffer, x);
        x := x + 1;
      }
    }
  }
}
