// The wall caster of the raycaster. For every screen column a ray leaves the
// player's cell and crosses the map grid one cell at a time (the DDA of Lode
// Vandevenne's raycasting tutorial) until it enters a cell holding a wall;
// the distance to that wall, measured along the view direction, fixes the
// height of the strip drawn in the column. In textured mode the strip is
// sampled from the wall texture of the cell's code; in coloured mode it is a
// line in the palette colour of that code. Walls hit on a y-side are darker.

module WallCast {
  import opened CArith
  import opened Grids
  import opened Colors
  import opened Options
  import opened RealArith
  import opened Textures
  import opened Views
  import opened Maps

  /** `1e30`, the delta distance of a ray parallel to a grid axis. */
  const Far: real := 1000000000000000000000000000000.0

  /** Map cells are `uint8_t`. */
  predicate Bytes(g: seq<int>) {
    forall i :: 0 <= i < |g| ==> 0 <= g[i] <= 255
  }

  /** A w-by-h map buffer of bytes whose border cells all hold walls. */
  predicate MapOk(g: seq<int>, w: int, h: int) {
    0 <= w && 0 <= h && |g| == Size(w, h) && Bytes(g) && Sealed(g, w, h)
  }

  /** `camera_x` of screen column x: its place on the camera plane, from -1
      at the left edge of the window to just under 1 at the right edge. */
  function CameraX(x: int, winW: int): (cx: real)
    requires 0 <= x < winW
    ensures -1.0 <= cx < 1.0
  {
    var q := 2.0 * (x as real) / (winW as real);
    assert 0.0 <= q < 2.0;
    q - 1.0
  }

  /** The constants of one ray: the step direction on each axis and the
      distance the ray travels between two grid lines of that axis. */
  datatype Ray = Ray(stepX: int, stepY: int, deltaX: real, deltaY: real)

  /** The loop state of the DDA: the cell under the ray, the distances to
      the next grid line of each axis, and the axis of the last step. */
  datatype Cursor = Cursor(mapX: int, mapY: int, sideX: real, sideY: real, side: int)

  predicate RayOk(r: Ray) {
    (r.stepX == 1 || r.stepX == -1) && (r.stepY == 1 || r.stepY == -1) &&
    r.deltaX > 0.0 && r.deltaY > 0.0
  }

  /** `delta_dist` of a ray component: `|1 / d|`, the reciprocal of its size. */
  function DeltaDist(d: real): (r: real)
    ensures r > 0.0
    ensures d != 0.0 ==> r * Abs(d) == 1.0
  {
    if d == 0.0 then Far
    else if d < 0.0 then -1.0 / d
    else 1.0 / d
  }

  /** The ray of direction (dx, dy); it steps toward the sign of each component. */
  function RayOf(dx: real, dy: real): (r: Ray)
    ensures RayOk(r)
    ensures (r.stepX == -1 <==> dx < 0.0) && (r.stepY == -1 <==> dy < 0.0)
  {
    Ray(if dx < 0.0 then -1 else 1, if dy < 0.0 then -1 else 1, DeltaDist(dx), DeltaDist(dy))
  }

  /** Initial `side_dist` on one axis: the distance along the ray from the
      position to the first grid line it crosses on that axis. */
  function FirstSide(d: real, pos: real, delta: real): (s: real)
    requires pos >= 0.0 && delta >= 0.0
    ensures s >= 0.0
  {
    var cell := Trunc(pos) as real;
    var gap := if d < 0.0 then pos - cell else cell + 1.0 - pos;
    NonnegProduct(gap, delta);
    gap * delta
  }

  /** The DDA state before the first step, at the player's cell. */
  function StartOf(px: real, py: real, r: Ray, dx: real, dy: real): (c: Cursor)
    requires px >= 0.0 && py >= 0.0 && RayOk(r)
    ensures c.sideX >= 0.0 && c.sideY >= 0.0
  {
    Cursor(Trunc(px), Trunc(py), FirstSide(dx, px, r.deltaX), FirstSide(dy, py, r.deltaY), 0)
  }

  /** One iteration of the DDA loop: the ray enters the next cell across
      whichever grid line is nearer; on a tie it crosses the y line. */
  function Advance(r: Ray, c: Cursor): Cursor {
    if c.sideX < c.sideY then Cursor(c.mapX + r.stepX, c.mapY, c.sideX + r.deltaX, c.sideY, 0)
    else Cursor(c.mapX, c.mapY + r.stepY, c.sideX, c.sideY + r.deltaY, 1)
  }

  /** Each iteration moves the cursor by exactly one step on exactly one
      axis, adds that axis's delta and records the axis in `side`. */
  lemma AdvanceIsUnitStep(r: Ray, c: Cursor)
    ensures var n := Advance(r, c);
      (n.side == 0 <==> c.sideX < c.sideY) &&
      (n.side == 0 ==> n.mapX == c.mapX + r.stepX && n.mapY == c.mapY &&
                       n.sideX == c.sideX + r.deltaX && n.sideY == c.sideY) &&
      (n.side == 1 ==> n.mapX == c.mapX && n.mapY == c.mapY + r.stepY &&
                       n.sideX == c.sideX && n.sideY == c.sideY + r.deltaY)
  {
  }

  predicate Interior(w: int, h: int, c: Cursor) {
    1 <= c.mapX < w && 1 <= c.mapY < h
  }

  /** The code of the cell under the cursor. */
  function Code(g: seq<int>, w: int, h: int, c: Cursor): int
    requires 0 <= w && 0 <= h && |g| == Size(w, h) && InGrid(w, h, c.mapX, c.mapY)
  {
    IdxInBounds(w, h, c.mapX, c.mapY);
    At(g, h, c.mapX, c.mapY)
  }

  /** Cells the ray can still cross before it reaches the border on both axes. */
  function Remaining(w: int, h: int, r: Ray, c: Cursor): int {
    (if r.stepX > 0 then w - c.mapX else c.mapX) + (if r.stepY > 0 then h - c.mapY else c.mapY)
  }

  /** A step from an interior cell stays on the grid and uses up one cell
      of the budget; the cell it enters is interior unless it holds a wall,
      because every border cell does. */
  lemma AdvanceStaysInside(g: seq<int>, w: int, h: int, r: Ray, c: Cursor)
    requires MapOk(g, w, h) && RayOk(r) && Interior(w, h, c)
    ensures var n := Advance(r, c);
      InGrid(w, h, n.mapX, n.mapY) && Remaining(w, h, r, n) == Remaining(w, h, r, c) - 1 &&
      0 <= Code(g, w, h, n) <= 255 &&
      (Code(g, w, h, n) == 0 ==> Interior(w, h, n))
  {
    var n := Advance(r, c);
    IdxInBounds(w, h, n.mapX, n.mapY);
    if IsBorder(w, h, n.mapX, n.mapY) {
      assert g[Idx(h, n.mapX, n.mapY)] != 0;
    }
  }

  /** `perp_wall_dist`: the distance to the wall along the view direction,
      the side distance of the axis of the last step less one delta. */
  function Perp(r: Ray, c: Cursor): real {
    if c.side == 0 then c.sideX - r.deltaX else c.sideY - r.deltaY
  }

  /** The loop `while (hit == 0)` as a function: the state in which the ray
      first enters a cell with a code above 0. The border guarantees that
      it does, within `Remaining` steps. */
  function Trace(g: seq<int>, w: int, h: int, r: Ray, c: Cursor): (t: Cursor)
    requires MapOk(g, w, h) && RayOk(r) && Interior(w, h, c)
    requires c.sideX >= 0.0 && c.sideY >= 0.0
    ensures InGrid(w, h, t.mapX, t.mapY) && Code(g, w, h, t) > 0
    ensures t.sideX >= 0.0 && t.sideY >= 0.0 && Perp(r, t) >= 0.0
    decreases Remaining(w, h, r, c)
  {
    AdvanceStaysInside(g, w, h, r, c);
    var n := Advance(r, c);
    if Code(g, w, h, n) > 0 then n else Trace(g, w, h, r, n)
  }

  /** One unfolding of `Trace`. */
  lemma TraceStep(g: seq<int>, w: int, h: int, r: Ray, c: Cursor)
    requires MapOk(g, w, h) && RayOk(r) && Interior(w, h, c)
    requires c.sideX >= 0.0 && c.sideY >= 0.0
    ensures var n := Advance(r, c);
      InGrid(w, h, n.mapX, n.mapY) && Remaining(w, h, r, n) < Remaining(w, h, r, c) &&
      (Code(g, w, h, n) > 0 ==> Trace(g, w, h, r, c) == n) &&
      (Code(g, w, h, n) <= 0 ==> Interior(w, h, n) && n.sideX >= 0.0 && n.sideY >= 0.0 &&
                                 Trace(g, w, h, r, c) == Trace(g, w, h, r, n))
  {
    AdvanceStaysInside(g, w, h, r, c);
  }

  /** The state after k iterations of the loop body. */
  function Iterate(r: Ray, c: Cursor, k: nat): Cursor
    decreases k
  {
    if k == 0 then c else Iterate(r, Advance(r, c), k - 1)
  }

  /** The number of iterations the loop runs. */
  function Steps(g: seq<int>, w: int, h: int, r: Ray, c: Cursor): (k: nat)
    requires MapOk(g, w, h) && RayOk(r) && Interior(w, h, c)
    requires c.sideX >= 0.0 && c.sideY >= 0.0
    ensures k >= 1
    decreases Remaining(w, h, r, c)
  {
    AdvanceStaysInside(g, w, h, r, c);
    var n := Advance(r, c);
    if Code(g, w, h, n) > 0 then 1 else 1 + Steps(g, w, h, r, n)
  }

  /** An empty interior cell, which a ray passes through. */
  predicate Clear(g: seq<int>, w: int, h: int, c: Cursor)
    requires 0 <= w && 0 <= h && |g| == Size(w, h)
  {
    Interior(w, h, c) && Code(g, w, h, c) == 0
  }

  /** The ray stops at the first wall on its path: the final state is the
      state after `Steps` iterations, and every cell entered before it is
      empty. */
  lemma {:induction false} TraceIsFirstWall(g: seq<int>, w: int, h: int, r: Ray, c: Cursor)
    requires MapOk(g, w, h) && RayOk(r) && Interior(w, h, c)
    requires c.sideX >= 0.0 && c.sideY >= 0.0
    ensures Trace(g, w, h, r, c) == Iterate(r, c, Steps(g, w, h, r, c))
    ensures forall i :: 1 <= i < Steps(g, w, h, r, c) ==> Clear(g, w, h, Iterate(r, c, i))
    decreases Remaining(w, h, r, c)
  {
    AdvanceStaysInside(g, w, h, r, c);
    var n := Advance(r, c);
    if Code(g, w, h, n) == 0 {
      TraceIsFirstWall(g, w, h, r, n);
      forall i | 1 <= i < Steps(g, w, h, r, c)
        ensures Clear(g, w, h, Iterate(r, c, i))
      {
        assert Iterate(r, c, i) == Iterate(r, n, i - 1);
      }
    }
  }

  /** The loop has not stopped yet at `c`, on the way from `start` to its wall. */
  predicate OnTheWay(g: seq<int>, w: int, h: int, r: Ray, start: Cursor, c: Cursor)
    requires MapOk(g, w, h) && RayOk(r) && Interior(w, h, start)
    requires start.sideX >= 0.0 && start.sideY >= 0.0
  {
    Interior(w, h, c) && c.sideX >= 0.0 && c.sideY >= 0.0 &&
    Trace(g, w, h, r, c) == Trace(g, w, h, r, start)
  }

  /** The DDA loop of `_casting_walls`, reading the map buffer. */
  method CastRay(data: array<int>, w: int, h: int, r: Ray, start: Cursor) returns (hit: Cursor)
    requires MapOk(data[..], w, h) && RayOk(r) && Interior(w, h, start)
    requires start.sideX >= 0.0 && start.sideY >= 0.0
    ensures hit == Trace(data[..], w, h, r, start)
  {
    ghost var g := data[..];
    hit := start;
    var found := false;
    while !found
      invariant !found ==> OnTheWay(g, w, h, r, start, hit)
      invariant found ==> hit == Trace(g, w, h, r, start)
      decreases if found then 0 else Remaining(w, h, r, hit) + 1
    {
      TraceStep(g, w, h, r, hit);
      ghost var prev := hit;
      if hit.sideX < hit.sideY {
        hit := Cursor(hit.mapX + r.stepX, hit.mapY, hit.sideX + r.deltaX, hit.sideY, 0);
      } else {
        hit := Cursor(hit.mapX, hit.mapY + r.stepY, hit.sideX, hit.sideY + r.deltaY, 1);
      }
      assert hit == Advance(r, prev);
      IdxInBounds(w, h, hit.mapX, hit.mapY);
      assert data[Idx(h, hit.mapX, hit.mapY)] == Code(g, w, h, hit);
      if data[Idx(h, hit.mapX, hit.mapY)] > 0 {
        found := true;
      }
    }
  }

  // ---------------------------------------------------------------------
  // The strip

  /** The wall strip of a column: its height and the rows drawn. */
  datatype Strip = Strip(lineHeight: int, drawStart: int, drawEnd: int)

  /** `line_height`, the window height divided by the wall distance. */
  function LineHeight(winH: int, perp: real): (lh: int)
    requires winH >= 1 && perp > 0.0
    ensures lh >= 0
  {
    Trunc(winH as real / perp)
  }

  /** The strip's first row before clipping: half a line above the horizon
      `h_win_h + pitch`, lifted by `pos_z / perp`. */
  function RawStart(winH: int, hh: int, pitch: real, posZ: real, perp: real): int
    requires winH >= 1 && perp > 0.0
  {
    Trunc(-(LineHeight(winH, perp) as real) / 2.0 + hh as real + pitch + posZ / perp)
  }

  /** The strip's last row before clipping, half a line below the horizon. */
  function RawEnd(winH: int, hh: int, pitch: real, posZ: real, perp: real): int
    requires winH >= 1 && perp > 0.0
  {
    Trunc((LineHeight(winH, perp) as real) / 2.0 + hh as real + pitch + posZ / perp)
  }

  /** The strip clipped to the window: `draw_start >= 0`, `draw_end <= win_h - 1`. */
  function StripOf(winH: int, hh: int, pitch: real, posZ: real, perp: real): (s: Strip)
    requires winH >= 1 && perp > 0.0
    ensures s.lineHeight == LineHeight(winH, perp) && s.lineHeight >= 0
    ensures 0 <= s.drawStart && s.drawEnd <= winH - 1
  {
    var start := RawStart(winH, hh, pitch, posZ, perp);
    var end := RawEnd(winH, hh, pitch, posZ, perp);
    Strip(LineHeight(winH, perp), if start < 0 then 0 else start, if end >= winH then winH - 1 else end)
  }

  /** Clipping keeps exactly the rows of the window that the unclipped
      strip covers. */
  lemma StripIsClipped(winH: int, hh: int, pitch: real, posZ: real, perp: real, y: int)
    requires winH >= 1 && perp > 0.0 && 0 <= y < winH
    ensures var s := StripOf(winH, hh, pitch, posZ, perp);
      s.drawStart <= y <= s.drawEnd <==>
      RawStart(winH, hh, pitch, posZ, perp) <= y <= RawEnd(winH, hh, pitch, posZ, perp)
  {
  }

  /** A nearer wall gives a strip at least as high. */
  lemma NearerIsTaller(winH: int, perp1: real, perp2: real)
    requires winH >= 1 && 0.0 < perp1 <= perp2
    ensures LineHeight(winH, perp2) <= LineHeight(winH, perp1)
  {
    var a := winH as real / perp1;
    var b := winH as real / perp2;
    assert a * perp1 == winH as real && b * perp2 == winH as real;
    NonnegProduct(b, perp2 - perp1);
    assert b * perp1 <= winH as real;
    NonnegProduct(a - b, perp1);
  }

  // ---------------------------------------------------------------------
  // Textured mode

  /** `wall_x`: where on the face of the wall the ray hit, as a fraction of a cell. */
  function WallX(r: Ray, t: Cursor, px: real, py: real, dx: real, dy: real): (f: real)
    ensures 0.0 <= f < 1.0
  {
    Frac(if t.side == 0 then py + Perp(r, t) * dy else px + Perp(r, t) * dx)
  }

  /** `tex_x`: the texture column of that point, mirrored when the face is
      seen from its other side so that textures are not drawn reversed. */
  function TexX(side: int, wallX: real, dx: real, dy: real, texW: int): (tx: int)
    requires 0.0 <= wallX < 1.0 && texW >= 1
    ensures 0 <= tx < texW
  {
    TruncBelow(wallX, texW);
    var col := Trunc(wallX * texW as real);
    if (side == 0 && dx > 0.0) || (side == 1 && dy < 0.0) then texW - col - 1 else col
  }

  /** A fraction of a size n, truncated, is an index below n. */
  lemma TruncBelow(fr: real, n: int)
    requires 1 <= n && 0.0 <= fr < 1.0
    ensures 0 <= Trunc((n as real) * fr) < n && 0 <= Trunc(fr * (n as real)) < n
  {
    TruncBelowReal(fr, n as real);
  }

  lemma TruncBelowReal(fr: real, nr: real)
    requires 1.0 <= nr && 0.0 <= fr < 1.0
    ensures 0 <= Trunc(nr * fr) && (Trunc(nr * fr) as real) < nr
    ensures 0 <= Trunc(fr * nr) && (Trunc(fr * nr) as real) < nr
  {
    ScaledFraction(fr, nr);
  }

  /** The same point of an x-face seen along +x and along -x falls on
      opposite texture columns. */
  lemma TexXMirrors(wallX: real, dx: real, texW: int)
    requires 0.0 <= wallX < 1.0 && texW >= 1 && dx > 0.0
    ensures TexX(0, wallX, dx, 0.0, texW) + TexX(0, wallX, -dx, 0.0, texW) == texW - 1
    ensures TexX(1, wallX, 0.0, -dx, texW) + TexX(1, wallX, 0.0, dx, texW) == texW - 1
  {
  }

  /** `step`: texture rows per screen row. */
  function TexStep(texH: int, lh: int): real
    requires lh >= 1
  {
    texH as real / lh as real
  }

  /** `tex_pos` at the strip's first drawn row. */
  function TexPos0(s: Strip, hh: int, pitch: real, posZ: real, perp: real, texH: int): real
    requires perp > 0.0 && s.lineHeight >= 1
  {
    ((s.drawStart as real) - pitch - posZ / perp - (hh as real) + (s.lineHeight as real) / 2.0)
      * TexStep(texH, s.lineHeight)
  }

  /** The texture row read at the k-th drawn row, as the loop computes it:
      `(int)tex_pos`, with `tex_pos` advanced by `step` once per row and no
      mask applied. */
  function TexRowAsWritten(t0: real, step: real, k: nat): int {
    Trunc(Stepped(t0, step, k))
  }

  /** The texture row with the mask `& (tex_h - 1)` that the loop's comment
      describes: always a row of the texture. */
  function TexRow(t0: real, step: real, k: nat, texH: int): (ty: int)
    requires 1 <= texH <= 0x8000_0000
    ensures 0 <= ty < texH
  {
    MaskBelow(Trunc(Stepped(t0, step, k)), texH);
    Mask(Trunc(Stepped(t0, step, k)), texH)
  }

  /** For a power-of-two texture height the mask only changes rows that
      fall outside the texture. */
  lemma TexRowKeepsRows(t0: real, step: real, k: nat, texH: int)
    requires 1 <= texH <= 0x8000_0000 && IsPow2(texH)
    requires 0 <= TexRowAsWritten(t0, step, k) < texH
    ensures TexRow(t0, step, k, texH) == TexRowAsWritten(t0, step, k)
  {
    MaskKeeps(TexRowAsWritten(t0, step, k), texH);
  }

  /** For a height that is not a power of two the mask also moves rows that
      lie inside the texture: in a 48-row texture, row 20 is read as row 4. */
  lemma TexRowMovesInnerRows()
    ensures TexRowAsWritten(20.0, 0.0, 0) == 20
    ensures TexRow(20.0, 0.0, 0, 48) == 4
  {
    assert Stepped(20.0, 0.0, 0) == 20.0;
    assert BitAnd(1, 2) == 0;
    assert BitAnd(2, 5) == 0;
    assert BitAnd(5, 11) == 1;
    assert BitAnd(10, 23) == 2;
    assert BitAnd(20, 47) == 4;
  }

  /** Without the mask, a strip of odd height whose top lies between two
      rows starts above the texture: in a 480-row window, a wall at distance
      960/23 gives line height 11, the strip starts at row 234 and its first
      row reads texture row -2, so the pixel index into a 64-by-64 texture
      is negative. The masked row is 62. */
  lemma TexRowAsWrittenLeavesTexture(texX: int)
    requires 0 <= texX < 64
    ensures var perp := 960.0 / 23.0;
      var s := StripOf(480, 240, 0.0, 0.0, perp);
      s.lineHeight == 11 && s.drawStart == 234 &&
      TexRowAsWritten(TexPos0(s, 240, 0.0, 0.0, perp, 64), TexStep(64, 11), 0) == -2 &&
      -2 * 64 + texX < 0 &&
      TexRow(TexPos0(s, 240, 0.0, 0.0, perp, 64), TexStep(64, 11), 0, 64) == 62
  {
    var perp := 960.0 / 23.0;
    assert 480.0 / perp == 11.5;
    assert LineHeight(480, perp) == 11;
    assert 0.0 / perp == 0.0;
    assert RawStart(480, 240, 0.0, 0.0, perp) == 234;
    var s := StripOf(480, 240, 0.0, 0.0, perp);
    var t0 := TexPos0(s, 240, 0.0, 0.0, perp, 64);
    assert t0 == -0.5 * (64.0 / 11.0);
    assert Trunc(t0) == -2;
    assert Stepped(t0, TexStep(64, 11), 0) == t0;
    MaskOfMinusTwo();
  }

  lemma MaskOfMinusTwo()
    ensures Mask(-2, 64) == 62
  {
    assert IsPow2(64) by {
      assert Pow2(6) == 64;
    }
    MaskIsMod(-2, 64);
  }

  /** The colour of a textured wall pixel: texel (tx, ty) of texture
      `code - 1`, darkened when the wall was hit on a y-side. */
  function WallTexel(tex: TexGroup, code: int, side: int, tx: int, ty: int): bv32
    requires GroupOk(tex) && 1 <= code <= tex.length && 0 <= tx < tex.w && 0 <= ty < tex.h
  {
    TexelInBounds(tex.w, tex.h, tx, ty);
    var c := tex.pixels[code - 1][Mul(ty, tex.w) + tx];
    if side == 1 then Darken(c) else c
  }

  // ---------------------------------------------------------------------
  // Columns

  /** The direction of the ray of screen column x. */
  function ColumnDir(v: View, x: int): (real, real)
    requires 0 <= x < v.winW
  {
    var cx := CameraX(x, v.winW);
    (v.dirX + v.planeX * cx, v.dirY + v.planeY * cx)
  }

  /** The state in which the ray of column x enters its wall. */
  function ColumnHit(g: seq<int>, w: int, h: int, v: View, x: int): (t: Cursor)
    requires MapOk(g, w, h) && Inside(w, h, v) && 0 <= x < v.winW
    ensures InGrid(w, h, t.mapX, t.mapY) && Code(g, w, h, t) > 0
  {
    var d := ColumnDir(v, x);
    var r := RayOf(d.0, d.1);
    Trace(g, w, h, r, StartOf(v.posX, v.posY, r, d.0, d.1))
  }

  /** The wall distance of column x. */
  function ColumnPerp(g: seq<int>, w: int, h: int, v: View, x: int): (p: real)
    requires MapOk(g, w, h) && Inside(w, h, v) && 0 <= x < v.winW
    ensures p >= 0.0
  {
    var d := ColumnDir(v, x);
    var r := RayOf(d.0, d.1);
    Perp(r, Trace(g, w, h, r, StartOf(v.posX, v.posY, r, d.0, d.1)))
  }

  /** A textured strip: the wall code and side, the rows, the texture
      column, `tex_pos` at the first row and `step`. */
  datatype TexColumn = TexColumn(code: int, side: int, strip: Strip, texX: int, t0: real, step: real)

  /** Every wall code of the map has a texture in a group of n. */
  predicate CodesHaveTextures(g: seq<int>, n: int) {
    forall i :: 0 <= i < |g| ==> g[i] <= n
  }

  lemma CodeHasTexture(g: seq<int>, w: int, h: int, c: Cursor, n: int)
    requires 0 <= w && 0 <= h && |g| == Size(w, h) && InGrid(w, h, c.mapX, c.mapY)
    requires CodesHaveTextures(g, n)
    ensures Code(g, w, h, c) <= n
  {
    IdxInBounds(w, h, c.mapX, c.mapY);
  }

  /** What the textured caster draws in column x. Nothing is modelled for a
      wall at distance 0 or a strip of height 0: C then converts an infinite
      float to int. */
  function TexturedColumn(g: seq<int>, w: int, h: int, tex: TexGroup, v: View, x: int): (c: Option<TexColumn>)
    requires MapOk(g, w, h) && Inside(w, h, v) && ViewOk(v) && GroupOk(tex) && 0 <= x < v.winW
    requires CodesHaveTextures(g, tex.length)
    ensures c.Some? ==> TexColumnOk(c.value, tex, v.winH)
  {
    var t := ColumnHit(g, w, h, v, x);
    var perp := ColumnPerp(g, w, h, v, x);
    if perp <= 0.0 then None
    else
      var s := StripOf(v.winH, v.hWinH, v.pitch, v.posZ, perp);
      if s.lineHeight < 1 then None
      else
        var d := ColumnDir(v, x);
        CodeHasTexture(g, w, h, t, tex.length);
        Some(TexColumn(Code(g, w, h, t), t.side, s,
                       TexX(t.side, WallX(RayOf(d.0, d.1), t, v.posX, v.posY, d.0, d.1), d.0, d.1, tex.w),
                       TexPos0(s, v.hWinH, v.pitch, v.posZ, perp, tex.h), TexStep(tex.h, s.lineHeight)))
  }

  predicate TexColumnOk(c: TexColumn, tex: TexGroup, winH: int) {
    GroupOk(tex) && 1 <= c.code <= tex.length && 0 <= c.texX < tex.w &&
    0 <= c.strip.drawStart && c.strip.drawEnd < winH
  }

  /** Row y of a textured strip: the texel of the strip's row, or `before`
      outside the strip. */
  function StripPixel(c: TexColumn, tex: TexGroup, winH: int, y: int, before: bv32): bv32
    requires TexColumnOk(c, tex, winH)
  {
    if c.strip.drawStart <= y <= c.strip.drawEnd then
      WallTexel(tex, c.code, c.side, c.texX, TexRow(c.t0, c.step, y - c.strip.drawStart, tex.h))
    else before
  }

  /** The pixel at (x, y) after the textured caster, `before` being the pixel before it. */
  function WallPixel(g: seq<int>, w: int, h: int, tex: TexGroup, v: View, x: int, y: int, before: bv32): bv32
    requires MapOk(g, w, h) && Inside(w, h, v) && ViewOk(v) && GroupOk(tex) && 0 <= x < v.winW
    requires CodesHaveTextures(g, tex.length)
  {
    var c := TexturedColumn(g, w, h, tex, v, x);
    if c.None? then before else StripPixel(c.value, tex, v.winH, y, before)
  }

  /** The inner loop of the textured mode: writes rows `draw_start` to
      `draw_end` of column x with the masked texture rows and changes no
      other pixel. */
  method DrawStrip(buffer: array<bv32>, winW: int, winH: int, x: int, c: TexColumn, tex: TexGroup)
    requires 0 <= x < winW && 1 <= winH && buffer.Length == FrameSize(winW, winH)
    requires TexColumnOk(c, tex, winH)
    modifies buffer
    ensures forall y :: 0 <= y < winH ==>
      buffer[Pixel(winW, winH, x, y)] == StripPixel(c, tex, winH, y, old(buffer[Pixel(winW, winH, x, y)]))
    ensures forall cx, cy :: 0 <= cx < winW && cx != x && 0 <= cy < winH ==>
      buffer[Pixel(winW, winH, cx, cy)] == old(buffer[Pixel(winW, winH, cx, cy)])
  {
    var y := c.strip.drawStart;
    var texPos := c.t0;
    while y < c.strip.drawEnd + 1
      invariant c.strip.drawStart <= y && (y <= c.strip.drawEnd + 1 || y == c.strip.drawStart)
      invariant texPos == Stepped(c.t0, c.step, y - c.strip.drawStart)
      invariant forall cy :: 0 <= cy < winH ==>
        buffer[Pixel(winW, winH, x, cy)] == (if cy < y then StripPixel(c, tex, winH, cy, old(buffer[Pixel(winW, winH, x, cy)]))
                                       else old(buffer[Pixel(winW, winH, x, cy)]))
      invariant forall cx, cy :: 0 <= cx < winW && cx != x && 0 <= cy < winH ==>
        buffer[Pixel(winW, winH, cx, cy)] == old(buffer[Pixel(winW, winH, cx, cy)])
    {
      MaskBelow(Trunc(texPos), tex.h);
      var texY := Mask(Trunc(texPos), tex.h);
      texPos := texPos + c.step;
      forall cx, cy | 0 <= cx < winW && 0 <= cy < winH && (cx, cy) != (x, y)
        ensures Pixel(winW, winH, cx, cy) != Pixel(winW, winH, x, y)
      {
        if Pixel(winW, winH, cx, cy) == Pixel(winW, winH, x, y) {
          PixelInjective(winW, winH, cx, cy, x, y);
        }
      }
      buffer[Pixel(winW, winH, x, y)] := WallTexel(tex, c.code, c.side, c.texX, texY);
      y := y + 1;
    }
  }

  /** One column of the textured mode: the ray of the column is cast on
      the map buffer and the strip worked out from its wall. */
  method CastTexturedColumn(data: array<int>, w: int, h: int, tex: TexGroup, v: View, x: int)
    returns (c: Option<TexColumn>)
    requires MapOk(data[..], w, h) && Inside(w, h, v) && ViewOk(v) && GroupOk(tex) && 0 <= x < v.winW
    requires CodesHaveTextures(data[..], tex.length)
    ensures c == TexturedColumn(data[..], w, h, tex, v, x)
  {
    var d := ColumnDir(v, x);
    var r := RayOf(d.0, d.1);
    var t := CastRay(data, w, h, r, StartOf(v.posX, v.posY, r, d.0, d.1));
    var perp := Perp(r, t);
    if perp <= 0.0 {
      return None;
    }
    var s := StripOf(v.winH, v.hWinH, v.pitch, v.posZ, perp);
    if s.lineHeight < 1 {
      return None;
    }
    IdxInBounds(w, h, t.mapX, t.mapY);
    var code := data[Idx(h, t.mapX, t.mapY)];
    var texX := TexX(t.side, WallX(r, t, v.posX, v.posY, d.0, d.1), d.0, d.1, tex.w);
    c := Some(TexColumn(code, t.side, s, texX,
                        TexPos0(s, v.hWinH, v.pitch, v.posZ, perp, tex.h), TexStep(tex.h, s.lineHeight)));
  }

  /** One column of `_casting_walls` in textured mode: column x of the
      frame buffer becomes what `WallPixel` says, every other pixel keeps
      its value. */
  method DrawTexturedColumn(data: array<int>, w: int, h: int, tex: TexGroup, v: View,
                            buffer: array<bv32>, x: int)
    requires MapOk(data[..], w, h) && Inside(w, h, v) && ViewOk(v) && GroupOk(tex) && 0 <= x < v.winW
    requires CodesHaveTextures(data[..], tex.length)
    requires buffer.Length == FrameSize(v.winW, v.winH) && data as object != buffer
    modifies buffer
    ensures data[..] == old(data[..])
    ensures forall y :: 0 <= y < v.winH ==>
      buffer[Pixel(v.winW, v.winH, x, y)] ==
        WallPixel(data[..], w, h, tex, v, x, y, old(buffer[Pixel(v.winW, v.winH, x, y)]))
    ensures forall cx, cy :: 0 <= cx < v.winW && cx != x && 0 <= cy < v.winH ==>
      buffer[Pixel(v.winW, v.winH, cx, cy)] == old(buffer[Pixel(v.winW, v.winH, cx, cy)])
  {
    ghost var g := data[..];
    var c := CastTexturedColumn(data, w, h, tex, v, x);
    if c.Some? {
      DrawStrip(buffer, v.winW, v.winH, x, c.value, tex);
    }
    assert data[..] == g;
    forall y | 0 <= y < v.winH
      ensures buffer[Pixel(v.winW, v.winH, x, y)] ==
        WallPixel(g, w, h, tex, v, x, y, old(buffer[Pixel(v.winW, v.winH, x, y)]))
    {
      assert c == TexturedColumn(g, w, h, tex, v, x);
    }
  }

  /** `_casting_walls` in textured mode: every column's strip is written
      into the frame buffer; every other pixel keeps its value. */
  method CastTexturedWalls(data: array<int>, w: int, h: int, tex: TexGroup, v: View, buffer: array<bv32>)
    requires MapOk(data[..], w, h) && Inside(w, h, v) && ViewOk(v) && GroupOk(tex)
    requires CodesHaveTextures(data[..], tex.length)
    requires buffer.Length == FrameSize(v.winW, v.winH) && data as object != buffer
    modifies buffer
    ensures data[..] == old(data[..])
    ensures forall x, y :: 0 <= x < v.winW && 0 <= y < v.winH ==>
      buffer[Pixel(v.winW, v.winH, x, y)] ==
        WallPixel(data[..], w, h, tex, v, x, y, old(buffer[Pixel(v.winW, v.winH, x, y)]))
  {
    ghost var g := data[..];
    var x := 0;
    while x < v.winW
      invariant 0 <= x <= v.winW && data[..] == g
      invariant forall cx, cy :: 0 <= cx < x && 0 <= cy < v.winH ==>
        buffer[Pixel(v.winW, v.winH, cx, cy)] ==
          WallPixel(g, w, h, tex, v, cx, cy, old(buffer[Pixel(v.winW, v.winH, cx, cy)]))
      invariant forall cx, cy :: x <= cx < v.winW && 0 <= cy < v.winH ==>
        buffer[Pixel(v.winW, v.winH, cx, cy)] == old(buffer[Pixel(v.winW, v.winH, cx, cy)])
    {
      DrawTexturedColumn(data, w, h, tex, v, buffer, x);
      x := x + 1;
    }
  }

  // ---------------------------------------------------------------------
  // Coloured mode

  /** A line of the coloured mode: the column, its first and last row and
      its colour; `None` when the code has no palette entry, where C draws
      with an uninitialised colour. */
  datatype Segment = Segment(x: int, top: int, bottom: int, color: Option<RGB>)

  /** The palette colour of a wall code, halved channel by channel on a y-side. */
  function Shade(colors: seq<RGB>, code: int, side: int): (c: Option<RGB>)
    ensures c.Some? <==> 1 <= code <= |colors|
    ensures c.Some? && side != 1 ==> c.value == colors[code - 1]
    ensures c.Some? && side == 1 ==> c.value == HalveRGB(colors[code - 1])
  {
    if 1 <= code <= |colors| then
      Some(if side == 1 then HalveRGB(colors[code - 1]) else colors[code - 1])
    else None
  }

  /** What the coloured caster draws in column x; nothing is modelled for a
      wall at distance 0. */
  function ColoredColumn(g: seq<int>, w: int, h: int, colors: seq<RGB>, v: View, x: int): (s: Option<Segment>)
    requires MapOk(g, w, h) && Inside(w, h, v) && ViewOk(v) && 0 <= x < v.winW
  {
    var t := ColumnHit(g, w, h, v, x);
    var perp := ColumnPerp(g, w, h, v, x);
    if perp <= 0.0 then None
    else
      var strip := StripOf(v.winH, v.hWinH, v.pitch, v.posZ, perp);
      Some(Segment(x, strip.drawStart, strip.drawEnd, Shade(colors, Code(g, w, h, t), t.side)))
  }

  /** Every line lies in its column and inside the window, and has the
      palette colour of the wall the ray hit, halved on a y-side. */
  lemma ColoredColumnShape(g: seq<int>, w: int, h: int, colors: seq<RGB>, v: View, x: int)
    requires MapOk(g, w, h) && Inside(w, h, v) && ViewOk(v) && 0 <= x < v.winW
    ensures var s := ColoredColumn(g, w, h, colors, v, x);
      var t := ColumnHit(g, w, h, v, x);
      (s.None? <==> ColumnPerp(g, w, h, v, x) == 0.0) &&
      (s.Some? ==> s.value.x == x && 0 <= s.value.top && s.value.bottom <= v.winH - 1 &&
                   (s.value.color.Some? <==> Code(g, w, h, t) <= |colors|) &&
                   (s.value.color.Some? && t.side == 1 ==>
                      s.value.color.value == HalveRGB(colors[Code(g, w, h, t) - 1])))
  {
  }

  /** One column of the coloured mode, with the palette loop of the source. */
  method CastColoredColumn(data: array<int>, w: int, h: int, colors: seq<RGB>, v: View, x: int)
    returns (s: Option<Segment>)
    requires MapOk(data[..], w, h) && Inside(w, h, v) && ViewOk(v) && 0 <= x < v.winW
    ensures s == ColoredColumn(data[..], w, h, colors, v, x)
  {
    var d := ColumnDir(v, x);
    var r := RayOf(d.0, d.1);
    var t := CastRay(data, w, h, r, StartOf(v.posX, v.posY, r, d.0, d.1));
    var perp := Perp(r, t);
    if perp <= 0.0 {
      return None;
    }
    var strip := StripOf(v.winH, v.hWinH, v.pitch, v.posZ, perp);
    IdxInBounds(w, h, t.mapX, t.mapY);
    var color := FindColor(colors, data[Idx(h, t.mapX, t.mapY)]);
    if t.side == 1 && color.Some? {
      color := Some(HalveRGB(color.value));
    }
    s := Some(Segment(x, strip.drawStart, strip.drawEnd, color));
  }

  /** `_casting_walls` in coloured mode: the line of each column, left to right. */
  method CastColoredWalls(data: array<int>, w: int, h: int, colors: seq<RGB>, v: View)
    returns (lines: seq<Option<Segment>>)
    requires MapOk(data[..], w, h) && Inside(w, h, v) && ViewOk(v)
    ensures |lines| == v.winW
    ensures forall x :: 0 <= x < v.winW ==> lines[x] == ColoredColumn(data[..], w, h, colors, v, x)
  {
    lines := [];
    var x := 0;
    while x < v.winW
      invariant 0 <= x <= v.winW && |lines| == x
      invariant forall cx :: 0 <= cx < x ==> lines[cx] == ColoredColumn(data[..], w, h, colors, v, cx)
    {
      var s := CastColoredColumn(data, w, h, colors, v, x);
      lines := lines + [s];
      x := x + 1;
    }
  }
}
