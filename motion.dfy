// The per-frame player update of the raycaster: walking with per-axis wall
// collision, the jump and crouch height, and the mouse camera (turning by a
// rotation of the direction and camera-plane vectors, and a clamped pitch).
// Floats are modelled as reals; the trigonometric and square-root values
// the C code computes are parameters with the properties the model needs.

module Motion {
  import opened CArith
  import opened Grids
  import opened Controls
  import opened RealArith

  /** Walking speed for one frame: half as fast while crouching. */
  function MoveSpeed(crouch: bool, delta: real): (ms: real)
    ensures delta >= 0.0 ==> 0.0 <= ms <= 5.0 * delta
    ensures crouch ==> ms * 2.0 == MoveSpeed(false, delta)
  {
    if !crouch then 5.0 * delta else 2.5 * delta
  }

  /** One axis of the heading: -1, 0 or 1 from the two opposite keys. */
  function Axis(neg: bool, pos: bool): int {
    (if pos then 1 else 0) - (if neg then 1 else 0)
  }

  /** The heading `(vx, vy)`: `vy` is -1 forward and 1 backward, `vx` is -1
      left and 1 right, divided by the length `sqrt(vx*vx + vy*vy)`, which
      is 0, 1 or `root2`, the computed square root of 2. */
  function Heading(c: Ctrls, root2: real): (v: (real, real))
    requires 1.41 < root2 < 1.42
    ensures -1.0 <= v.0 <= 1.0 && -1.0 <= v.1 <= 1.0
  {
    var vx := Axis(c.left, c.right) as real;
    var vy := Axis(c.up, c.down) as real;
    if vx * vx + vy * vy == 2.0 then (vx / root2, vy / root2) else (vx, vy)
  }

  /** The heading keeps the sign of each key pair, has components of at
      most 1, and has length 1 up to the rounding of `root2` whenever a key
      pair is unbalanced. */
  lemma HeadingShape(c: Ctrls, root2: real)
    requires 1.41 < root2 < 1.42
    ensures var v := Heading(c, root2);
      var ax, ay := Axis(c.left, c.right), Axis(c.up, c.down);
      (v.0 == 0.0 <==> ax == 0) && (v.0 > 0.0 <==> ax > 0) &&
      (v.1 == 0.0 <==> ay == 0) && (v.1 > 0.0 <==> ay > 0) &&
      -1.0 <= v.0 <= 1.0 && -1.0 <= v.1 <= 1.0 &&
      (ax == 0 && ay == 0 ==> v == (0.0, 0.0)) &&
      (ax != 0 || ay != 0 ==> 0.99 < v.0 * v.0 + v.1 * v.1 < 1.01)
  {
    var ax, ay := Axis(c.left, c.right), Axis(c.up, c.down);
    var v := Heading(c, root2);
    if ax != 0 && ay != 0 {
      var q := 1.0 / root2;
      assert 0.704 < q < 0.71 by {
        assert q * root2 == 1.0;
      }
      assert v.0 == ax as real * q && v.1 == ay as real * q;
      assert v.0 * v.0 == q * q && v.1 * v.1 == q * q;
      assert 0.4958 < q * q < 0.5041 by {
        assert 0.704 * 0.704 < q * q;
        assert q * q < 0.71 * 0.71;
      }
    }
  }

  /** A position whose cell `data[(int)x][(int)y]` is inside the map buffer. */
  predicate OnGrid(w: int, h: int, px: real, py: real) {
    0.0 <= px && 0.0 <= py && Trunc(px) <= w && Trunc(py) <= h
  }

  /** The cell under a position. */
  function CellAt(g: seq<int>, w: int, h: int, px: real, py: real): int
    requires 0 <= w && 0 <= h && |g| == Size(w, h) && OnGrid(w, h, px, py)
  {
    IdxInBounds(w, h, Trunc(px), Trunc(py));
    At(g, h, Trunc(px), Trunc(py))
  }

  /** A position the player may stand on: its cell holds 0. */
  predicate Passable(g: seq<int>, w: int, h: int, px: real, py: real) {
    0 <= w && 0 <= h && |g| == Size(w, h) && OnGrid(w, h, px, py) && CellAt(g, w, h, px, py) == 0
  }

  /** The proposed position is less than one cell away on each axis. */
  predicate Near(px: real, py: real, nx: real, ny: real) {
    -1.0 < nx - px < 1.0 && -1.0 < ny - py < 1.0
  }

  /** In a sealed map a passable cell is not on the border. */
  lemma PassableInterior(g: seq<int>, w: int, h: int, px: real, py: real)
    requires Passable(g, w, h, px, py) && Sealed(g, w, h)
    ensures 1 <= Trunc(px) < w && 1 <= Trunc(py) < h
  {
    assert !IsBorder(w, h, Trunc(px), Trunc(py));
  }

  lemma NearOnGrid(g: seq<int>, w: int, h: int, px: real, py: real, nx: real, ny: real)
    requires Passable(g, w, h, px, py) && Sealed(g, w, h) && Near(px, py, nx, ny)
    ensures OnGrid(w, h, nx, py) && OnGrid(w, h, px, ny) && OnGrid(w, h, nx, ny)
  {
    PassableInterior(g, w, h, px, py);
  }

  /** One movement of `_update_player_movement`: the x coordinate moves to
      `nx` when the cell at `(nx, py)` is free, then the y coordinate moves
      to `ny` when the cell at the (possibly updated) x and `ny` is free.
      The player stays on passable cells and each coordinate either keeps
      its value or takes the proposed one. */
  function Slide(g: seq<int>, w: int, h: int, px: real, py: real, nx: real, ny: real): (p: (real, real))
    requires Passable(g, w, h, px, py) && Sealed(g, w, h) && Near(px, py, nx, ny)
    ensures Passable(g, w, h, p.0, p.1)
    ensures (p.0 == px || p.0 == nx) && (p.1 == py || p.1 == ny)
    ensures OnGrid(w, h, nx, py) && (CellAt(g, w, h, nx, py) == 0 ==> p.0 == nx)
    ensures Near(px, py, p.0, p.1)
  {
    NearOnGrid(g, w, h, px, py, nx, ny);
    var x := if CellAt(g, w, h, nx, py) == 0 then nx else px;
    if CellAt(g, w, h, x, ny) == 0 then (x, ny) else (x, py)
  }

  /** A player that cannot move into walls: a blocked step leaves the
      player in place. */
  lemma SlideBlocked(g: seq<int>, w: int, h: int, px: real, py: real, nx: real, ny: real)
    requires Passable(g, w, h, px, py) && Sealed(g, w, h) && Near(px, py, nx, ny)
    requires OnGrid(w, h, nx, py) && OnGrid(w, h, px, ny)
    requires CellAt(g, w, h, nx, py) != 0 && CellAt(g, w, h, px, ny) != 0
    ensures Slide(g, w, h, px, py, nx, ny) == (px, py)
  {
    NearOnGrid(g, w, h, px, py, nx, ny);
  }

  /** Each of the two movement steps moves by less than a cell. */
  predicate SmallSteps(dirX: real, dirY: real, planeX: real, planeY: real, ms: real) {
    -1.0 < dirX * ms < 1.0 && -1.0 < dirY * ms < 1.0 &&
    -1.0 < planeX * ms < 1.0 && -1.0 < planeY * ms < 1.0
  }

  /** The walking part of `_update_player_movement`: a step along the
      direction vector for forward and backward, then a step along the
      camera plane for strafing, each checked against the walls. */
  function Walk(g: seq<int>, w: int, h: int, px: real, py: real,
                dirX: real, dirY: real, planeX: real, planeY: real,
                ms: real, v: (real, real)): (p: (real, real))
    requires Passable(g, w, h, px, py) && Sealed(g, w, h)
    requires SmallSteps(dirX, dirY, planeX, planeY, ms)
    requires -1.0 <= v.0 <= 1.0 && -1.0 <= v.1 <= 1.0
    ensures Passable(g, w, h, p.0, p.1)
    ensures v == (0.0, 0.0) ==> p == (px, py)
  {
    Stride(g, w, h, px, py, Abs(v.1) > 0.0, Abs(v.0) > 0.0,
           Scaled(dirX, ms, v.1), Scaled(dirY, ms, v.1), Scaled(planeX, ms, v.0), Scaled(planeY, ms, v.0))
  }

  /** The two legs of a walk: when `forward`, a step back by (fx, fy),
      the direction scaled by the speed and `vy`; then, when `strafe`, a
      step by (sx, sy), the camera plane scaled by the speed and `vx`. */
  function Stride(g: seq<int>, w: int, h: int, px: real, py: real, forward: bool, strafe: bool,
                  fx: real, fy: real, sx: real, sy: real): (p: (real, real))
    requires Passable(g, w, h, px, py) && Sealed(g, w, h)
    requires -1.0 < fx < 1.0 && -1.0 < fy < 1.0 && -1.0 < sx < 1.0 && -1.0 < sy < 1.0
    ensures Passable(g, w, h, p.0, p.1)
    ensures !forward && !strafe ==> p == (px, py)
  {
    var p1 := Leg(g, w, h, px, py, forward, px - fx, py - fy);
    Leg(g, w, h, p1.0, p1.1, strafe, p1.0 + sx, p1.1 + sy)
  }

  /** The two legs of a stride, taken one after the other. */
  lemma StrideByLegs(g: seq<int>, w: int, h: int, px: real, py: real, forward: bool, strafe: bool,
                     fx: real, fy: real, sx: real, sy: real, q1: (real, real), q2: (real, real))
    requires Passable(g, w, h, px, py) && Sealed(g, w, h)
    requires -1.0 < fx < 1.0 && -1.0 < fy < 1.0 && -1.0 < sx < 1.0 && -1.0 < sy < 1.0
    requires q1 == Leg(g, w, h, px, py, forward, px - fx, py - fy)
    requires q2 == Leg(g, w, h, q1.0, q1.1, strafe, q1.0 + sx, q1.1 + sy)
    ensures q2 == Stride(g, w, h, px, py, forward, strafe, fx, fy, sx, sy)
  {
  }

  /** One leg of the walk: when `on`, a collision-checked step towards
      (nx, ny); otherwise the player stays where they are. */
  function Leg(g: seq<int>, w: int, h: int, px: real, py: real, on: bool, nx: real, ny: real): (q: (real, real))
    requires Passable(g, w, h, px, py) && Sealed(g, w, h) && Near(px, py, nx, ny)
    ensures Passable(g, w, h, q.0, q.1)
    ensures !on ==> q == (px, py)
  {
    if on then Slide(g, w, h, px, py, nx, ny) else (px, py)
  }

  /** The jump: the phase advances by 0.0765 and the height rises by
      `30 * cosPhase`, `cosPhase` being the cosine of the new phase; when the
      height drops below 0 the jump ends at height 0 and phase 0. The result
      is `(height, phase, jumping)`. */
  function JumpStep(z: real, phase: real, jump: bool, cosPhase: real): (r: (real, real, bool))
    requires -1.0 <= cosPhase <= 1.0
    ensures jump && !r.2 ==> r.0 == 0.0 && r.1 == 0.0
    ensures r.2 ==> jump && r.0 >= 0.0 && r.1 == phase + 0.0765
    ensures !jump ==> r == (z, phase, false)
    ensures r.2 ==> r.0 <= z + 30.0
  {
    if !jump then (z, phase, false)
    else
      var z1 := z + cosPhase * 30.0;
      if z1 < 0.0 then (0.0, 0.0, false) else (z1, phase + 0.0765, true)
  }

  /** The crouch and the easing back to standing height. */
  function Settle(z: real, crouch: bool, ms: real): (z': real)
  {
    if crouch then (if z > -200.0 then z - 300.0 * ms else -200.0)
    else
      var z1 := if z > 0.0 then (if z - 100.0 * ms > 0.0 then z - 100.0 * ms else 0.0) else z;
      if z1 < 0.0 then (if z1 + 100.0 * ms < 0.0 then z1 + 100.0 * ms else 0.0) else z1
  }

  /** Standing up or landing moves the height toward 0 without crossing it;
      crouching lowers it toward -200 and holds it there once reached. */
  lemma SettleMoves(z: real, crouch: bool, ms: real)
    requires ms >= 0.0
    ensures !crouch && z >= 0.0 ==> 0.0 <= Settle(z, crouch, ms) <= z
    ensures !crouch && z <= 0.0 ==> z <= Settle(z, crouch, ms) <= 0.0
    ensures !crouch && z - 100.0 * ms >= 0.0 ==> Settle(z, crouch, ms) == z - 100.0 * ms
    ensures crouch && z > -200.0 ==> Settle(z, crouch, ms) == z - 300.0 * ms
    ensures crouch && z <= -200.0 ==> Settle(z, crouch, ms) == -200.0
    ensures crouch && z >= -200.0 ==> -200.0 - 300.0 * ms <= Settle(z, crouch, ms) <= z
  {
  }

  /** Repeated settling without crouch never leaves the interval between
      the starting height and 0. */
  lemma {:induction false} SettleStaysBetween(z: real, ms: real, n: nat)
    requires ms >= 0.0
    ensures var z' := SettleN(z, ms, n);
      (z >= 0.0 ==> 0.0 <= z' <= z) && (z <= 0.0 ==> z <= z' <= 0.0)
    decreases n
  {
    if n > 0 {
      SettleMoves(z, false, ms);
      SettleStaysBetween(Settle(z, false, ms), ms, n - 1);
    }
  }

  function SettleN(z: real, ms: real, n: nat): real
    decreases n
  {
    if n == 0 then z else SettleN(Settle(z, false, ms), ms, n - 1)
  }

  // ---------------------------------------------------------------------
  // Camera

  /** Rotation of `(x, y)` by the angle whose cosine and sine are `c`, `s`:
      the x component is computed from the old values of both components,
      as `old_dir_x` and `old_plane_x` keep them in the source. */
  function Rotate(x: real, y: real, c: real, s: real): (real, real) {
    (x * c - y * s, x * s + y * c)
  }

  /** A rotation keeps lengths and dot products, so the direction keeps
      its length and stays perpendicular to the camera plane, and the field
      of view does not change. */
  lemma RotateIsometry(x: real, y: real, u: real, v: real, c: real, s: real)
    requires c * c + s * s == 1.0
    ensures var a := Rotate(x, y, c, s);
      var b := Rotate(u, v, c, s);
      a.0 * b.0 + a.1 * b.1 == x * u + y * v
  {
    var a := Rotate(x, y, c, s);
    var b := Rotate(u, v, c, s);
    calc {
      a.0 * b.0 + a.1 * b.1;
      (x * c - y * s) * (u * c - v * s) + (x * s + y * c) * (u * s + v * c);
      x * u * (c * c + s * s) + y * v * (s * s + c * c);
      x * u + y * v;
    }
  }

  /** Turning right by the same angle undoes turning left. */
  lemma RotateBack(x: real, y: real, c: real, s: real)
    requires c * c + s * s == 1.0
    ensures var a := Rotate(x, y, c, s);
      Rotate(a.0, a.1, c, -s) == (x, y)
  {
    var a := Rotate(x, y, c, s);
    var b := Rotate(a.0, a.1, c, -s);
    assert b == (a.0 * c - a.1 * (-s), a.0 * (-s) + a.1 * c);
    calc {
      a.0 * c - a.1 * (-s);
      (x * c - y * s) * c + (x * s + y * c) * s;
      x * (c * c + s * s);
      x;
    }
    calc {
      a.0 * (-s) + a.1 * c;
      -(x * c - y * s) * s + (x * s + y * c) * c;
      y * (s * s + c * c);
      y;
    }
  }

  /** The horizontal mouse turn: a negative `dx` turns left by the rotation
      angle (cosine `c`, sine `s`), a positive one turns right by the
      opposite angle, 0 leaves the view; both vectors turn together. */
  function Turn(dx: int, dirX: real, dirY: real, planeX: real, planeY: real, c: real, s: real)
    : (r: (real, real, real, real))
  {
    if dx < 0 then
      var d := Rotate(dirX, dirY, c, s);
      var p := Rotate(planeX, planeY, c, s);
      (d.0, d.1, p.0, p.1)
    else if dx > 0 then
      var d := Rotate(dirX, dirY, c, -s);
      var p := Rotate(planeX, planeY, c, -s);
      (d.0, d.1, p.0, p.1)
    else (dirX, dirY, planeX, planeY)
  }

  lemma TurnKeepsFrame(dx: int, dirX: real, dirY: real, planeX: real, planeY: real, c: real, s: real)
    requires c * c + s * s == 1.0
    ensures var r := Turn(dx, dirX, dirY, planeX, planeY, c, s);
      r.0 * r.0 + r.1 * r.1 == dirX * dirX + dirY * dirY &&
      r.2 * r.2 + r.3 * r.3 == planeX * planeX + planeY * planeY &&
      r.0 * r.2 + r.1 * r.3 == dirX * planeX + dirY * planeY
  {
    var s' := if dx > 0 then -s else s;
    assert c * c + s' * s' == 1.0;
    RotateIsometry(dirX, dirY, dirX, dirY, c, s');
    RotateIsometry(planeX, planeY, planeX, planeY, c, s');
    RotateIsometry(dirX, dirY, planeX, planeY, c, s');
  }

  /** `0.5 * abs(d) * delta`, the angular speed of a mouse motion `d`. */
  function MouseSpeed(d: int, delta: real): (v: real)
    ensures delta >= 0.0 ==> v >= 0.0
  {
    var a := (if d < 0 then -d else d) as real;
    assert delta >= 0.0 ==> a * delta >= 0.0;
    0.5 * a * delta
  }

  /** The vertical mouse look: `cam = 0.5 * |dy| * delta`; a negative `dy`
      raises the pitch by `400 * cam` up to 200, a positive one lowers it
      down to -200. */
  function Look(dy: int, pitch: real, delta: real): (p: real)
  {
    var cam := MouseSpeed(dy, delta);
    if dy < 0 then (if pitch + 400.0 * cam > 200.0 then 200.0 else pitch + 400.0 * cam)
    else if dy > 0 then (if pitch - 400.0 * cam < -200.0 then -200.0 else pitch - 400.0 * cam)
    else pitch
  }

  /** The pitch stays within [-200, 200] and moves the way the mouse does. */
  lemma LookBounded(dy: int, pitch: real, delta: real)
    requires -200.0 <= pitch <= 200.0 && delta >= 0.0
    ensures -200.0 <= Look(dy, pitch, delta) <= 200.0
    ensures dy < 0 ==> Look(dy, pitch, delta) >= pitch
    ensures dy > 0 ==> Look(dy, pitch, delta) <= pitch
    ensures dy == 0 ==> Look(dy, pitch, delta) == pitch
  {
  }
}
