// `Raycast_Data` and the public functions of the raycaster: creation, map
// and texture loading, the event handler, the per-frame update and the
// rendering of one frame. SDL objects (renderer, streaming texture, font)
// are not part of the state; the clock's `delta` and the values the C code
// takes from `sqrt`, `cos` and `sin` are parameters.

module Raycast {
  import opened CArith
  import opened Grids
  import opened Options
  import opened Controls
  import opened Motion
  import opened RealArith
  import opened Textures
  import opened Views
  import opened Maps
  import opened WallCast
  import opened FloorCast

  // ---------------------------------------------------------------------
  // The spawn scan of Raycast_LoadMap

  /** The cells the scan visits: x in [1, width), y in [1, height). */
  predicate Scanned(w: int, h: int, x: int, y: int) {
    1 <= x < w && 1 <= y < h
  }

  /** The scan order: column by column, each column from y = 1 down. */
  predicate ScanBefore(x: int, y: int, x': int, y': int) {
    x < x' || (x == x' && y < y')
  }

  /** (x, y) is the first cell of the scan that holds 0. */
  ghost predicate FirstFree(g: seq<int>, w: int, h: int, x: int, y: int) {
    Scanned(w, h, x, y) && 0 <= Idx(h, x, y) < |g| && g[Idx(h, x, y)] == 0 &&
    forall x', y' :: Scanned(w, h, x', y') && ScanBefore(x', y', x, y) ==>
      0 <= Idx(h, x', y') < |g| && g[Idx(h, x', y')] != 0
  }

  /** No cell the scan visits holds 0. */
  ghost predicate NoneFree(g: seq<int>, w: int, h: int) {
    forall x, y :: Scanned(w, h, x, y) ==> 0 <= Idx(h, x, y) < |g| && g[Idx(h, x, y)] != 0
  }

  /** The scan's nested loops: the first cell holding 0, or none. */
  method FindFree(data: array<int>, w: int, h: int) returns (cell: Option<(int, int)>)
    requires 0 <= w && 0 <= h && data.Length == Size(w, h)
    ensures cell.Some? ==> FirstFree(data[..], w, h, cell.value.0, cell.value.1)
    ensures cell.None? ==> NoneFree(data[..], w, h)
  {
    var x := 1;
    while x < w
      invariant 1 <= x && (x <= w || w <= 1)
      invariant forall x', y' :: Scanned(w, h, x', y') && x' < x ==>
        0 <= Idx(h, x', y') < data.Length && data[Idx(h, x', y')] != 0
    {
      var y := 1;
      while y < h
        invariant 1 <= y && (y <= h || h <= 1)
        invariant forall y' :: 1 <= y' < y ==> 0 <= Idx(h, x, y') < data.Length && data[Idx(h, x, y')] != 0
      {
        IdxInBounds(w, h, x, y);
        if data[Idx(h, x, y)] == 0 {
          return Some((x, y));
        }
        y := y + 1;
      }
      x := x + 1;
    }
    return None;
  }

  /** The scan has one answer: two first free cells are the same cell. */
  lemma FirstFreeUnique(g: seq<int>, w: int, h: int, x1: int, y1: int, x2: int, y2: int)
    requires FirstFree(g, w, h, x1, y1) && FirstFree(g, w, h, x2, y2)
    ensures x1 == x2 && y1 == y2
  {
  }

  /** The centre of the first free cell is a position the player may
      stand on, inside the map. */
  lemma SpawnPassable(g: seq<int>, w: int, h: int, x: int, y: int)
    requires 0 <= w && 0 <= h && |g| == Size(w, h) && FirstFree(g, w, h, x, y)
    ensures Passable(g, w, h, x as real + 0.5, y as real + 0.5)
  {
    assert Trunc(x as real + 0.5) == x && Trunc(y as real + 0.5) == y;
  }

  // ---------------------------------------------------------------------
  // The walk of `_update_player_movement`, on the values of the fields

  /** The heading of the held keys: `vy` is -1 forward and 1 backward,
      `vx` is -1 left and 1 right, both divided by the length when it is not
      0, `root2` being the computed square root of 2. */
  method HeadingOf(c: Ctrls, root2: real) returns (vx: real, vy: real)
    requires 1.41 < root2 < 1.42
    ensures (vx, vy) == Heading(c, root2)
  {
    vx, vy := 0.0, 0.0;
    if c.up { vy := vy - 1.0; }
    if c.down { vy := vy + 1.0; }
    if c.left { vx := vx - 1.0; }
    if c.right { vx := vx + 1.0; }
    // the square root of vx * vx + vy * vy, whose values are 0, 1 and 2
    var len2 := vx * vx + vy * vy;
    var length := if len2 == 2.0 then root2 else len2;
    if length > 0.0 {
      vx, vy := vx / length, vy / length;
    }
  }

  /** One collision-checked step: x moves to `nx` when the cell at
      (nx, y) is free, then y moves to `ny` when the cell at the x just
      reached and `ny` is free. */
  method TryStep(data: array<int>, w: int, h: int, px: real, py: real, nx: real, ny: real)
    returns (x: real, y: real)
    requires Passable(data[..], w, h, px, py) && Sealed(data[..], w, h) && Near(px, py, nx, ny)
    ensures (x, y) == Slide(data[..], w, h, px, py, nx, ny)
  {
    NearOnGrid(data[..], w, h, px, py, nx, ny);
    x, y := px, py;
    IdxInBounds(w, h, Trunc(nx), Trunc(y));
    if data[Idx(h, Trunc(nx), Trunc(y))] == 0 {
      x := nx;
    }
    IdxInBounds(w, h, Trunc(x), Trunc(ny));
    if data[Idx(h, Trunc(x), Trunc(ny))] == 0 {
      y := ny;
    }
  }

  /** The walk at speed `ms` for the heading (vx, vy): the step along the
      direction, `(dir * mov_speed) * vy`, and the one along the camera
      plane, `(plane * mov_speed) * vx`. */
  method WalkSteps(data: array<int>, ghost g: seq<int>, w: int, h: int, px: real, py: real,
                   dirX: real, dirY: real, planeX: real, planeY: real, ms: real, vx: real, vy: real)
    returns (x: real, y: real)
    requires g == data[..]
    requires Passable(g, w, h, px, py) && Sealed(g, w, h)
    requires SmallSteps(dirX, dirY, planeX, planeY, ms) && -1.0 <= vx <= 1.0 && -1.0 <= vy <= 1.0
    ensures (x, y) == Walk(g, w, h, px, py, dirX, dirY, planeX, planeY, ms, (vx, vy))
  {
    var fx, fy := Scaled(dirX, ms, vy), Scaled(dirY, ms, vy);
    var sx, sy := Scaled(planeX, ms, vx), Scaled(planeY, ms, vx);
    var q := StrideSteps(data, g, w, h, px, py, Abs(vy) > 0.0, Abs(vx) > 0.0, fx, fy, sx, sy);
    x, y := q.0, q.1;
  }

  /** The two collision-checked steps of a walk: when `forward`, back by
      (fx, fy), the direction scaled by speed and `vy`; then, when
      `strafe`, by (sx, sy), the camera plane scaled by speed and `vx`. */
  method StrideSteps(data: array<int>, ghost g: seq<int>, w: int, h: int, px: real, py: real,
                     forward: bool, strafe: bool, fx: real, fy: real, sx: real, sy: real)
    returns (q: (real, real))
    requires g == data[..]
    requires Passable(g, w, h, px, py) && Sealed(g, w, h)
    requires -1.0 < fx < 1.0 && -1.0 < fy < 1.0 && -1.0 < sx < 1.0 && -1.0 < sy < 1.0
    ensures q == Stride(g, w, h, px, py, forward, strafe, fx, fy, sx, sy)
  {
    var q1 := LegStep(data, g, w, h, px, py, forward, px - fx, py - fy);
    q := LegStep(data, g, w, h, q1.0, q1.1, strafe, q1.0 + sx, q1.1 + sy);
    StrideByLegs(g, w, h, px, py, forward, strafe, fx, fy, sx, sy, q1, q);
  }

  /** One of the two `if (fabsf(v) > 0)` blocks of the walk, on the cells
      `g` of the map. */
  method LegStep(data: array<int>, ghost g: seq<int>, w: int, h: int, px: real, py: real,
                 on: bool, nx: real, ny: real)
    returns (q: (real, real))
    requires g == data[..]
    requires Passable(g, w, h, px, py) && Sealed(g, w, h) && Near(px, py, nx, ny)
    ensures q == Leg(g, w, h, px, py, on, nx, ny)
  {
    q := (px, py);
    if on {
      var x, y := TryStep(data, w, h, px, py, nx, ny);
      q := (x, y);
    }
  }

  /** One rotation of `_update_player_camera`: the new x from both old
      components, then the new y from the x saved beforehand. */
  method RotateVec(x: real, y: real, c: real, s: real) returns (x': real, y': real)
    ensures (x', y') == Rotate(x, y, c, s)
  {
    var oldX := x;
    x' := x * c - y * s;
    y' := oldX * s + y * c;
  }

  /** The requested cell is taken as it is: a request for the last
      column, `player_x == width`, puts the player on the border of the
      map, which is a wall in a sealed map. */
  lemma RequestOnBorder(g: seq<int>, w: int, h: int, py: int, fromX: real, fromY: real, nx: real, ny: real)
    requires 0 <= w && 0 <= h && |g| == Size(w, h) && Sealed(g, w, h)
    requires 0 < w && 0 < py <= h && Spawned(g, w, h, w, py, fromX, fromY, nx, ny)
    ensures Trunc(nx) == w && !Passable(g, w, h, nx, ny)
  {
    assert Trunc(nx) == w;
    if Passable(g, w, h, nx, ny) {
      PassableInterior(g, w, h, nx, ny);
    }
  }

  // ---------------------------------------------------------------------
  // The raycaster

  /** The camera `Raycast_Init` sets: looking along -x with a camera plane
      of length 0.66, a field of view of about 66 degrees. */
  const StartDirX: real := -1.0
  const StartDirY: real := 0.0
  const StartPlaneX: real := 0.0
  const StartPlaneY: real := 0.66

  /** `Raycast_Data` without its SDL objects. `buffer` is the frame buffer
      of the textured mode, null in coloured mode. */
  class Raycaster {
    const winW: int
    const winH: int
    const hWinW: int
    const hWinH: int
    var posX: real
    var posY: real
    var posZ: real
    var pitch: real
    var dirX: real
    var dirY: real
    var planeX: real
    var planeY: real
    var ctrl: Ctrls
    var jumpPhase: real
    var crouchPhase: real
    var buffer: array?<bv32>
    var floorTex: Option<Texture>
    var ceilingTex: Option<Texture>
    var wallTex: Option<TexGroup>
    var level: Map  // the `map` field of `Raycast_Data`

    /** `uint16_t` window sizes, halves that are their integer halves, a
        valid map whose border is walled, a frame buffer of one pixel per
        window pixel apart from the map, well formed textures and mouse
        deltas that fit `int8_t`. */
    ghost predicate Valid()
      reads this`level, this`buffer, this`floorTex, this`ceilingTex, this`wallTex, this`ctrl, this`pitch
      reads level, level.data
    {
      1 <= winW < 0x1_0000 && 1 <= winH < 0x1_0000 && hWinW == winW / 2 && hWinH == winH / 2 &&
      level.Valid() && Sealed(level.data[..], level.width, level.height) &&
      (buffer != null ==> buffer.Length == FrameSize(winW, winH) && buffer as object != level.data) &&
      TexOk(floorTex) && TexOk(ceilingTex) && (wallTex.Some? ==> GroupOk(wallTex.value)) &&
      -128 <= ctrl.mouseDx < 128 && -128 <= ctrl.mouseDy < 128 &&
      -200.0 <= pitch <= 200.0
    }

    /** The player stands on a free cell of the map. */
    ghost predicate Standing()
      reads this`level, this`posX, this`posY, level, level.data
    {
      Passable(level.data[..], level.width, level.height, posX, posY)
    }

    /** The window and pose a frame is cast from. */
    function Pose(): View
      reads this
    {
      View(winW, winH, hWinH, posX, posY, posZ, pitch, dirX, dirY, planeX, planeY)
    }

    /** `Raycast_Init`: the built-in textures that `flags` asks for, the
        starting pose and camera, every control released, a frame buffer
        exactly when a built-in texture was made, and then the map loaded
        as `Raycast_LoadMap` does from position (0, 0). */
    constructor Init(winW: int, winH: int, m: Map, playerX: int, playerY: int, flags: bv8)
      requires 1 <= winW < 0x1_0000 && 1 <= winH < 0x1_0000
      requires 0 <= playerX < 0x1_0000 && 0 <= playerY < 0x1_0000
      requires m.Valid() && Sealed(m.data[..], m.width, m.height)
      ensures Valid() && level == m
      ensures this.winW == winW && this.winH == winH && hWinW == winW / 2 && hWinH == winH / 2
      ensures posZ == 0.0 && pitch == 0.0 && jumpPhase == 0.0 && crouchPhase == 0.0
      ensures dirX == StartDirX && dirY == StartDirY && planeX == StartPlaneX && planeY == StartPlaneY
      ensures ctrl == Released
      ensures floorTex.Some? <==> flags & (AutoFloorTex | AutoFullTex) != 0
      ensures ceilingTex.Some? <==> flags & (AutoCeilingTex | AutoFullTex) != 0
      ensures wallTex.Some? <==> flags & (AutoWallTex | AutoFullTex) != 0
      ensures (buffer != null) <==> (floorTex.Some? || ceilingTex.Some? || wallTex.Some?)
      ensures buffer != null ==> fresh(buffer)
      ensures Spawned(m.data[..], m.width, m.height, playerX, playerY, 0.0, 0.0, posX, posY)
    {
      var floor, ceiling, walls, autotex := AutoTexGeneration(flags);
      if floor.Some? { AutoTexturesOk(floor.value, FloorTiles); }
      if ceiling.Some? { AutoTexturesOk(ceiling.value, CeilingFrame); }
      if walls.Some? { AutoWallsOk(walls.value); }
      this.winW := winW;
      this.winH := winH;
      hWinW := winW / 2;
      hWinH := winH / 2;
      posX, posY, posZ, pitch := 0.0, 0.0, 0.0, 0.0;
      dirX, dirY, planeX, planeY := StartDirX, StartDirY, StartPlaneX, StartPlaneY;
      ctrl := Released;
      jumpPhase, crouchPhase := 0.0, 0.0;
      if autotex {
        buffer := new bv32[FrameSize(winW, winH)];
      } else {
        buffer := null;
      }
      floorTex, ceilingTex, wallTex := floor, ceiling, walls;
      level := m;
      new;
      LoadMap(m, playerX, playerY);
    }

    /** `Raycast_LoadMap`: the player goes to the centre of the requested
        cell when both coordinates are in `[1, size]`, else to the centre of
        the first free cell of the scan, else stays where it is. */
    method LoadMap(m: Map, px: int, py: int)
      requires Valid() && m.Valid() && Sealed(m.data[..], m.width, m.height)
      requires buffer == null || buffer as object != m.data
      modifies this`level, this`posX, this`posY
      ensures Valid() && level == m
      ensures Spawned(m.data[..], m.width, m.height, px, py, old(posX), old(posY), posX, posY)
      ensures !(0 < px <= m.width && 0 < py <= m.height) && !NoneFree(m.data[..], m.width, m.height) ==>
        Standing()
    {
      level := m;
      if 0 < px <= m.width && 0 < py <= m.height {
        posX := px as real + 0.5;
        posY := py as real + 0.5;
      } else {
        var cell := FindFree(m.data, m.width, m.height);
        if cell.Some? {
          posX := cell.value.0 as real + 0.5;
          posY := cell.value.1 as real + 0.5;
          assert Trunc(posX) == cell.value.0 && Trunc(posY) == cell.value.1;
          SpawnPassable(m.data[..], m.width, m.height, cell.value.0, cell.value.1);
        }
      }
    }

    /** `Raycast_LoadTex`: textures are set, with a new frame buffer, only
        while the raycaster has no frame buffer; otherwise nothing changes
        and `loaded` is false, where C prints an error. */
    method LoadTex(floor: Option<Texture>, ceiling: Option<Texture>, walls: Option<TexGroup>)
      returns (loaded: bool)
      requires Valid() && TexOk(floor) && TexOk(ceiling) && (walls.Some? ==> GroupOk(walls.value))
      modifies this`buffer, this`floorTex, this`ceilingTex, this`wallTex
      ensures Valid()
      ensures loaded <==> old(buffer) == null
      ensures loaded ==> fresh(buffer) && floorTex == floor && ceilingTex == ceiling && wallTex == walls
      ensures !loaded ==> buffer == old(buffer) && floorTex == old(floorTex) &&
                          ceilingTex == old(ceilingTex) && wallTex == old(wallTex)
    {
      if buffer == null {
        buffer := new bv32[FrameSize(winW, winH)];
        floorTex, ceilingTex, wallTex := floor, ceiling, walls;
        loaded := true;
      } else {
        loaded := false;
      }
    }

    /** `Raycast_GetEvents`: only the controls change. */
    method GetEvents(e: Event)
      requires Valid()
      modifies this`ctrl
      ensures Valid() && ctrl == OnEvent(old(ctrl), e)
    {
      ctrl := OnEvent(ctrl, e);
    }

    /** The jump block of `_update_player_movement`, `cosPhase` being the
        computed cosine of the advanced phase. */
    method JumpPhase(cosPhase: real)
      requires -1.0 <= cosPhase <= 1.0
      modifies this`posZ, this`jumpPhase, this`ctrl
      ensures (posZ, jumpPhase, ctrl.jump) == JumpStep(old(posZ), old(jumpPhase), old(ctrl).jump, cosPhase)
      ensures ctrl == old(ctrl).(jump := ctrl.jump)
    {
      if ctrl.jump {
        jumpPhase := jumpPhase + 0.0765;
        posZ := posZ + cosPhase * 30.0;
        if posZ < 0.0 {
          ctrl := ctrl.(jump := false);
          jumpPhase := 0.0;
          posZ := 0.0;
        }
      }
    }

    /** The crouch block of `_update_player_movement` at speed `ms`. */
    method CrouchPhase(ms: real)
      modifies this`posZ
      ensures posZ == Settle(old(posZ), ctrl.crouch, ms)
    {
      if ctrl.crouch {
        if posZ > -200.0 {
          posZ := posZ - 300.0 * ms;
        } else {
          posZ := -200.0;
        }
      } else {
        if posZ > 0.0 {
          posZ := if posZ - 100.0 * ms > 0.0 then posZ - 100.0 * ms else 0.0;
        }
        if posZ < 0.0 {
          posZ := if posZ + 100.0 * ms < 0.0 then posZ + 100.0 * ms else 0.0;
        }
      }
    }

    /** `_update_player_movement`: the walk of the held keys at the speed of
        `delta`, then the jump and the crouch. `root2` is the computed
        square root of 2 and `cosPhase` the computed cosine of the advanced
        jump phase. Each step must be shorter than a cell, which keeps the
        cells the C code reads inside the map. */
    method UpdateMovement(delta: real, root2: real, cosPhase: real)
      requires Valid() && Standing()
      requires delta >= 0.0 && 1.41 < root2 < 1.42 && -1.0 <= cosPhase <= 1.0
      requires SmallSteps(dirX, dirY, planeX, planeY, MoveSpeed(ctrl.crouch, delta))
      modifies this`posX, this`posY, this`posZ, this`jumpPhase, this`ctrl
      ensures Valid() && Standing()
      ensures (posX, posY) == old(Walk(level.data[..], level.width, level.height, posX, posY,
                                       dirX, dirY, planeX, planeY, MoveSpeed(ctrl.crouch, delta), Heading(ctrl, root2)))
      ensures var j := old(JumpStep(posZ, jumpPhase, ctrl.jump, cosPhase));
        jumpPhase == j.1 && ctrl == old(ctrl).(jump := j.2) &&
        posZ == old(Settle(j.0, ctrl.crouch, MoveSpeed(ctrl.crouch, delta)))
    {
      var ms := if !ctrl.crouch then 5.0 * delta else 2.5 * delta;
      var vx, vy := HeadingOf(ctrl, root2);
      var x, y := WalkSteps(level.data, level.data[..], level.width, level.height, posX, posY,
                            dirX, dirY, planeX, planeY, ms, vx, vy);
      JumpPhase(cosPhase);
      CrouchPhase(ms);
      posX, posY := x, y;
    }

    /** The turn of `_update_player_camera` for a pending horizontal
        motion: left for a negative `mouse_dx`, right for a positive one. */
    method TurnView(c: real, s: real)
      modifies this`dirX, this`dirY, this`planeX, this`planeY
      ensures (dirX, dirY, planeX, planeY) == old(Turn(ctrl.mouseDx, dirX, dirY, planeX, planeY, c, s))
    {
      if ctrl.mouseDx < 0 {
        dirX, dirY := RotateVec(dirX, dirY, c, s);
        planeX, planeY := RotateVec(planeX, planeY, c, s);
      } else if ctrl.mouseDx > 0 {
        dirX, dirY := RotateVec(dirX, dirY, c, -s);
        planeX, planeY := RotateVec(planeX, planeY, c, -s);
      }
    }

    /** The pitch change of `_update_player_camera` for a pending vertical
        motion: up for a negative `mouse_dy`, down for a positive one. */
    method TiltView(delta: real)
      requires -200.0 <= pitch <= 200.0 && delta >= 0.0
      modifies this`pitch
      ensures pitch == Look(ctrl.mouseDy, old(pitch), delta) && -200.0 <= pitch <= 200.0
    {
      LookBounded(ctrl.mouseDy, pitch, delta);
      var cam := MouseSpeed(ctrl.mouseDy, delta);
      if ctrl.mouseDy < 0 {
        pitch := pitch + 400.0 * cam;
        if pitch > 200.0 { pitch := 200.0; }
      } else if ctrl.mouseDy > 0 {
        pitch := pitch - 400.0 * cam;
        if pitch < -200.0 { pitch := -200.0; }
      }
    }

    /** `_update_player_camera`: a pending horizontal motion turns the
        direction and the camera plane, `c` and `s` being the computed
        cosine and sine of `0.5 * |mouse_dx| * delta`; a pending vertical
        motion moves the pitch. Each pending flag is cleared. */
    method UpdateCamera(delta: real, c: real, s: real)
      requires Valid() && delta >= 0.0
      modifies this`ctrl, this`dirX, this`dirY, this`planeX, this`planeY, this`pitch
      ensures Valid()
      ensures ctrl == old(ctrl).(mouseMx := false, mouseMy := false)
      ensures (dirX, dirY, planeX, planeY) ==
        old(if ctrl.mouseMx then Turn(ctrl.mouseDx, dirX, dirY, planeX, planeY, c, s) else (dirX, dirY, planeX, planeY))
      ensures pitch == old(if ctrl.mouseMy then Look(ctrl.mouseDy, pitch, delta) else pitch)
    {
      if ctrl.mouseMx {
        ctrl := ctrl.(mouseMx := false);
        TurnView(c, s);
      }
      if ctrl.mouseMy {
        ctrl := ctrl.(mouseMy := false);
        TiltView(delta);
      }
    }

    /** `Raycast_Update`: the movement, then the camera. */
    method Update(delta: real, root2: real, cosPhase: real, c: real, s: real)
      requires Valid() && Standing()
      requires delta >= 0.0 && 1.41 < root2 < 1.42 && -1.0 <= cosPhase <= 1.0
      requires SmallSteps(dirX, dirY, planeX, planeY, MoveSpeed(ctrl.crouch, delta))
      modifies this`posX, this`posY, this`posZ, this`jumpPhase, this`ctrl,
               this`dirX, this`dirY, this`planeX, this`planeY, this`pitch
      ensures Valid() && Standing()
      ensures (posX, posY) == old(Walk(level.data[..], level.width, level.height, posX, posY,
                                       dirX, dirY, planeX, planeY, MoveSpeed(ctrl.crouch, delta), Heading(ctrl, root2)))
      ensures var j := old(JumpStep(posZ, jumpPhase, ctrl.jump, cosPhase));
        jumpPhase == j.1 && ctrl == old(ctrl).(jump := j.2, mouseMx := false, mouseMy := false) &&
        posZ == old(Settle(j.0, ctrl.crouch, MoveSpeed(ctrl.crouch, delta)))
      ensures (dirX, dirY, planeX, planeY) ==
        old(if ctrl.mouseMx then Turn(ctrl.mouseDx, dirX, dirY, planeX, planeY, c, s) else (dirX, dirY, planeX, planeY))
      ensures pitch == old(if ctrl.mouseMy then Look(ctrl.mouseDy, pitch, delta) else pitch)
    {
      ghost var turned := if ctrl.mouseMx then Turn(ctrl.mouseDx, dirX, dirY, planeX, planeY, c, s)
                          else (dirX, dirY, planeX, planeY);
      UpdateMovement(delta, root2, cosPhase);
      ghost var walked := (posX, posY);
      assert ctrl.mouseMx == old(ctrl).mouseMx && ctrl.mouseDx == old(ctrl).mouseDx;
      assert ctrl.mouseMy == old(ctrl).mouseMy && ctrl.mouseDy == old(ctrl).mouseDy;
      assert turned == if ctrl.mouseMx then Turn(ctrl.mouseDx, dirX, dirY, planeX, planeY, c, s)
                       else (dirX, dirY, planeX, planeY);
      UpdateCamera(delta, c, s);
      assert (posX, posY) == walked;
    }

    /** The clearing loop of `_render_buffer`: every pixel of the frame
        buffer, column by column, becomes 0. */
    method ClearFrame()
      requires Valid() && buffer != null
      modifies buffer
      ensures forall i :: 0 <= i < buffer.Length ==> buffer[i] == 0
    {
      var x := 0;
      while x < winW
        invariant 0 <= x <= winW
        invariant forall cx, cy :: 0 <= cx < x && 0 <= cy < winH ==> buffer[Pixel(winW, winH, cx, cy)] == 0
      {
        var y := 0;
        while y < winH
          invariant 0 <= y <= winH
          invariant forall cx, cy :: 0 <= cx < x && 0 <= cy < winH ==> buffer[Pixel(winW, winH, cx, cy)] == 0
          invariant forall cy :: 0 <= cy < y ==> buffer[Pixel(winW, winH, x, cy)] == 0
        {
          buffer[Pixel(winW, winH, x, y)] := 0;
          y := y + 1;
        }
        x := x + 1;
      }
      forall i | 0 <= i < buffer.Length
        ensures buffer[i] == 0
      {
        PixelOnto(winW, winH, i);
      }
    }

    /** `Raycast_Render` without the overlays. With a frame buffer: the
        floor and ceiling pass, the textured walls when there are wall
        textures, then the buffer is presented as `frame` and cleared.
        Without one: the coloured wall segments, one per column. */
    method Render() returns (frame: seq<bv32>, lines: seq<Option<Segment>>)
      requires Valid() && Standing()
      requires wallTex.Some? ==> CodesHaveTextures(level.data[..], wallTex.value.length)
      modifies buffer
      ensures Valid() && level.data[..] == old(level.data[..])
      ensures Standing() && Inside(level.width, level.height, Pose())
      ensures buffer == null ==> frame == [] && |lines| == winW
      ensures buffer == null ==> forall x :: 0 <= x < winW ==>
        lines[x] == ColoredColumn(level.data[..], level.width, level.height, level.wallColors, Pose(), x)
      ensures buffer != null ==> lines == [] && |frame| == buffer.Length
      ensures buffer != null ==> forall x, y :: 0 <= x < winW && 0 <= y < winH ==>
        frame[Pixel(winW, winH, x, y)] ==
          FramePixel(level.data[..], level.width, level.height, Pose(), floorTex, ceilingTex, wallTex,
                     x, y, old(buffer[Pixel(winW, winH, x, y)]))
      ensures buffer != null ==> forall i :: 0 <= i < buffer.Length ==> buffer[i] == 0
    {
      ghost var g := level.data[..];
      PassableInterior(g, level.width, level.height, posX, posY);
      assert MapOk(g, level.width, level.height);
      var v := Pose();
      if buffer != null {
        ghost var b0 := buffer[..];
        CastFloorCeiling(v, floorTex, ceilingTex, buffer);
        if wallTex.Some? {
          ghost var b1 := buffer[..];
          CastTexturedWalls(level.data, level.width, level.height, wallTex.value, v, buffer);
          forall x, y | 0 <= x < winW && 0 <= y < winH
            ensures buffer[Pixel(winW, winH, x, y)] ==
              FramePixel(g, level.width, level.height, v, floorTex, ceilingTex, wallTex, x, y, b0[Pixel(winW, winH, x, y)])
          {
            assert b1[Pixel(winW, winH, x, y)] ==
              FloorCeilingPixel(v, floorTex, ceilingTex, x, y, b0[Pixel(winW, winH, x, y)]);
          }
        }
        frame := buffer[..];
        lines := [];
        ClearFrame();
      } else {
        lines := CastColoredWalls(level.data, level.width, level.height, level.wallColors, v);
        frame := [];
      }
    }
  }

  /** A pixel of a frame of the textured mode: the floor and ceiling pass
      over the pixel `before` it held, then the wall pass when there are
      wall textures. */
  function FramePixel(g: seq<int>, w: int, h: int, v: View,
                      floorTex: Option<Texture>, ceilingTex: Option<Texture>, wallTex: Option<TexGroup>,
                      x: int, y: int, before: bv32): bv32
    requires MapOk(g, w, h) && Inside(w, h, v) && ViewOk(v) && 0 <= x < v.winW
    requires TexOk(floorTex) && TexOk(ceilingTex)
    requires wallTex.Some? ==> GroupOk(wallTex.value) && CodesHaveTextures(g, wallTex.value.length)
  {
    var b := FloorCeilingPixel(v, floorTex, ceilingTex, x, y, before);
    if wallTex.Some? then WallPixel(g, w, h, wallTex.value, v, x, y, b) else b
  }

  /** Where `Raycast_LoadMap` leaves the player of a map `g` asked to go to
      (px, py) from the position (fromX, fromY): at (nx, ny). */
  ghost predicate Spawned(g: seq<int>, w: int, h: int, px: int, py: int, fromX: real, fromY: real, nx: real, ny: real) {
    if 0 < px <= w && 0 < py <= h then nx == px as real + 0.5 && ny == py as real + 0.5
    else if NoneFree(g, w, h) then nx == fromX && ny == fromY
    else FirstFree(g, w, h, Trunc(nx), Trunc(ny)) &&
         nx == Trunc(nx) as real + 0.5 && ny == Trunc(ny) as real + 0.5
  }
}
