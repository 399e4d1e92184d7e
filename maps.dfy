// The Map object of map.c: its size, its wall palette and the byte grid
// behind `data`, created by Map_Create and carved by Map_RandGen.
//
// `rand()` is a parameter: a finite sequence of the values it returns, read
// from the front. Map_Create reads one value per ring pass, then the walk of
// Map_RandGen reads on from there.

module Maps {
  import opened CArith
  import opened Colors
  import opened Grids
  import opened Walks
  import opened Options

  const MapFill: bv8 := 0x01
  const MapRandWall: bv8 := 0x02

  /** The floor colour Map_Render uses for cells without a palette entry. */
  const FloorGrey: RGB := RGB(63, 63, 63)

  /** The three branches of Map_Create. */
  datatype Fill = RingFill | Solid | Bordered

  /** The branch Map_Create takes for `flags`. The second test repeats a bit
      the first one already caught, so the all-ones branch is never taken. */
  function FillOf(flags: bv8): (f: Fill)
    ensures f != Solid
    ensures f == RingFill <==> (flags & MapFill != 0 || flags & MapRandWall != 0)
    ensures f == Bordered <==> flags & 0x03 == 0
  {
    if flags & (MapFill | MapRandWall) != 0 then RingFill
    else if flags & MapFill != 0 then Solid
    else Bordered
  }

  /** What Map_Create needs of its arguments: `uint16_t` sizes whose buffer
      size `(width+1)*(height+1)` does not overflow an `int`, a `uint8_t`
      wall count, and for the ring fill a non-zero `wall_num` (it is a
      divisor), rings that fit a map of that height and one `rand()` value
      per ring. */
  predicate CreateOk(w: int, h: int, wallNum: int, flags: bv8, rand: seq<nat>) {
    0 <= w < 0x1_0000 && 0 <= h < 0x1_0000 && Size(w, h) < 0x8000_0000 &&
    0 <= wallNum <= 255 &&
    (FillOf(flags) == RingFill ==> RingFillFits(w, h) && 1 <= wallNum && RingCount(w) <= |rand|)
  }

  /** The buffer Map_Create leaves behind. */
  function Created(w: int, h: int, wallNum: int, flags: bv8, rand: seq<nat>): (c: seq<int>)
    requires CreateOk(w, h, wallNum, flags, rand)
    ensures |c| == Size(w, h)
    ensures forall i :: 0 <= i < |c| ==> 0 <= c[i] <= (if FillOf(flags) == RingFill then wallNum else 1)
  {
    var z := Zeros(Size(w, h));
    if FillOf(flags) == RingFill then
      RingsValues(z, w, h, wallNum, rand, 0, RingCount(w));
      Rings(z, w, h, wallNum, rand, 0, RingCount(w))
    else
      RingCountFits(1, 1, 0);
      assert forall i :: 0 <= i < |z| ==> 0 <= PaintRing(z, w, h, 0, 1)[i] <= 1 by {
        forall i | 0 <= i < |z|
          ensures 0 <= PaintRing(z, w, h, 0, 1)[i] <= 1
        {
          PaintRingOnlyWall(z, w, h, 0, 1, i);
        }
      }
      PaintRing(z, w, h, 0, 1)
  }

  /** Every map Map_Create makes has walls all around, except a ring-filled
      map of width 0, where the ring loop makes no pass. */
  lemma CreatedSealed(w: int, h: int, wallNum: int, flags: bv8, rand: seq<nat>)
    requires CreateOk(w, h, wallNum, flags, rand)
    requires FillOf(flags) == Bordered || w >= 1
    ensures Sealed(Created(w, h, wallNum, flags, rand), w, h)
  {
    var z := Zeros(Size(w, h));
    if FillOf(flags) == RingFill {
      RingsSealed(z, w, h, wallNum, rand, 0);
    } else {
      var c := PaintRing(z, w, h, 0, 1);
      forall x, y | 0 <= x <= w && 0 <= y <= h && IsBorder(w, h, x, y)
        ensures 0 <= Idx(h, x, y) < |c| && c[Idx(h, x, y)] != 0
      {
        PaintRingZeroBorder(z, w, h, 1, x, y);
      }
    }
  }

  /** Without MAP_FILL and MAP_RANDWALL the map is an empty room: 1 on the
      border, 0 inside. */
  lemma CreatedRoom(w: int, h: int, wallNum: int, flags: bv8, rand: seq<nat>)
    requires CreateOk(w, h, wallNum, flags, rand) && flags & 0x03 == 0
    ensures forall x, y :: InGrid(w, h, x, y) ==>
      0 <= Idx(h, x, y) < Size(w, h) &&
      Created(w, h, wallNum, flags, rand)[Idx(h, x, y)] == (if IsBorder(w, h, x, y) then 1 else 0)
  {
    BorderedCells(w, h);
  }

  /** `data[x][line] = wall; data[x][height-line] = wall` for x in [lo, hi). */
  method FillRows(a: array<int>, h: int, line: int, lo: int, hi: int, wall: int)
    requires RowsFit(a.Length, h, line, lo, hi)
    modifies a
    ensures a[..] == PaintRows(old(a[..]), h, line, lo, hi, wall)
  {
    ghost var c := a[..];
    var x := lo;
    while x < hi
      invariant lo <= x && (x <= hi || x == lo)
      invariant RowsFit(a.Length, h, line, lo, x)
      invariant a[..] == PaintRows(c, h, line, lo, x, wall)
    {
      RowsFitPrefix(a.Length, h, line, lo, hi, x + 1);
      PaintRowsLast(c, h, line, lo, x + 1, wall);
      a[Idx(h, x, line)] := wall;
      a[Idx(h, x, h - line)] := wall;
      x := x + 1;
    }
  }

  /** `data[line][y] = wall; data[width-line][y] = wall` for y in [lo, hi). */
  method FillCols(a: array<int>, w: int, h: int, line: int, lo: int, hi: int, wall: int)
    requires ColsFit(a.Length, w, h, line, lo, hi)
    modifies a
    ensures a[..] == PaintCols(old(a[..]), w, h, line, lo, hi, wall)
  {
    ghost var c := a[..];
    var y := lo;
    while y < hi
      invariant lo <= y && (y <= hi || y == lo)
      invariant ColsFit(a.Length, w, h, line, lo, y)
      invariant a[..] == PaintCols(c, w, h, line, lo, y, wall)
    {
      ColsFitPrefix(a.Length, w, h, line, lo, hi, y + 1);
      PaintColsLast(c, w, h, line, lo, y + 1, wall);
      a[Idx(h, line, y)] := wall;
      a[Idx(h, w - line, y)] := wall;
      y := y + 1;
    }
  }

  lemma RingsStep(c: seq<int>, w: int, h: int, wallNum: int, rand: seq<nat>, line: int)
    requires RingFillFits(w, h) && 1 <= wallNum && 0 <= line < RingCount(w) && RingCount(w) <= |rand|
    requires |c| == Size(w, h)
    ensures RingFits(w, h, line)
    ensures Rings(c, w, h, wallNum, rand, 0, line + 1)
         == PaintRing(Rings(c, w, h, wallNum, rand, 0, line), w, h, line, RingWall(rand, 0, line, wallNum))
  {
    RingCountFits(w, h, line);
  }

  /** The two `for` loops of one pass of the ring loop. */
  method FillRing(values: array<int>, w: int, h: int, line: int,
                  wStart: int, wEnd: int, hStart: int, hEnd: int, wall: int)
    requires RingFits(w, h, line) && values.Length == Size(w, h)
    requires wStart == line && wEnd == w - line && hStart == line + 1 && hEnd == h - 1 - line
    modifies values
    ensures values[..] == PaintRing(old(values[..]), w, h, line, wall)
  {
    RowsInBounds(w, h, line);
    ColsInBounds(w, h, line);
    FillRows(values, h, line, wStart, wEnd + 1, wall);
    FillCols(values, w, h, line, hStart, hEnd + 1, wall);
  }

  /** The `calloc` and the fill loops of Map_Create. */
  method CreateCells(w: int, h: int, wallNum: int, flags: bv8, rand: seq<nat>) returns (values: array<int>)
    requires CreateOk(w, h, wallNum, flags, rand)
    ensures fresh(values) && values[..] == Created(w, h, wallNum, flags, rand)
  {
    values := new int[Size(w, h)](_ => 0);
    assert values[..] == Zeros(Size(w, h));
    var fill := FillOf(flags);
    if fill == RingFill {
      FillRings(values, w, h, wallNum, rand);
    } else if fill == Solid {
      assert false;
    } else {
      RowsInBounds(w, h, 0);
      ColsInBounds(w, h, 0);
      FillRows(values, h, 0, 0, w + 1, 1);
      FillCols(values, w, h, 0, 1, h, 1);
    }
  }

  /** The ring loop of Map_Create: pass `line` paints ring `line` with the
      code `rand() % wall_num + 1`, until `w_end` reaches `width / 2`. */
  method FillRings(values: array<int>, w: int, h: int, wallNum: int, rand: seq<nat>)
    requires RingFillFits(w, h) && 1 <= wallNum && RingCount(w) <= |rand|
    requires values.Length == Size(w, h)
    modifies values
    ensures values[..] == Rings(old(values[..]), w, h, wallNum, rand, 0, RingCount(w))
  {
    ghost var c := values[..];
    var wStart, wEnd := 0, w;
    var hStart, hEnd := 1, h - 1;
    var line := 0;
    while wEnd != w / 2
      invariant 0 <= line <= RingCount(w)
      invariant wStart == line && wEnd == w - line && hStart == line + 1 && hEnd == h - 1 - line
      invariant values[..] == Rings(c, w, h, wallNum, rand, 0, line)
      decreases wEnd - w / 2
    {
      var wall := rand[line] % wallNum + 1;
      RingsStep(c, w, h, wallNum, rand, line);
      FillRing(values, w, h, line, wStart, wEnd, hStart, hEnd, wall);
      wStart, wEnd := wStart + 1, wEnd - 1;
      hStart, hEnd := hStart + 1, hEnd - 1;
      line := line + 1;
    }
  }

  /** The palette loop shared by Map_Render and the colour-mode wall caster:
      the entry `code - 1` when the code is in [1, wall_num], nothing
      otherwise. */
  method FindColor(colors: seq<RGB>, code: int) returns (r: Option<RGB>)
    ensures r == (if 1 <= code <= |colors| then Some(colors[code - 1]) else None)
  {
    var i := 0;
    while i < |colors|
      invariant 0 <= i <= |colors|
      invariant !(1 <= code <= i)
    {
      if code == i + 1 {
        return Some(colors[i]);
      }
      i := i + 1;
    }
    return None;
  }

  class Map {
    const width: int
    const height: int
    const wallNum: int
    const wallColors: seq<RGB>
    const data: array<int>

    /** `uint16_t` sizes, a buffer of `(width+1)*(height+1)` `uint8_t`
        cells and one palette entry per wall code. */
    ghost predicate Valid()
      reads this, data
    {
      0 <= width < 0x1_0000 && 0 <= height < 0x1_0000 &&
      0 <= wallNum <= 255 && |wallColors| == wallNum &&
      data.Length == Size(width, height) &&
      forall i :: 0 <= i < data.Length ==> 0 <= data[i] <= 255
    }

    /** Map_Create: records the sizes, copies `wall_num` palette entries and
        fills a zeroed buffer according to `flags`. */
    constructor Create(w: int, h: int, wallNum: int, wallColors: seq<RGB>, flags: bv8, rand: seq<nat>)
      requires CreateOk(w, h, wallNum, flags, rand) && wallNum <= |wallColors|
      ensures Valid() && fresh(data)
      ensures width == w && height == h && this.wallNum == wallNum
      ensures this.wallColors == wallColors[..wallNum]
      ensures data[..] == Created(w, h, wallNum, flags, rand)
    {
      var values := CreateCells(w, h, wallNum, flags, rand);
      width := w;
      height := h;
      this.wallNum := wallNum;
      this.wallColors := wallColors[..wallNum];
      data := values;
    }

    /** The colour Map_Render fills the tile of cell (x, y) with. */
    method TileColor(x: int, y: int) returns (c: RGB)
      requires Valid() && InGrid(width, height, x, y)
      ensures 0 <= Idx(height, x, y) < data.Length
      ensures var code := data[Idx(height, x, y)];
        c == (if 1 <= code <= wallNum then wallColors[code - 1] else FloorGrey)
    {
      IdxInBounds(width, height, x, y);
      c := FloorGrey;
      var entry := FindColor(wallColors, data[Idx(height, x, y)]);
      if entry.Some? {
        c := entry.value;
      }
    }

    /** The walk loop of Map_RandGen on this map, which must be the map of
        width `width - 1` and height `height - 1` that Map_RandGen created;
        the first `rand()` value it reads is rand[k0]. `done` is false when
        the values ran out before the cell (width-1, height-1) was cleared. */
    method Carve(south: int, rand: seq<nat>, k0: nat) returns (done: bool)
      requires Valid() && WalkOk(data[..], width - 1, height - 1, south) && k0 <= |rand|
      modifies data
      ensures Valid()
      ensures var r := Walk(old(data[..]), width - 1, height - 1, south, rand, 1, 1, k0, {});
        data[..] == r.cells && done == r.done
    {
      var wd, ht := width - 1, height - 1;
      ghost var g0 := data[..];
      ghost var r := Walk(g0, wd, ht, south, rand, 1, 1, k0, {});
      ghost var vis: set<(int, int)> := {};
      TargetInBounds(wd, ht);
      var target := Idx(height, wd, ht);
      var posX, posY := 1, 1;
      var prevX, prevY := posX, posY;
      var k := k0;
      var outOfDraws := false;
      while data[target] != 0 && !outOfDraws
        invariant WalkOk(data[..], wd, ht, south) && data.Length == |g0|
        invariant InRange(wd, south, posX, posY) && k <= |rand|
        invariant !outOfDraws ==>
          (posX, posY) == (prevX, prevY) && r == Walk(data[..], wd, ht, south, rand, posX, posY, k, vis)
        invariant outOfDraws ==> r == Carved(data[..], posX, posY, k, vis, false)
        decreases |rand| - k, if outOfDraws then 0 else 1
      {
        if k == |rand| {
          outOfDraws := true;
        } else {
          CursorInBounds(wd, ht, south, posX, posY);
          data[Idx(height, posX, posY)] := 0;
          vis := vis + {(posX, posY)};
          var p := Move(wd, south, posX, posY, rand[k] % 4);
          posX, posY := p.0, p.1;
          k := k + 1;
          while posX == prevX && posY == prevY && k < |rand|
            invariant 1 <= k <= |rand| && InRange(wd, south, prevX, prevY)
            invariant (posX, posY) == Move(wd, south, prevX, prevY, rand[k - 1] % 4)
            invariant r == Roll(data[..], wd, ht, south, rand, prevX, prevY, k - 1, vis)
            decreases |rand| - k
          {
            p := Move(wd, south, posX, posY, rand[k] % 4);
            posX, posY := p.0, p.1;
            k := k + 1;
          }
          if posX == prevX && posY == prevY {
            outOfDraws := true;
          }
          prevX, prevY := posX, posY;
        }
      }
      done := !outOfDraws;
      assert Offsets(ht, {}) == {};
      WalkClears(g0, g0, wd, ht, south, rand, 1, 1, k0, {});
    }
  }

  /** What Map_RandGen needs: a map one cell larger than the walk area in
      each direction whose sizes still fit `uint16_t`, a walk area at least
      one cell wide and one cell high, a palette and the ring fill's
      `rand()` values. With width 0 no direction is ever accepted; with
      height 0 the index stride is 1, so a target cell can alias the cursor
      cell, and that case is not modelled. */
  predicate RandGenOk(width: int, height: int, wallNum: int, wallColors: seq<RGB>, rand: seq<nat>) {
    1 <= width < 0xFFFF && 1 <= height < 0xFFFF && Size(width + 1, height + 1) < 0x8000_0000 &&
    1 <= wallNum <= 255 && wallNum <= |wallColors| && RingCount(width + 1) <= |rand|
  }

  lemma RandGenCreateOk(width: int, height: int, wallNum: int, wallColors: seq<RGB>, rand: seq<nat>)
    requires RandGenOk(width, height, wallNum, wallColors, rand)
    ensures CreateOk(width + 1, height + 1, wallNum, MapFill | MapRandWall, rand)
    ensures Created(width + 1, height + 1, wallNum, MapFill | MapRandWall, rand)
         == Rings(Zeros(Size(width + 1, height + 1)), width + 1, height + 1, wallNum, rand, 0, RingCount(width + 1))
  {
  }

  /** Map_RandGen as written: the ring-filled map, then the walk with the
      south bound `width` of map.c line 247. The map is walled all around
      when width == height, which is how main.c calls it. */
  method RandGen(width: int, height: int, wallNum: int, wallColors: seq<RGB>, rand: seq<nat>)
      returns (m: Map, done: bool)
    requires RandGenOk(width, height, wallNum, wallColors, rand)
    ensures fresh(m) && fresh(m.data) && m.Valid()
    ensures m.width == width + 1 && m.height == height + 1 && m.wallNum == wallNum
    ensures m.wallColors == wallColors[..wallNum]
    ensures var r := Walk(Created(width + 1, height + 1, wallNum, MapFill | MapRandWall, rand),
                          width, height, width, rand, 1, 1, RingCount(width + 1), {});
      m.data[..] == r.cells && done == r.done
    ensures done ==> 0 <= Target(width, height) < m.data.Length && m.data[Target(width, height)] == 0
    ensures width == height ==> Sealed(m.data[..], width + 1, height + 1)
  {
    RandGenCreateOk(width, height, wallNum, wallColors, rand);
    m := new Map.Create(width + 1, height + 1, wallNum, wallColors, MapFill | MapRandWall, rand);
    ghost var g := m.data[..];
    done := m.Carve(width, rand, RingCount(width + 1));
    WalkDone(g, width, height, width, rand, 1, 1, RingCount(width + 1), {});
    if width == height {
      IntendedKeepsBorder(width, height, wallNum, rand);
    }
  }

  /** Map_RandGen with the evidently intended south bound `height`: the
      border survives the walk for every size. */
  method RandGenIntended(width: int, height: int, wallNum: int, wallColors: seq<RGB>, rand: seq<nat>)
      returns (m: Map, done: bool)
    requires RandGenOk(width, height, wallNum, wallColors, rand)
    ensures fresh(m) && fresh(m.data) && m.Valid()
    ensures m.width == width + 1 && m.height == height + 1 && m.wallNum == wallNum
    ensures m.wallColors == wallColors[..wallNum]
    ensures var r := Walk(Created(width + 1, height + 1, wallNum, MapFill | MapRandWall, rand),
                          width, height, height, rand, 1, 1, RingCount(width + 1), {});
      m.data[..] == r.cells && done == r.done
    ensures done ==> 0 <= Target(width, height) < m.data.Length && m.data[Target(width, height)] == 0
    ensures Sealed(m.data[..], width + 1, height + 1)
  {
    RandGenCreateOk(width, height, wallNum, wallColors, rand);
    m := new Map.Create(width + 1, height + 1, wallNum, wallColors, MapFill | MapRandWall, rand);
    ghost var g := m.data[..];
    done := m.Carve(height, rand, RingCount(width + 1));
    WalkDone(g, width, height, height, rand, 1, 1, RingCount(width + 1), {});
    IntendedKeepsBorder(width, height, wallNum, rand);
  }
}
