// The drunkard's walk of Map_RandGen as a function of the values `rand()`
// returns.
//
// Map_RandGen(width, height) builds a map of width width+1 and height
// height+1 (column stride height+1), puts a cursor on (1, 1) and, while
// the cell (width, height) still holds a wall, clears the cell under the
// cursor and draws directions `rand() % 4` until one of them moves the
// cursor. The moves are bounded to x in [1, width] and y in [1, south];
// the source uses south = width (map.c line 247), the evidently intended
// bound is south = height.
//
// The walk ends only with probability one, so the `rand()` values are a
// finite sequence: a result with `done == false` means the sequence ran
// out before the target cell was cleared.

module Walks {
  import opened CArith
  import opened Grids

  /** Buffer offset of the cell whose clearing ends the walk. */
  function Target(width: int, height: int): int {
    Idx(height + 1, width, height)
  }

  /** A cursor position the walk can hold: x in [1, width], y in [1, south]. */
  predicate InRange(width: int, south: int, x: int, y: int) {
    1 <= x <= width && 1 <= y <= south
  }

  /** The walk can be run: sizes of Map_RandGen, a south bound that is one
      of the two candidates, the buffer of the map it created. */
  predicate WalkOk(g: seq<int>, width: int, height: int, south: int) {
    1 <= width && 1 <= height && (south == width || south == height) &&
    |g| == Size(width + 1, height + 1)
  }

  /** One case of the direction switch: 0 West, 1 East, 2 North, 3 South.
      A move that would leave the range leaves the cursor where it is. */
  function Move(width: int, south: int, x: int, y: int, dir: int): (p: (int, int))
    requires InRange(width, south, x, y)
    ensures InRange(width, south, p.0, p.1)
  {
    if dir == 0 then (if x - 1 > 0 then (x - 1, y) else (x, y))
    else if dir == 1 then (if x + 1 <= width then (x + 1, y) else (x, y))
    else if dir == 2 then (if y - 1 > 0 then (x, y - 1) else (x, y))
    else if dir == 3 then (if y + 1 <= south then (x, y + 1) else (x, y))
    else (x, y)
  }

  /** Every cursor cell is inside the buffer, whichever bound is used. */
  lemma CursorInBounds(width: int, height: int, south: int, x: int, y: int)
    requires 1 <= width && 1 <= height && (south == width || south == height)
    requires InRange(width, south, x, y)
    ensures 0 <= Idx(height + 1, x, y) < Size(width + 1, height + 1)
  {
    var h := height + 1;
    MulIsTimes(x, h);
    MulLeft(0, x, h);
    MulLeft(x, width, h);
    SizeExpand(width + 1, h);
    MulSucc(width, h);
  }

  lemma TargetInBounds(width: int, height: int)
    requires 1 <= width && 1 <= height
    ensures 0 <= Target(width, height) < Size(width + 1, height + 1)
  {
    IdxInBounds(width + 1, height + 1, width, height);
  }

  /** Result of running the walk: the buffer, the cursor, how many `rand()`
      values were used, the cells the cursor cleared, and whether the
      target was found clear (as opposed to the values running out). */
  datatype Carved = Carved(cells: seq<int>, x: int, y: int, k: nat,
                           visited: set<(int, int)>, done: bool)

  /** The outer `while` of Map_RandGen from cursor (x, y), next value rand[k]. */
  function Walk(g: seq<int>, width: int, height: int, south: int, rand: seq<nat>,
                x: int, y: int, k: nat, vis: set<(int, int)>): (r: Carved)
    requires WalkOk(g, width, height, south) && InRange(width, south, x, y) && k <= |rand|
    ensures |r.cells| == |g| && InRange(width, south, r.x, r.y)
    decreases |rand| - k, 1
  {
    TargetInBounds(width, height);
    CursorInBounds(width, height, south, x, y);
    if g[Target(width, height)] == 0 then Carved(g, x, y, k, vis, true)
    else if k == |rand| then Carved(g, x, y, k, vis, false)
    else Roll(g[Idx(height + 1, x, y) := 0], width, height, south, rand, x, y, k, vis + {(x, y)})
  }

  /** The `do { ... } while` that draws until the cursor moves. */
  function Roll(g: seq<int>, width: int, height: int, south: int, rand: seq<nat>,
                x: int, y: int, k: nat, vis: set<(int, int)>): (r: Carved)
    requires WalkOk(g, width, height, south) && InRange(width, south, x, y) && k < |rand|
    ensures |r.cells| == |g| && InRange(width, south, r.x, r.y)
    decreases |rand| - k, 0
  {
    var p := Move(width, south, x, y, rand[k] % 4);
    if p != (x, y) then Walk(g, width, height, south, rand, p.0, p.1, k + 1, vis)
    else if k + 1 == |rand| then Carved(g, x, y, k + 1, vis, false)
    else Roll(g, width, height, south, rand, x, y, k + 1, vis)
  }

  /** Offsets of a set of cursor positions. */
  function Offsets(height: int, vis: set<(int, int)>): set<int> {
    set p | p in vis :: Idx(height + 1, p.0, p.1)
  }

  /** `c` is `g` with exactly the cells of `vis` cleared. */
  predicate ClearedExactly(g: seq<int>, c: seq<int>, height: int, vis: set<(int, int)>) {
    |c| == |g| &&
    forall i :: 0 <= i < |g| ==> c[i] == (if i in Offsets(height, vis) then 0 else g[i])
  }

  predicate AllInRange(width: int, south: int, vis: set<(int, int)>) {
    forall p :: p in vis ==> InRange(width, south, p.0, p.1)
  }

  // ---------------------------------------------------------------------
  // Properties of the walk

  /** Each move changes exactly one coordinate by exactly one, or none. */
  lemma MoveIsUnitStep(width: int, south: int, x: int, y: int, dir: int)
    requires InRange(width, south, x, y)
    ensures var p := Move(width, south, x, y, dir);
      p == (x, y) ||
      (p.1 == y && (p.0 == x + 1 || p.0 == x - 1)) ||
      (p.0 == x && (p.1 == y + 1 || p.1 == y - 1))
  {
  }

  lemma ClearOneMore(g: seq<int>, c: seq<int>, height: int, vis: set<(int, int)>, x: int, y: int)
    requires ClearedExactly(g, c, height, vis) && 0 <= Idx(height + 1, x, y) < |c|
    ensures ClearedExactly(g, c[Idx(height + 1, x, y) := 0], height, vis + {(x, y)})
  {
    var c' := c[Idx(height + 1, x, y) := 0];
    assert Offsets(height, vis + {(x, y)}) == Offsets(height, vis) + {Idx(height + 1, x, y)};
    forall i | 0 <= i < |g|
      ensures c'[i] == (if i in Offsets(height, vis + {(x, y)}) then 0 else g[i])
    {
    }
  }

  /** The walk clears exactly the cells the cursor stood on, all of them in
      range, and leaves every other byte as it was. */
  lemma {:induction false} WalkClears(g0: seq<int>, g: seq<int>, width: int, height: int, south: int,
                                      rand: seq<nat>, x: int, y: int, k: nat, vis: set<(int, int)>)
    requires WalkOk(g, width, height, south) && InRange(width, south, x, y) && k <= |rand|
    requires ClearedExactly(g0, g, height, vis) && AllInRange(width, south, vis)
    ensures var r := Walk(g, width, height, south, rand, x, y, k, vis);
      ClearedExactly(g0, r.cells, height, r.visited) && AllInRange(width, south, r.visited)
    decreases |rand| - k, 1
  {
    TargetInBounds(width, height);
    CursorInBounds(width, height, south, x, y);
    if g[Target(width, height)] != 0 && k < |rand| {
      ClearOneMore(g0, g, height, vis, x, y);
      RollClears(g0, g[Idx(height + 1, x, y) := 0], width, height, south, rand, x, y, k, vis + {(x, y)});
    }
  }

  lemma {:induction false} RollClears(g0: seq<int>, g: seq<int>, width: int, height: int, south: int,
                                      rand: seq<nat>, x: int, y: int, k: nat, vis: set<(int, int)>)
    requires WalkOk(g, width, height, south) && InRange(width, south, x, y) && k < |rand|
    requires ClearedExactly(g0, g, height, vis) && AllInRange(width, south, vis)
    ensures var r := Roll(g, width, height, south, rand, x, y, k, vis);
      ClearedExactly(g0, r.cells, height, r.visited) && AllInRange(width, south, r.visited)
    decreases |rand| - k, 0
  {
    var p := Move(width, south, x, y, rand[k] % 4);
    if p != (x, y) {
      WalkClears(g0, g, width, height, south, rand, p.0, p.1, k + 1, vis);
    } else if k + 1 < |rand| {
      RollClears(g0, g, width, height, south, rand, x, y, k + 1, vis);
    }
  }

  /** A finished walk has cleared the target cell. */
  lemma {:induction false} WalkDone(g: seq<int>, width: int, height: int, south: int,
                                    rand: seq<nat>, x: int, y: int, k: nat, vis: set<(int, int)>)
    requires WalkOk(g, width, height, south) && InRange(width, south, x, y) && k <= |rand|
    ensures var r := Walk(g, width, height, south, rand, x, y, k, vis);
      r.done ==> 0 <= Target(width, height) < |r.cells| && r.cells[Target(width, height)] == 0
    decreases |rand| - k, 1
  {
    TargetInBounds(width, height);
    CursorInBounds(width, height, south, x, y);
    if g[Target(width, height)] != 0 && k < |rand| {
      RollDone(g[Idx(height + 1, x, y) := 0], width, height, south, rand, x, y, k, vis + {(x, y)});
    }
  }

  lemma {:induction false} RollDone(g: seq<int>, width: int, height: int, south: int,
                                    rand: seq<nat>, x: int, y: int, k: nat, vis: set<(int, int)>)
    requires WalkOk(g, width, height, south) && InRange(width, south, x, y) && k < |rand|
    ensures var r := Roll(g, width, height, south, rand, x, y, k, vis);
      r.done ==> 0 <= Target(width, height) < |r.cells| && r.cells[Target(width, height)] == 0
    decreases |rand| - k, 0
  {
    var p := Move(width, south, x, y, rand[k] % 4);
    if p != (x, y) {
      WalkDone(g, width, height, south, rand, p.0, p.1, k + 1, vis);
    } else if k + 1 < |rand| {
      RollDone(g, width, height, south, rand, x, y, k + 1, vis);
    }
  }

  /** One outer iteration whose first draw moves the cursor. */
  lemma WalkFirstDrawMoves(g: seq<int>, width: int, height: int, south: int, rand: seq<nat>,
                           x: int, y: int, k: nat, vis: set<(int, int)>, nx: int, ny: int)
    requires WalkOk(g, width, height, south) && InRange(width, south, x, y) && k < |rand|
    requires 0 <= Target(width, height) < |g| && g[Target(width, height)] != 0
    requires Move(width, south, x, y, rand[k] % 4) == (nx, ny) && (nx, ny) != (x, y)
    requires 0 <= Idx(height + 1, x, y) < |g|
    ensures Walk(g, width, height, south, rand, x, y, k, vis)
         == Walk(g[Idx(height + 1, x, y) := 0], width, height, south, rand, nx, ny, k + 1, vis + {(x, y)})
  {
  }

  // ---------------------------------------------------------------------
  // The border and the target

  /** A cursor cell with y <= height is an interior cell of the created
      map, so its offset is not the offset of any border cell. */
  lemma CursorNotBorder(width: int, height: int, x: int, y: int, cx: int, cy: int)
    requires 1 <= width && 1 <= height && InRange(width, height, x, y)
    requires InGrid(width + 1, height + 1, cx, cy) && IsBorder(width + 1, height + 1, cx, cy)
    ensures Idx(height + 1, x, y) != Idx(height + 1, cx, cy)
  {
    var h := height + 1;
    if cy < h {
      if Idx(h, x, y) == Idx(h, cx, cy) {
        IdxInjective(h, x, y, cx, cy);
      }
    } else {
      IdxAlias(h, cx);
      if Idx(h, x, y) == Idx(h, cx + 1, 0) {
        IdxInjective(h, x, y, cx + 1, 0);
      }
    }
  }

  /** With a south bound of at most `height` the walk leaves every border
      cell of the created map as it was, so a sealed map stays sealed. */
  lemma WalkKeepsBorder(g: seq<int>, width: int, height: int, south: int, rand: seq<nat>, k: nat)
    requires WalkOk(g, width, height, south) && south <= height && k <= |rand|
    requires Sealed(g, width + 1, height + 1)
    ensures Sealed(Walk(g, width, height, south, rand, 1, 1, k, {}).cells, width + 1, height + 1)
  {
    var r := Walk(g, width, height, south, rand, 1, 1, k, {});
    assert Offsets(height, {}) == {};
    WalkClears(g, g, width, height, south, rand, 1, 1, k, {});
    var w, h := width + 1, height + 1;
    forall cx, cy | 0 <= cx <= w && 0 <= cy <= h && IsBorder(w, h, cx, cy)
      ensures 0 <= Idx(h, cx, cy) < |r.cells| && r.cells[Idx(h, cx, cy)] != 0
    {
      var i := Idx(h, cx, cy);
      forall p | p in r.visited
        ensures Idx(height + 1, p.0, p.1) != i
      {
        CursorNotBorder(width, height, p.0, p.1, cx, cy);
      }
      assert i !in Offsets(height, r.visited);
    }
  }

  /** When width < height the bound of the source keeps the cursor off row
      `height`, so the target keeps its wall and the walk never finishes,
      however many values `rand()` supplies. */
  lemma WalkMissesTarget(g: seq<int>, width: int, height: int, rand: seq<nat>, k: nat)
    requires WalkOk(g, width, height, width) && width < height && k <= |rand|
    requires 0 <= Target(width, height) < |g| && g[Target(width, height)] != 0
    ensures var r := Walk(g, width, height, width, rand, 1, 1, k, {});
      !r.done && r.cells[Target(width, height)] != 0
  {
    TargetInBounds(width, height);
    var r := Walk(g, width, height, width, rand, 1, 1, k, {});
    var t := Target(width, height);
    assert Offsets(height, {}) == {};
    WalkClears(g, g, width, height, width, rand, 1, 1, k, {});
    WalkDone(g, width, height, width, rand, 1, 1, k, {});
    forall p | p in r.visited
      ensures Idx(height + 1, p.0, p.1) != t
    {
      if Idx(height + 1, p.0, p.1) == t {
        IdxInjective(height + 1, p.0, p.1, width, height);
      }
    }
    assert t !in Offsets(height, r.visited);
  }

  /** The ring fill of a map of width at least 3 puts a wall on the target:
      it is a cell of ring 1. */
  lemma TargetWalled(width: int, height: int, wallNum: int, rand: seq<nat>)
    requires 2 <= width && 1 <= height && wallNum >= 1 && RingCount(width + 1) <= |rand|
    ensures var g := Rings(Zeros(Size(width + 1, height + 1)), width + 1, height + 1, wallNum, rand, 0, RingCount(width + 1));
      0 <= Target(width, height) < |g| && g[Target(width, height)] != 0
  {
    var w, h := width + 1, height + 1;
    var z := Zeros(Size(w, h));
    TargetInBounds(width, height);
    RingCountFits(w, h, 1);
    var one := Rings(z, w, h, wallNum, rand, 0, 1);
    assert Rings(z, w, h, wallNum, rand, 0, 2) == PaintRing(one, w, h, 1, RingWall(rand, 0, 1, wallNum));
    PaintRingCoversRow(one, w, h, 1, RingWall(rand, 0, 1, wallNum), width);
    RingsKeepWalls(z, w, h, wallNum, rand, 0, 2, RingCount(w), Target(width, height));
  }

  /** `rand()` values that, after the two values of the ring fill, steer the
      cursor of Map_RandGen(2, 1) South, East, North, West: for instance
      0, 0, 3, 1, 2, 0. */
  predicate BreakingDraws(rand: seq<nat>) {
    |rand| >= 6 && rand[2] % 4 == 3 && rand[3] % 4 == 1 && rand[4] % 4 == 2 && rand[5] % 4 == 0
  }

  /** With the bound of the source (south = width) and width > height the
      cursor steps onto row height+1, which is the border: for
      Map_RandGen(2, 1) the walk finishes but has cleared the border cell
      that is both (1, 2) and (2, 0) of the 3-by-2 map. */
  lemma AsWrittenClearsBorder(wallNum: int, rand: seq<nat>)
    requires wallNum >= 1 && BreakingDraws(rand)
    ensures var g := Rings(Zeros(Size(3, 2)), 3, 2, wallNum, rand, 0, RingCount(3));
      var r := Walk(g, 2, 1, 2, rand, 1, 1, 2, {});
      Sealed(g, 3, 2) && r.done && !Sealed(r.cells, 3, 2)
  {
    var g := Rings(Zeros(Size(3, 2)), 3, 2, wallNum, rand, 0, RingCount(3));
    RingsSealed(Zeros(Size(3, 2)), 3, 2, wallNum, rand, 0);
    TargetWalled(2, 1, wallNum, rand);
    assert Size(3, 2) == 12 && Target(2, 1) == 5;
    WalkFromStart(g, rand);
    var r := Walk(g, 2, 1, 2, rand, 1, 1, 2, {});
    assert Idx(2, 2, 0) == 4 && IsBorder(3, 2, 2, 0);
    assert r.cells[Idx(2, 2, 0)] == 0;
  }

  // The four iterations of that walk, last one first. Cell offsets in the
  // 3-by-2 map: (1, 1) is 3, (1, 2) is 4, (2, 1) is 5, (2, 2) is 6.

  /** At (2, 1), the target itself: it is cleared and West ends the walk. */
  lemma WalkFromTarget(g: seq<int>, rand: seq<nat>, vis: set<(int, int)>)
    requires |g| == 12 && g[5] != 0 && BreakingDraws(rand)
    ensures var r := Walk(g, 2, 1, 2, rand, 2, 1, 5, vis);
      r.done && r.cells[4] == g[4]
  {
    assert Idx(2, 2, 1) == 5 && Target(2, 1) == 5 && Size(3, 2) == 12;
    WalkFirstDrawMoves(g, 2, 1, 2, rand, 2, 1, 5, vis, 1, 1);
  }

  /** At (2, 2): North. */
  lemma WalkFromCorner(g: seq<int>, rand: seq<nat>, vis: set<(int, int)>)
    requires |g| == 12 && g[5] != 0 && BreakingDraws(rand)
    ensures var r := Walk(g, 2, 1, 2, rand, 2, 2, 4, vis);
      r.done && r.cells[4] == g[4]
  {
    assert Idx(2, 2, 2) == 6 && Target(2, 1) == 5 && Size(3, 2) == 12;
    WalkFirstDrawMoves(g, 2, 1, 2, rand, 2, 2, 4, vis, 2, 1);
    WalkFromTarget(g[6 := 0], rand, vis + {(2, 2)});
  }

  /** At (1, 2), which is a border cell: it is cleared, then East. */
  lemma WalkFromBorder(g: seq<int>, rand: seq<nat>, vis: set<(int, int)>)
    requires |g| == 12 && g[5] != 0 && BreakingDraws(rand)
    ensures var r := Walk(g, 2, 1, 2, rand, 1, 2, 3, vis);
      r.done && r.cells[4] == 0
  {
    assert Idx(2, 1, 2) == 4 && Target(2, 1) == 5 && Size(3, 2) == 12;
    WalkFirstDrawMoves(g, 2, 1, 2, rand, 1, 2, 3, vis, 2, 2);
    WalkFromCorner(g[4 := 0], rand, vis + {(1, 2)});
  }

  /** At the start (1, 1): South, onto the border. */
  lemma WalkFromStart(g: seq<int>, rand: seq<nat>)
    requires |g| == 12 && g[5] != 0 && BreakingDraws(rand)
    ensures var r := Walk(g, 2, 1, 2, rand, 1, 1, 2, {});
      r.done && r.cells[4] == 0
  {
    assert Idx(2, 1, 1) == 3 && Target(2, 1) == 5 && Size(3, 2) == 12;
    WalkFirstDrawMoves(g, 2, 1, 2, rand, 1, 1, 2, {}, 1, 2);
    WalkFromBorder(g[3 := 0], rand, {} + {(1, 1)});
  }

  /** The intended bound (south = height) keeps the border of every map the
      ring fill seals. */
  lemma IntendedKeepsBorder(width: int, height: int, wallNum: int, rand: seq<nat>)
    requires 1 <= width && 1 <= height && wallNum >= 1 && RingCount(width + 1) <= |rand|
    ensures var g := Rings(Zeros(Size(width + 1, height + 1)), width + 1, height + 1, wallNum, rand, 0, RingCount(width + 1));
      Sealed(Walk(g, width, height, height, rand, 1, 1, RingCount(width + 1), {}).cells, width + 1, height + 1)
  {
    var z := Zeros(Size(width + 1, height + 1));
    var g := Rings(z, width + 1, height + 1, wallNum, rand, 0, RingCount(width + 1));
    assert Sealed(g, width + 1, height + 1) by {
      RingsSealed(z, width + 1, height + 1, wallNum, rand, 0);
    }
    assert WalkOk(g, width, height, height);
    WalkKeepsBorder(g, width, height, height, rand, RingCount(width + 1));
  }
}
