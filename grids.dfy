// The occupancy grid of map.c as a flat buffer. A map of width w and height
// h has (w+1)*(h+1) cells, but column x starts at x*h (stride h, not h+1),
// so cell (x, h) and cell (x+1, 0) are the same byte and the last w bytes
// of the buffer are never addressed through a valid (x, y).
//
// The ring fill of Map_Create is specified here as a sequence of writes on
// a value of type seq<int>; the method in module Maps performs those writes
// on an array.

module Grids {
  import opened CArith

  /** Buffer offset of `data[x][y]` when columns have stride h. */
  function Idx(h: int, x: int, y: int): int {
    Mul(x, h) + y
  }

  /** Size of the buffer allocated for a w-by-h map. */
  function Size(w: int, h: int): (n: int)
    ensures 0 <= w && 0 <= h ==> n >= 0
  {
    Mul(w + 1, h + 1)
  }

  predicate InGrid(w: int, h: int, x: int, y: int) {
    0 <= x <= w && 0 <= y <= h
  }

  predicate IsBorder(w: int, h: int, x: int, y: int) {
    x == 0 || x == w || y == 0 || y == h
  }

  function Zeros(n: nat): (z: seq<int>)
    ensures |z| == n && forall i :: 0 <= i < n ==> z[i] == 0
  {
    seq(n, _ => 0)
  }

  /** Every `data[x][y]` with x <= w and y <= h lies inside the allocation. */
  lemma IdxInBounds(w: int, h: int, x: int, y: int)
    requires 0 <= w && 0 <= h && InGrid(w, h, x, y)
    ensures 0 <= Idx(h, x, y) < Size(w, h)
  {
    MulIsTimes(x, h);
    SizeExpand(w, h);
    MulLeft(0, x, h);
    MulLeft(x, w, h);
  }

  /** The stride-h layout makes (x, h) and (x+1, 0) the same byte. */
  lemma IdxAlias(h: int, x: int)
    ensures Idx(h, x, h) == Idx(h, x + 1, 0)
  {
    MulIsTimes(x, h);
    MulIsTimes(x + 1, h);
    assert (x + 1) * h == x * h + h;
  }

  /** Below row h, distinct cells have distinct offsets. */
  lemma IdxInjective(h: int, x1: int, y1: int, x2: int, y2: int)
    requires h >= 1 && 0 <= y1 < h && 0 <= y2 < h
    requires Idx(h, x1, y1) == Idx(h, x2, y2)
    ensures x1 == x2 && y1 == y2
  {
    MulIsTimes(x1, h);
    MulIsTimes(x2, h);
    DivModUnique(Idx(h, x1, y1), h, x1, y1);
    DivModUnique(Idx(h, x2, y2), h, x2, y2);
  }

  /** Value of the cell at (x, y) of a buffer. */
  function At(c: seq<int>, h: int, x: int, y: int): int
    requires 0 <= Idx(h, x, y) < |c|
  {
    c[Idx(h, x, y)]
  }

  /** Every border cell of the w-by-h map holds a wall. */
  predicate Sealed(c: seq<int>, w: int, h: int)
    requires 0 <= w && 0 <= h && |c| == Size(w, h)
  {
    forall x, y {:trigger IsBorder(w, h, x, y)} :: 0 <= x <= w && 0 <= y <= h && IsBorder(w, h, x, y) ==>
      0 <= Idx(h, x, y) < |c| && c[Idx(h, x, y)] != 0
  }

  // ---------------------------------------------------------------------
  // Ring fill

  /** All row writes for x in [lo, hi) address bytes of a buffer of n bytes. */
  predicate RowsFit(n: int, h: int, line: int, lo: int, hi: int) {
    forall x :: lo <= x < hi ==> 0 <= Idx(h, x, line) < n && 0 <= Idx(h, x, h - line) < n
  }

  /** All column writes for y in [lo, hi) address bytes of a buffer of n bytes. */
  predicate ColsFit(n: int, w: int, h: int, line: int, lo: int, hi: int) {
    forall y :: lo <= y < hi ==> 0 <= Idx(h, line, y) < n && 0 <= Idx(h, w - line, y) < n
  }

  lemma RowsFitShrink(n: int, h: int, line: int, lo: int, hi: int)
    requires RowsFit(n, h, line, lo, hi)
    ensures RowsFit(n, h, line, lo, hi - 1)
  {
    forall x | lo <= x < hi - 1
      ensures 0 <= Idx(h, x, line) < n && 0 <= Idx(h, x, h - line) < n
    {
      assert lo <= x < hi;
    }
  }

  lemma ColsFitShrink(n: int, w: int, h: int, line: int, lo: int, hi: int)
    requires ColsFit(n, w, h, line, lo, hi)
    ensures ColsFit(n, w, h, line, lo, hi - 1)
  {
    forall y | lo <= y < hi - 1
      ensures 0 <= Idx(h, line, y) < n && 0 <= Idx(h, w - line, y) < n
    {
      assert lo <= y < hi;
    }
  }

  /** The writes `data[x][line] = wall; data[x][h-line] = wall` for x in [lo, hi). */
  function PaintRows(c: seq<int>, h: int, line: int, lo: int, hi: int, wall: int): (r: seq<int>)
    requires RowsFit(|c|, h, line, lo, hi)
    ensures |r| == |c|
    decreases hi - lo
  {
    if hi <= lo then c
    else
      RowsFitShrink(|c|, h, line, lo, hi);
      var p := PaintRows(c, h, line, lo, hi - 1, wall);
      p[Idx(h, hi - 1, line) := wall][Idx(h, hi - 1, h - line) := wall]
  }

  /** The writes `data[line][y] = wall; data[w-line][y] = wall` for y in [lo, hi). */
  function PaintCols(c: seq<int>, w: int, h: int, line: int, lo: int, hi: int, wall: int): (r: seq<int>)
    requires ColsFit(|c|, w, h, line, lo, hi)
    ensures |r| == |c|
    decreases hi - lo
  {
    if hi <= lo then c
    else
      ColsFitShrink(|c|, w, h, line, lo, hi);
      var p := PaintCols(c, w, h, line, lo, hi - 1, wall);
      p[Idx(h, line, hi - 1) := wall][Idx(h, w - line, hi - 1) := wall]
  }

  /** Ring number `line` fits in the buffer: it is one of the rings the
      fill loop paints, and a zero-height map has only ring 0. */
  predicate RingFits(w: int, h: int, line: int) {
    0 <= w && 0 <= h && 0 <= line && 2 * line <= w && (h >= 1 || line == 0)
  }

  lemma SizeExpand(w: int, h: int)
    ensures Size(w, h) == w * h + h + w + 1
  {
    MulIsTimes(w + 1, h + 1);
  }

  lemma RowCellInBounds(w: int, h: int, line: int, x: int)
    requires RingFits(w, h, line) && line <= x <= w - line
    ensures 0 <= Idx(h, x, line) < Size(w, h) && 0 <= Idx(h, x, h - line) < Size(w, h)
  {
    SizeExpand(w, h);
    MulIsTimes(x, h);
    MulLeft(0, x, h);
    MulLeft(x, w, h);
    MulLeft(line, x, h);
    assert 0 <= x * h <= w * h;
    if h >= 1 {
      MulLeft(1, h, line);
      assert line * h == h * line;
      assert line * h >= line;
    }
  }

  lemma RowsInBounds(w: int, h: int, line: int)
    requires RingFits(w, h, line)
    ensures RowsFit(Size(w, h), h, line, line, w - line + 1)
  {
    forall x | line <= x < w - line + 1
      ensures 0 <= Idx(h, x, line) < Size(w, h) && 0 <= Idx(h, x, h - line) < Size(w, h)
    {
      RowCellInBounds(w, h, line, x);
    }
  }

  lemma ColsInBounds(w: int, h: int, line: int)
    requires RingFits(w, h, line)
    ensures ColsFit(Size(w, h), w, h, line, line + 1, h - line)
  {
    forall y | line + 1 <= y < h - line
      ensures 0 <= Idx(h, line, y) < Size(w, h) && 0 <= Idx(h, w - line, y) < Size(w, h)
    {
      IdxInBounds(w, h, line, y);
      IdxInBounds(w, h, w - line, y);
    }
  }

  lemma RowsFitPrefix(n: int, h: int, line: int, lo: int, hi: int, x: int)
    requires RowsFit(n, h, line, lo, hi) && x <= hi
    ensures RowsFit(n, h, line, lo, x)
  {
    forall x' | lo <= x' < x
      ensures 0 <= Idx(h, x', line) < n && 0 <= Idx(h, x', h - line) < n
    {
      assert lo <= x' < hi;
    }
  }

  lemma ColsFitPrefix(n: int, w: int, h: int, line: int, lo: int, hi: int, y: int)
    requires ColsFit(n, w, h, line, lo, hi) && y <= hi
    ensures ColsFit(n, w, h, line, lo, y)
  {
    forall y' | lo <= y' < y
      ensures 0 <= Idx(h, line, y') < n && 0 <= Idx(h, w - line, y') < n
    {
      assert lo <= y' < hi;
    }
  }

  /** The last two writes of a row pass. */
  lemma PaintRowsLast(c: seq<int>, h: int, line: int, lo: int, hi: int, wall: int)
    requires RowsFit(|c|, h, line, lo, hi) && lo < hi
    ensures RowsFit(|c|, h, line, lo, hi - 1)
    ensures PaintRows(c, h, line, lo, hi, wall)
         == PaintRows(c, h, line, lo, hi - 1, wall)[Idx(h, hi - 1, line) := wall][Idx(h, hi - 1, h - line) := wall]
  {
    RowsFitShrink(|c|, h, line, lo, hi);
  }

  /** The last two writes of a column pass. */
  lemma PaintColsLast(c: seq<int>, w: int, h: int, line: int, lo: int, hi: int, wall: int)
    requires ColsFit(|c|, w, h, line, lo, hi) && lo < hi
    ensures ColsFit(|c|, w, h, line, lo, hi - 1)
    ensures PaintCols(c, w, h, line, lo, hi, wall)
         == PaintCols(c, w, h, line, lo, hi - 1, wall)[Idx(h, line, hi - 1) := wall][Idx(h, w - line, hi - 1) := wall]
  {
    ColsFitShrink(|c|, w, h, line, lo, hi);
  }

  /** One pass of the ring loop: rows line and h-line for x in
      [line, w-line], then columns line and w-line for y in
      [line+1, h-line-1], all set to `wall`. */
  function PaintRing(c: seq<int>, w: int, h: int, line: int, wall: int): (r: seq<int>)
    requires RingFits(w, h, line) && |c| == Size(w, h)
    ensures |r| == |c|
  {
    RowsInBounds(w, h, line);
    ColsInBounds(w, h, line);
    PaintCols(PaintRows(c, h, line, line, w - line + 1, wall), w, h, line, line + 1, h - line, wall)
  }

  /** The wall code drawn for ring `line` when the fill starts at value k of
      the `rand()` stream: `rand() % wall_num + 1`. */
  function RingWall(rand: seq<nat>, k: nat, line: nat, wallNum: int): int
    requires wallNum >= 1 && k + line < |rand|
  {
    rand[k + line] % wallNum + 1
  }

  /** Number of passes of `while (w_end != width / 2)`. */
  function RingCount(w: int): int
    requires w >= 0
  {
    w - w / 2
  }

  /** The ring loop can run in bounds: on a zero-height map only one ring fits. */
  predicate RingFillFits(w: int, h: int) {
    0 <= w && 0 <= h && (h >= 1 || w <= 2)
  }

  lemma RingCountFits(w: int, h: int, line: int)
    requires RingFillFits(w, h) && 0 <= line < RingCount(w)
    ensures RingFits(w, h, line)
  {
  }

  /** The buffer after the first n passes of the ring loop. */
  function Rings(c: seq<int>, w: int, h: int, wallNum: int, rand: seq<nat>, k: nat, n: nat): (r: seq<int>)
    requires RingFillFits(w, h) && wallNum >= 1 && n <= RingCount(w) && |c| == Size(w, h) && k + n <= |rand|
    ensures |r| == |c|
  {
    if n == 0 then c
    else
      RingCountFits(w, h, n - 1);
      PaintRing(Rings(c, w, h, wallNum, rand, k, n - 1), w, h, n - 1, RingWall(rand, k, n - 1, wallNum))
  }

  // ---------------------------------------------------------------------
  // Properties of the writes

  /** Painting rows writes `wall` somewhere and leaves every other byte. */
  lemma {:induction false} PaintRowsOnlyWall(c: seq<int>, h: int, line: int, lo: int, hi: int, wall: int, i: int)
    requires RowsFit(|c|, h, line, lo, hi) && 0 <= i < |c|
    ensures PaintRows(c, h, line, lo, hi, wall)[i] == c[i] || PaintRows(c, h, line, lo, hi, wall)[i] == wall
    decreases hi - lo
  {
    if lo < hi {
      PaintRowsLast(c, h, line, lo, hi, wall);
      PaintRowsOnlyWall(c, h, line, lo, hi - 1, wall, i);
    }
  }

  lemma {:induction false} PaintColsOnlyWall(c: seq<int>, w: int, h: int, line: int, lo: int, hi: int, wall: int, i: int)
    requires ColsFit(|c|, w, h, line, lo, hi) && 0 <= i < |c|
    ensures PaintCols(c, w, h, line, lo, hi, wall)[i] == c[i] || PaintCols(c, w, h, line, lo, hi, wall)[i] == wall
    decreases hi - lo
  {
    if lo < hi {
      PaintColsLast(c, w, h, line, lo, hi, wall);
      PaintColsOnlyWall(c, w, h, line, lo, hi - 1, wall, i);
    }
  }

  /** After painting rows, every painted cell holds `wall`. */
  lemma {:induction false} PaintRowsCover(c: seq<int>, h: int, line: int, lo: int, hi: int, wall: int)
    requires RowsFit(|c|, h, line, lo, hi)
    ensures forall x :: lo <= x < hi ==>
      PaintRows(c, h, line, lo, hi, wall)[Idx(h, x, line)] == wall &&
      PaintRows(c, h, line, lo, hi, wall)[Idx(h, x, h - line)] == wall
    decreases hi - lo
  {
    if lo < hi {
      RowsFitShrink(|c|, h, line, lo, hi);
      PaintRowsCover(c, h, line, lo, hi - 1, wall);
      var p := PaintRows(c, h, line, lo, hi - 1, wall);
      var r := PaintRows(c, h, line, lo, hi, wall);
      assert r == p[Idx(h, hi - 1, line) := wall][Idx(h, hi - 1, h - line) := wall];
      forall x | lo <= x < hi
        ensures r[Idx(h, x, line)] == wall && r[Idx(h, x, h - line)] == wall
      {
        if x < hi - 1 {
          assert p[Idx(h, x, line)] == wall && p[Idx(h, x, h - line)] == wall;
        }
      }
    }
  }

  lemma {:induction false} PaintColsCover(c: seq<int>, w: int, h: int, line: int, lo: int, hi: int, wall: int)
    requires ColsFit(|c|, w, h, line, lo, hi)
    ensures forall y :: lo <= y < hi ==>
      PaintCols(c, w, h, line, lo, hi, wall)[Idx(h, line, y)] == wall &&
      PaintCols(c, w, h, line, lo, hi, wall)[Idx(h, w - line, y)] == wall
    decreases hi - lo
  {
    if lo < hi {
      ColsFitShrink(|c|, w, h, line, lo, hi);
      PaintColsCover(c, w, h, line, lo, hi - 1, wall);
      var p := PaintCols(c, w, h, line, lo, hi - 1, wall);
      var r := PaintCols(c, w, h, line, lo, hi, wall);
      assert r == p[Idx(h, line, hi - 1) := wall][Idx(h, w - line, hi - 1) := wall];
      forall y | lo <= y < hi
        ensures r[Idx(h, line, y)] == wall && r[Idx(h, w - line, y)] == wall
      {
        if y < hi - 1 {
          assert p[Idx(h, line, y)] == wall && p[Idx(h, w - line, y)] == wall;
        }
      }
    }
  }

  /** No row write for x in [lo, hi) addresses byte i. */
  predicate RowsMiss(h: int, line: int, lo: int, hi: int, i: int) {
    forall x :: lo <= x < hi ==> Idx(h, x, line) != i && Idx(h, x, h - line) != i
  }

  /** No column write for y in [lo, hi) addresses byte i. */
  predicate ColsMiss(w: int, h: int, line: int, lo: int, hi: int, i: int) {
    forall y :: lo <= y < hi ==> Idx(h, line, y) != i && Idx(h, w - line, y) != i
  }

  lemma RowsMissShrink(h: int, line: int, lo: int, hi: int, i: int)
    requires RowsMiss(h, line, lo, hi, i)
    ensures RowsMiss(h, line, lo, hi - 1, i)
  {
    forall x | lo <= x < hi - 1
      ensures Idx(h, x, line) != i && Idx(h, x, h - line) != i
    {
      assert lo <= x < hi;
    }
  }

  lemma ColsMissShrink(w: int, h: int, line: int, lo: int, hi: int, i: int)
    requires ColsMiss(w, h, line, lo, hi, i)
    ensures ColsMiss(w, h, line, lo, hi - 1, i)
  {
    forall y | lo <= y < hi - 1
      ensures Idx(h, line, y) != i && Idx(h, w - line, y) != i
    {
      assert lo <= y < hi;
    }
  }

  /** A byte no row write addresses keeps its value. */
  lemma {:induction false} PaintRowsFrame(c: seq<int>, h: int, line: int, lo: int, hi: int, wall: int, i: int)
    requires RowsFit(|c|, h, line, lo, hi)
    requires 0 <= i < |c|
    requires RowsMiss(h, line, lo, hi, i)
    ensures PaintRows(c, h, line, lo, hi, wall)[i] == c[i]
    decreases hi - lo
  {
    if lo < hi {
      RowsFitShrink(|c|, h, line, lo, hi);
      RowsMissShrink(h, line, lo, hi, i);
      PaintRowsFrame(c, h, line, lo, hi - 1, wall, i);
    }
  }

  lemma {:induction false} PaintColsFrame(c: seq<int>, w: int, h: int, line: int, lo: int, hi: int, wall: int, i: int)
    requires ColsFit(|c|, w, h, line, lo, hi)
    requires 0 <= i < |c|
    requires ColsMiss(w, h, line, lo, hi, i)
    ensures PaintCols(c, w, h, line, lo, hi, wall)[i] == c[i]
    decreases hi - lo
  {
    if lo < hi {
      ColsFitShrink(|c|, w, h, line, lo, hi);
      ColsMissShrink(w, h, line, lo, hi, i);
      PaintColsFrame(c, w, h, line, lo, hi - 1, wall, i);
    }
  }

  /** A ring pass writes only its own wall code. */
  lemma PaintRingOnlyWall(c: seq<int>, w: int, h: int, line: int, wall: int, i: int)
    requires RingFits(w, h, line) && |c| == Size(w, h) && 0 <= i < |c|
    ensures PaintRing(c, w, h, line, wall)[i] == c[i] || PaintRing(c, w, h, line, wall)[i] == wall
  {
    RowsInBounds(w, h, line);
    ColsInBounds(w, h, line);
    var rows := PaintRows(c, h, line, line, w - line + 1, wall);
    PaintRowsOnlyWall(c, h, line, line, w - line + 1, wall, i);
    PaintColsOnlyWall(rows, w, h, line, line + 1, h - line, wall, i);
  }

  /** Every row cell of ring `line` holds `wall` after its pass. */
  lemma PaintRingCoversRow(c: seq<int>, w: int, h: int, line: int, wall: int, x: int)
    requires RingFits(w, h, line) && |c| == Size(w, h) && line <= x <= w - line
    ensures 0 <= Idx(h, x, line) < |c| && 0 <= Idx(h, x, h - line) < |c|
    ensures PaintRing(c, w, h, line, wall)[Idx(h, x, line)] == wall
    ensures PaintRing(c, w, h, line, wall)[Idx(h, x, h - line)] == wall
  {
    RowsInBounds(w, h, line);
    ColsInBounds(w, h, line);
    var rows := PaintRows(c, h, line, line, w - line + 1, wall);
    PaintRowsCover(c, h, line, line, w - line + 1, wall);
    assert rows[Idx(h, x, line)] == wall && rows[Idx(h, x, h - line)] == wall;
    PaintColsOnlyWall(rows, w, h, line, line + 1, h - line, wall, Idx(h, x, line));
    PaintColsOnlyWall(rows, w, h, line, line + 1, h - line, wall, Idx(h, x, h - line));
  }

  /** Every column cell of ring `line` holds `wall` after its pass. */
  lemma PaintRingCoversCol(c: seq<int>, w: int, h: int, line: int, wall: int, y: int)
    requires RingFits(w, h, line) && |c| == Size(w, h) && line + 1 <= y <= h - line - 1
    ensures 0 <= Idx(h, line, y) < |c| && 0 <= Idx(h, w - line, y) < |c|
    ensures PaintRing(c, w, h, line, wall)[Idx(h, line, y)] == wall
    ensures PaintRing(c, w, h, line, wall)[Idx(h, w - line, y)] == wall
  {
    RowsInBounds(w, h, line);
    ColsInBounds(w, h, line);
    var rows := PaintRows(c, h, line, line, w - line + 1, wall);
    PaintColsCover(rows, w, h, line, line + 1, h - line, wall);
  }

  /** After ring 0, every border cell holds `wall`. */
  lemma PaintRingZeroBorder(c: seq<int>, w: int, h: int, wall: int, x: int, y: int)
    requires RingFits(w, h, 0) && |c| == Size(w, h)
    requires InGrid(w, h, x, y) && IsBorder(w, h, x, y)
    ensures 0 <= Idx(h, x, y) < |c| && PaintRing(c, w, h, 0, wall)[Idx(h, x, y)] == wall
  {
    IdxInBounds(w, h, x, y);
    if y == 0 || y == h {
      PaintRingCoversRow(c, w, h, 0, wall, x);
    } else if x == 0 {
      PaintRingCoversCol(c, w, h, 0, wall, y);
    } else {
      PaintRingCoversCol(c, w, h, 0, wall, y);
      assert Idx(h, w - 0, y) == Idx(h, x, y);
    }
  }

  /** Ring passes only ever write codes in [1, wall_num]: with a zeroed
      start every byte ends in [0, wall_num]. */
  lemma {:induction false} RingsValues(c: seq<int>, w: int, h: int, wallNum: int, rand: seq<nat>, k: nat, n: nat)
    requires RingFillFits(w, h) && wallNum >= 1 && n <= RingCount(w) && |c| == Size(w, h) && k + n <= |rand|
    requires forall i :: 0 <= i < |c| ==> 0 <= c[i] <= wallNum
    ensures forall i :: 0 <= i < |c| ==> 0 <= Rings(c, w, h, wallNum, rand, k, n)[i] <= wallNum
  {
    if n > 0 {
      RingsValues(c, w, h, wallNum, rand, k, n - 1);
      RingCountFits(w, h, n - 1);
      var prev := Rings(c, w, h, wallNum, rand, k, n - 1);
      var wall := RingWall(rand, k, n - 1, wallNum);
      var next := PaintRing(prev, w, h, n - 1, wall);
      assert Rings(c, w, h, wallNum, rand, k, n) == next;
      forall i | 0 <= i < |c|
        ensures 0 <= next[i] <= wallNum
      {
        PaintRingOnlyWall(prev, w, h, n - 1, wall, i);
      }
    }
  }

  /** A byte that holds a wall keeps holding one (possibly another code). */
  lemma {:induction false} RingsKeepWalls(c: seq<int>, w: int, h: int, wallNum: int, rand: seq<nat>, k: nat, m: nat, n: nat, i: int)
    requires RingFillFits(w, h) && wallNum >= 1 && m <= n <= RingCount(w) && |c| == Size(w, h) && k + n <= |rand|
    requires 0 <= i < |c| && Rings(c, w, h, wallNum, rand, k, m)[i] != 0
    ensures Rings(c, w, h, wallNum, rand, k, n)[i] != 0
    decreases n - m
  {
    if m < n {
      RingsKeepWalls(c, w, h, wallNum, rand, k, m, n - 1, i);
      RingStepKeepsWall(c, w, h, wallNum, rand, k, n, i);
    }
  }

  /** One more ring pass keeps a wall where there was one. */
  lemma RingStepKeepsWall(c: seq<int>, w: int, h: int, wallNum: int, rand: seq<nat>, k: nat, n: nat, i: int)
    requires RingFillFits(w, h) && wallNum >= 1 && 1 <= n <= RingCount(w) && |c| == Size(w, h) && k + n <= |rand|
    requires 0 <= i < |c| && Rings(c, w, h, wallNum, rand, k, n - 1)[i] != 0
    ensures Rings(c, w, h, wallNum, rand, k, n)[i] != 0
  {
    RingCountFits(w, h, n - 1);
    var prev := Rings(c, w, h, wallNum, rand, k, n - 1);
    var wall := RingWall(rand, k, n - 1, wallNum);
    PaintRingOnlyWall(prev, w, h, n - 1, wall, i);
  }

  /** Ring 0 walls a border cell and later rings keep a wall there. */
  lemma RingsBorderCell(c: seq<int>, w: int, h: int, wallNum: int, rand: seq<nat>, k: nat, x: int, y: int)
    requires RingFillFits(w, h) && wallNum >= 1 && w >= 1 && |c| == Size(w, h) && k + RingCount(w) <= |rand|
    requires InGrid(w, h, x, y) && IsBorder(w, h, x, y)
    ensures 0 <= Idx(h, x, y) < |c| && Rings(c, w, h, wallNum, rand, k, RingCount(w))[Idx(h, x, y)] != 0
  {
    RingCountFits(w, h, 0);
    assert Rings(c, w, h, wallNum, rand, k, 1) == PaintRing(c, w, h, 0, RingWall(rand, k, 0, wallNum));
    PaintRingZeroBorder(c, w, h, RingWall(rand, k, 0, wallNum), x, y);
    RingsKeepWalls(c, w, h, wallNum, rand, k, 1, RingCount(w), Idx(h, x, y));
  }

  /** The complete ring fill of a map at least one cell wide seals the border. */
  lemma RingsSealed(c: seq<int>, w: int, h: int, wallNum: int, rand: seq<nat>, k: nat)
    requires RingFillFits(w, h) && wallNum >= 1 && w >= 1 && |c| == Size(w, h) && k + RingCount(w) <= |rand|
    ensures Sealed(Rings(c, w, h, wallNum, rand, k, RingCount(w)), w, h)
  {
    var r := Rings(c, w, h, wallNum, rand, k, RingCount(w));
    forall x, y | 0 <= x <= w && 0 <= y <= h && IsBorder(w, h, x, y)
      ensures 0 <= Idx(h, x, y) < |r| && r[Idx(h, x, y)] != 0
    {
      RingsBorderCell(c, w, h, wallNum, rand, k, x, y);
    }
  }

  /** The bordered branch writes exactly ring 0 with code 1: border cells
      are 1 and every other cell keeps the zero of calloc. */
  lemma BorderedCells(w: int, h: int)
    requires 0 <= w && 0 <= h
    ensures forall x, y :: InGrid(w, h, x, y) ==>
      0 <= Idx(h, x, y) < Size(w, h) &&
      PaintRing(Zeros(Size(w, h)), w, h, 0, 1)[Idx(h, x, y)] == (if IsBorder(w, h, x, y) then 1 else 0)
  {
    var z := Zeros(Size(w, h));
    forall x, y | InGrid(w, h, x, y)
      ensures 0 <= Idx(h, x, y) < Size(w, h) &&
        PaintRing(z, w, h, 0, 1)[Idx(h, x, y)] == (if IsBorder(w, h, x, y) then 1 else 0)
    {
      IdxInBounds(w, h, x, y);
      if IsBorder(w, h, x, y) {
        PaintRingZeroBorder(z, w, h, 1, x, y);
      } else {
        InteriorUntouched(w, h, x, y);
      }
    }
  }

  lemma InteriorUntouched(w: int, h: int, x: int, y: int)
    requires 0 <= w && 0 <= h && 0 < x < w && 0 < y < h
    ensures 0 <= Idx(h, x, y) < Size(w, h)
    ensures PaintRing(Zeros(Size(w, h)), w, h, 0, 1)[Idx(h, x, y)] == 0
  {
    var z := Zeros(Size(w, h));
    var i := Idx(h, x, y);
    IdxInBounds(w, h, x, y);
    RowsInBounds(w, h, 0);
    ColsInBounds(w, h, 0);
    InteriorMissesRows(w, h, x, y);
    PaintRowsFrame(z, h, 0, 0, w + 1, 1, i);
    var rows := PaintRows(z, h, 0, 0, w + 1, 1);
    InteriorMissesCols(w, h, x, y);
    PaintColsFrame(rows, w, h, 0, 1, h, 1, i);
  }

  /** No write to row 0 or row h addresses an interior cell. */
  lemma InteriorMissesRows(w: int, h: int, x: int, y: int)
    requires 0 <= w && 0 <= h && 0 < x < w && 0 < y < h
    ensures RowsMiss(h, 0, 0, w + 1, Idx(h, x, y))
  {
    var i := Idx(h, x, y);
    forall x' | 0 <= x' < w + 1
      ensures Idx(h, x', 0) != i && Idx(h, x', h - 0) != i
    {
      if Idx(h, x', 0) == i {
        IdxInjective(h, x', 0, x, y);
      }
      IdxAlias(h, x');
      if Idx(h, x' + 1, 0) == i {
        IdxInjective(h, x' + 1, 0, x, y);
      }
    }
  }

  /** No write to column 0 or column w addresses an interior cell. */
  lemma InteriorMissesCols(w: int, h: int, x: int, y: int)
    requires 0 <= w && 0 <= h && 0 < x < w && 0 < y < h
    ensures ColsMiss(w, h, 0, 1, h, Idx(h, x, y))
  {
    var i := Idx(h, x, y);
    forall y' | 1 <= y' < h
      ensures Idx(h, 0, y') != i && Idx(h, w - 0, y') != i
    {
      if Idx(h, 0, y') == i {
        IdxInjective(h, 0, y', x, y);
      }
      if Idx(h, w, y') == i {
        IdxInjective(h, w, y', x, y);
      }
    }
  }
}
