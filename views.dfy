// What the two casters read of the raycaster: the window size and the
// player's pose, and the layout of the `uint32_t` frame buffer, whose pixel
// (x, y) sits at `y * win_w + x`.

module Views {
  import opened CArith
  import opened Grids

  /** The fields of `Raycast_Data` a frame is cast from. */
  datatype View = View(winW: int, winH: int, hWinH: int,
                       posX: real, posY: real, posZ: real, pitch: real,
                       dirX: real, dirY: real, planeX: real, planeY: real)

  /** `uint16_t` window sizes, not 0, `h_win_h == win_h / 2`, and a
      position with non-negative coordinates. */
  predicate ViewOk(v: View) {
    1 <= v.winW < 0x1_0000 && 1 <= v.winH < 0x1_0000 && v.hWinH == v.winH / 2 &&
    v.posX >= 0.0 && v.posY >= 0.0
  }

  /** The player stands in a cell that is not on the border of a w-by-h map. */
  predicate Inside(w: int, h: int, v: View) {
    v.posX >= 0.0 && v.posY >= 0.0 && 1 <= Trunc(v.posX) < w && 1 <= Trunc(v.posY) < h
  }

  /** Offset of pixel (x, y) in a buffer of `winH` rows of `winW` pixels. */
  function Pixel(winW: int, winH: int, x: int, y: int): (i: int)
    ensures 0 <= x < winW && 0 <= y < winH ==> 0 <= i < FrameSize(winW, winH)
  {
    if 0 <= x < winW && 0 <= y < winH then
      PixelInBounds(winW, winH, x, y);
      Idx(winW, y, x)
    else Idx(winW, y, x)
  }

  /** Size of the frame buffer, `win_w * win_h` pixels. */
  function FrameSize(winW: int, winH: int): int {
    Mul(winH, winW)
  }

  /** Every pixel of the window lies inside the buffer. */
  lemma PixelInBounds(winW: int, winH: int, x: int, y: int)
    requires 0 <= x < winW && 0 <= y < winH
    ensures 0 <= Idx(winW, y, x) < FrameSize(winW, winH)
  {
    MulIsTimes(y, winW);
    MulIsTimes(winH, winW);
    MulLeft(y + 1, winH, winW);
    MulLeft(0, y, winW);
  }

  /** Distinct pixels of the window have distinct offsets. */
  lemma PixelInjective(winW: int, winH: int, x1: int, y1: int, x2: int, y2: int)
    requires 0 <= x1 < winW && 0 <= x2 < winW
    requires Pixel(winW, winH, x1, y1) == Pixel(winW, winH, x2, y2)
    ensures x1 == x2 && y1 == y2
  {
    IdxInjective(winW, y1, x1, y2, x2);
  }

  /** Writing pixel (x, y) of the window leaves every other pixel alone. */
  lemma OtherPixels(winW: int, winH: int, x: int, y: int)
    requires 0 <= x < winW && 0 <= y < winH
    ensures forall cx, cy :: 0 <= cx < winW && 0 <= cy < winH && (cx != x || cy != y) ==>
      Pixel(winW, winH, cx, cy) != Pixel(winW, winH, x, y)
  {
    forall cx, cy | 0 <= cx < winW && 0 <= cy < winH && (cx != x || cy != y)
      ensures Pixel(winW, winH, cx, cy) != Pixel(winW, winH, x, y)
    {
      if Pixel(winW, winH, cx, cy) == Pixel(winW, winH, x, y) {
        PixelInjective(winW, winH, cx, cy, x, y);
      }
    }
  }

  /** Every offset of the buffer is the offset of a pixel of the window:
      offset i holds pixel (i % win_w, i / win_w). */
  lemma PixelOnto(winW: int, winH: int, i: int)
    requires 1 <= winW && 0 <= i < FrameSize(winW, winH)
    ensures 0 <= i % winW < winW && 0 <= i / winW < winH
    ensures Pixel(winW, winH, i % winW, i / winW) == i
  {
    var x, y := i % winW, i / winW;
    MulIsTimes(winH, winW);
    MulIsTimes(y, winW);
    if winH <= y {
      MulLeft(winH, y, winW);
      assert false;
    }
  }
}
