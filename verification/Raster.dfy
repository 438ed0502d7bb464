/** Values shared by the two triangle fills. */
module Raster {

  /** A vertex, or the centre of a pixel, in 28.4 fixed point. */
  datatype Point = Point(x: int, y: int)

  /** The clip rectangle in whole pixels; right and bottom are exclusive. */
  datatype Scissor = Scissor(left: int, top: int, right: int, bottom: int)

  /** include/ggl_context.h: TRI_CEIL, rounding up to a whole pixel. */
  function TriCeil(x: int): int {
    (x + 15) / 16 * 16
  }

  /** TRI_FLOOR. */
  function TriFloor(x: int): int {
    x / 16 * 16
  }

  /** TRI_SNAP_NEXT_HALF. */
  function SnapNextHalf(x: int): int {
    TriCeil(x + 8) - 8
  }

  /** TRI_SNAP_PREV_HALF. */
  function SnapPrevHalf(x: int): int {
    TriCeil(x - 8) - 8
  }

  /** The vertical position of the centre of scanline n. */
  function CentreLine(n: int): int {
    16 * n + 8
  }

  /** On odd positions, which no centre line has, the snaps find the neighbouring centre lines. */
  lemma SnapsAreNeighbours(y: int)
    requires y % 2 == 1
    ensures exists n :: SnapNextHalf(y) == CentreLine(n) && SnapPrevHalf(y) == CentreLine(n - 1)
    ensures SnapPrevHalf(y) < y < SnapNextHalf(y) == SnapPrevHalf(y) + 16
  {
    var q, p := (y + 23) / 16, (y + 7) / 16;
    OddBelow(y, 8 * q - 4);
    OddAbove(y, 8 * p - 4);
    assert p == q - 1;
    assert SnapNextHalf(y) == CentreLine(q - 1) && SnapPrevHalf(y) == CentreLine(q - 1 - 1);
  }

  lemma OddBelow(y: int, half: int)
    requires y % 2 == 1
    ensures y <= 2 * half ==> y < 2 * half
  {
    var k := y / 2;
    assert y == 2 * k + 1;
  }

  lemma OddAbove(y: int, half: int)
    requires y % 2 == 1
    ensures 2 * half <= y ==> 2 * half < y
  {
    var k := y / 2;
    assert y == 2 * k + 1;
  }
}
