/**
  The zone split of a camera frame (`VideoStream.split_into_zones`): the frame
  width is cut into three contiguous horizontal bands with integer division.
  Python's `//` and Dafny's `/` agree on the non-negative widths and the
  positive divisor used here.
 */
module Zones {

  /** A half-open horizontal band `[start, end)` of pixel columns. */
  datatype Band = Band(start: int, end: int)

  /** The dictionary returned by `split_into_zones`. */
  datatype ZoneInfo = ZoneInfo(left: Band, center: Band, right: Band, width: int, height: int)

  /** Column `x` lies in band `b`. */
  predicate InBand(b: Band, x: int)
  {
    b.start <= x < b.end
  }

  /** The number of columns a band covers. */
  function BandWidth(b: Band): int
  {
    b.end - b.start
  }

  /**
    Splits a frame of `w` x `h` pixels into the LEFT, CENTER and RIGHT bands,
    cut at `w // 3` and `2 * w // 3`.
   */
  function SplitIntoZones(w: nat, h: nat): (z: ZoneInfo)
    // the frame's own dimensions are reported back
    ensures z.width == w && z.height == h
    // the bands start at the left edge and end at the right edge of the frame
    ensures z.left.start == 0 && z.right.end == w
    // contiguous: each band starts where the previous one ends
    ensures z.left.end == z.center.start && z.center.end == z.right.start
    // ordered and inside the frame
    ensures 0 <= z.left.end <= z.center.end <= w
    // the first cut is the floor of a third of the width, the second of two thirds
    ensures 3 * z.left.end <= w < 3 * z.left.end + 3
    ensures 3 * z.center.end <= 2 * w < 3 * z.center.end + 3
  {
    var leftEnd := w / 3;
    var rightStart := 2 * w / 3;
    ZoneInfo(Band(0, leftEnd), Band(leftEnd, rightStart), Band(rightStart, w), w, h)
  }

  /** Every column of the frame lies in exactly one of the three bands. */
  lemma BandsPartitionFrame(w: nat, h: nat, x: int)
    requires 0 <= x < w
    ensures var z := SplitIntoZones(w, h);
      (InBand(z.left, x) || InBand(z.center, x) || InBand(z.right, x))
      && !(InBand(z.left, x) && InBand(z.center, x))
      && !(InBand(z.center, x) && InBand(z.right, x))
      && !(InBand(z.left, x) && InBand(z.right, x))
  {
  }

  /**
    The three bands are as equal as integer division allows: the left band is
    `w // 3` columns wide, the center and right bands `w // 3` or `w // 3 + 1`,
    the center band is never wider than the right one, and the widths add up
    to the frame width.
   */
  lemma BandsNearlyEqual(w: nat, h: nat)
    ensures var z := SplitIntoZones(w, h);
      && BandWidth(z.left) == w / 3
      && w / 3 <= BandWidth(z.center) <= w / 3 + 1
      && w / 3 <= BandWidth(z.right) <= w / 3 + 1
      && BandWidth(z.center) <= BandWidth(z.right)
      && BandWidth(z.left) + BandWidth(z.center) + BandWidth(z.right) == w
  {
  }
}
