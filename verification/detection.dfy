/**
  The post-inference half of `PersonDetector.detect`: pick the most confident
  person row from the detector's output, take the integer centre of its box
  and classify it as LEFT, CENTER or RIGHT against two column boundaries.
  Rows arrive with their box already in pixels.
 */
module Detection {
  import opened Wrappers
  import opened Zones

  /** Pascal VOC class id of "person" in the MobileNet-SSD output. */
  const PersonClass: int := 15

  const Left: string := "LEFT"
  const Center: string := "CENTER"
  const Right: string := "RIGHT"

  /** The zone names `detect` can report. */
  const ZoneNames: set<string> := {Left, Center, Right}

  /** One detector output row: class, confidence and a pixel box. */
  datatype Row = Row(classId: int, conf: real, x1: int, y1: int, x2: int, y2: int)

  /** A pixel bounding box `(x1, y1, x2, y2)`. */
  datatype Box = Box(x1: int, y1: int, x2: int, y2: int)

  /** The `{found, zone, bbox}` record returned by `detect`. */
  datatype DetectionResult = DetectionResult(found: bool, zone: Option<string>, bbox: Option<Box>)

  function BoxOf(r: Row): Box
  {
    Box(r.x1, r.y1, r.x2, r.y2)
  }

  /** A row survives both filters of the scan: it is a person at or above the threshold. */
  predicate Eligible(r: Row, threshold: real)
  {
    r.classId == PersonClass && r.conf >= threshold
  }

  /**
    Row `i` is eligible, beats the initial best confidence of 0, is strictly
    more confident than every eligible row before it and at least as
    confident as every eligible row in `rows[..k]`.
   */
  ghost predicate IsFirstBestUpTo(rows: seq<Row>, threshold: real, i: int, k: int)
  {
    && 0 <= i < k <= |rows|
    && Eligible(rows[i], threshold) && rows[i].conf > 0.0
    && (forall j | 0 <= j < i :: Eligible(rows[j], threshold) ==> rows[j].conf < rows[i].conf)
    && (forall j | i < j < k :: Eligible(rows[j], threshold) ==> rows[j].conf <= rows[i].conf)
  }

  /** Row `i` is the first eligible row of maximal confidence in the whole scan. */
  ghost predicate IsFirstBest(rows: seq<Row>, threshold: real, i: int)
  {
    IsFirstBestUpTo(rows, threshold, i, |rows|)
  }

  /** Some eligible row has a confidence above the initial best of 0. */
  ghost predicate HasCandidate(rows: seq<Row>, threshold: real)
  {
    exists j | 0 <= j < |rows| :: Eligible(rows[j], threshold) && rows[j].conf > 0.0
  }

  /** At most one row is the first best: the selection is determined by the rows. */
  lemma FirstBestUnique(rows: seq<Row>, threshold: real, i: int, k: int)
    requires IsFirstBest(rows, threshold, i) && IsFirstBest(rows, threshold, k)
    ensures i == k
  {
  }

  /**
    The selection loop of `detect`: scan the rows, skip every non-person row
    and every row under the threshold, and keep the box of a row whose
    confidence is strictly greater than the best so far (initially 0).
   */
  method SelectBest(rows: seq<Row>, threshold: real) returns (bestConf: real, bestBox: Option<Box>)
    ensures bestBox.None? <==> !HasCandidate(rows, threshold)
    ensures bestBox.None? ==> bestConf == 0.0
    ensures bestBox.Some? ==>
      exists i :: IsFirstBest(rows, threshold, i) && bestBox.value == BoxOf(rows[i]) && bestConf == rows[i].conf
    // with a positive threshold every eligible row beats the initial 0
    ensures threshold > 0.0 ==>
      (bestBox.Some? <==> exists j | 0 <= j < |rows| :: Eligible(rows[j], threshold))
  {
    bestConf := 0.0;
    bestBox := None;
    ghost var best := -1;
    for k := 0 to |rows|
      invariant best == -1 <==> bestBox.None?
      invariant best == -1 ==> bestConf == 0.0
      invariant best == -1 ==> forall j | 0 <= j < k :: !(Eligible(rows[j], threshold) && rows[j].conf > 0.0)
      invariant best != -1 ==>
        IsFirstBestUpTo(rows, threshold, best, k) && bestBox == Some(BoxOf(rows[best])) && bestConf == rows[best].conf
    {
      var row := rows[k];
      if row.classId != PersonClass {
        continue;
      }
      if row.conf < threshold {
        continue;
      }
      if row.conf > bestConf {
        bestConf := row.conf;
        bestBox := Some(BoxOf(row));
        best := k;
      }
    }
  }

  /** The integer centre column `(x1 + x2) // 2` of a box. */
  function CenterX(b: Box): (cx: int)
    // floor of the midpoint
    ensures 2 * cx <= b.x1 + b.x2 < 2 * cx + 2
    // the centre lies within the box's horizontal extent
    ensures b.x1 <= b.x2 ==> b.x1 <= cx <= b.x2
    ensures b.x2 <= b.x1 ==> b.x2 <= cx <= b.x1
  {
    (b.x1 + b.x2) / 2
  }

  /**
    The two boundaries `(left_end, right_start)`: the equal-thirds fallback
    when no zone information is given, else the end of the given left band
    and the end of the given center band.
   */
  function Boundaries(w: nat, zoneInfo: Option<ZoneInfo>): (b: (int, int))
    ensures zoneInfo.None? ==> 0 <= b.0 <= b.1 <= w && 3 * b.0 <= w < 3 * b.0 + 3 && 3 * b.1 <= 2 * w < 3 * b.1 + 3
    ensures zoneInfo.Some? ==> b == (zoneInfo.value.left.end, zoneInfo.value.center.end)
  {
    match zoneInfo
    case None => (w / 3, 2 * w / 3)
    case Some(info) => (info.left.end, info.center.end)
  }

  /** Zone of a centre column against the boundaries `leftEnd` and `rightStart`. */
  function Classify(cx: int, leftEnd: int, rightStart: int): (zone: string)
    ensures zone in ZoneNames
    ensures zone == Left <==> cx < leftEnd
    ensures zone == Center <==> leftEnd <= cx < rightStart
    ensures zone == Right <==> leftEnd <= cx && rightStart <= cx
  {
    if cx < leftEnd then Left
    else if cx < rightStart then Center
    else Right
  }

  /** The zone `detect` reports for a selected box in a frame of width `w`. */
  function ZoneOf(b: Box, w: nat, zoneInfo: Option<ZoneInfo>): (zone: string)
    ensures zone in ZoneNames
    ensures zone == Left <==> CenterX(b) < Boundaries(w, zoneInfo).0
    ensures zone == Center <==> Boundaries(w, zoneInfo).0 <= CenterX(b) < Boundaries(w, zoneInfo).1
    ensures zone == Right <==> Boundaries(w, zoneInfo).0 <= CenterX(b) && Boundaries(w, zoneInfo).1 <= CenterX(b)
  {
    var (leftEnd, rightStart) := Boundaries(w, zoneInfo);
    Classify(CenterX(b), leftEnd, rightStart)
  }

  /**
    The shape of a `detect` result: not found means no zone and no box;
    found means a box and one of the three zone names.
   */
  predicate WellFormed(d: DetectionResult)
  {
    if d.found then d.zone.Some? && d.zone.value in ZoneNames && d.bbox.Some?
    else d.zone.None? && d.bbox.None?
  }

  /**
    `detect` after inference, on rows already in pixels, for a frame of width
    `w` and an optional zone split of the frame.
   */
  method Detect(rows: seq<Row>, w: nat, zoneInfo: Option<ZoneInfo>, threshold: real) returns (d: DetectionResult)
    ensures WellFormed(d)
    ensures d.found <==> HasCandidate(rows, threshold)
    ensures threshold > 0.0 ==> (d.found <==> exists j | 0 <= j < |rows| :: Eligible(rows[j], threshold))
    ensures d.found ==>
      exists i :: IsFirstBest(rows, threshold, i)
        && d.bbox == Some(BoxOf(rows[i]))
        && d.zone == Some(ZoneOf(BoxOf(rows[i]), w, zoneInfo))
  {
    var _, bestBox := SelectBest(rows, threshold);
    if bestBox.None? {
      return DetectionResult(false, None, None);
    }
    var box := bestBox.value;
    var cx := CenterX(box);
    var (leftEnd, rightStart) := Boundaries(w, zoneInfo);
    var zone := Classify(cx, leftEnd, rightStart);
    d := DetectionResult(true, Some(zone), Some(box));
  }

  /**
    Handing `detect` the split of the same frame gives the same boundaries,
    and so the same zone, as the equal-thirds fallback.
   */
  lemma SplitMatchesFallback(w: nat, h: nat, b: Box)
    ensures Boundaries(w, Some(SplitIntoZones(w, h))) == Boundaries(w, None)
    ensures ZoneOf(b, w, Some(SplitIntoZones(w, h))) == ZoneOf(b, w, None)
  {
  }

  /**
    With the frame's own split, the reported zone is the band that holds the
    box's centre; a centre left of the frame counts as LEFT and one right of
    it as RIGHT.
   */
  lemma ZoneIsBandOfCenter(b: Box, w: nat, h: nat)
    ensures var z := SplitIntoZones(w, h);
      var zone := ZoneOf(b, w, Some(z));
      var cx := CenterX(b);
      && (zone == Left <==> cx < 0 || InBand(z.left, cx))
      && (zone == Center <==> InBand(z.center, cx))
      && (zone == Right <==> InBand(z.right, cx) || w <= cx)
  {
  }
}
