/**
 Interpolation along a precomputed trajectory: find the segment the elapsed time
 falls in, the fraction of that segment covered, and the point of the segment's
 shape reached at that fraction of its length. Both lookups are upper-bound binary
 searches, specified against a plain right-to-left reference definition.
 */
module ShapeInterpolator {
  import opened Wrappers
  import opened GtfsTypes
  import TrajectoryPrecomputer

  /** Where a vehicle is on its trajectory. */
  datatype InterpolationResult = InterpolationResult(
    position: Coord,
    bearing: real,
    nextStopId: string,
    progress: real,
    segmentProgress: real)

  // ---------------------------------------------------------------------------
  // Reference definitions of the two searches
  // ---------------------------------------------------------------------------

  predicate SortedInts(a: seq<int>) {
    forall i, j :: 0 <= i <= j < |a| ==> a[i] <= a[j]
  }

  /** The last index whose key is at most `target`, or 0 when no key is. */
  function LastAtMost(a: seq<int>, target: int): (i: nat)
    ensures |a| == 0 ==> i == 0
    ensures |a| > 0 ==> i < |a|
    ensures (exists k :: 0 <= k < |a| && a[k] <= target) ==> a[i] <= target && forall j :: i < j < |a| ==> a[j] > target
    ensures (forall k :: 0 <= k < |a| ==> a[k] > target) ==> i == 0
  {
    if |a| == 0 then 0
    else if a[|a| - 1] <= target then |a| - 1
    else LastAtMost(a[..|a| - 1], target)
  }

  function Dist(p: ShapePoint): real { p.distanceFromStart }

  /** The last point whose distance from the start is at most `target`, or 0 when no point's is. */
  function LastReached(pts: seq<ShapePoint>, target: real): (i: nat)
    ensures |pts| == 0 ==> i == 0
    ensures |pts| > 0 ==> i < |pts|
    ensures (exists k :: 0 <= k < |pts| && Dist(pts[k]) <= target) ==> Dist(pts[i]) <= target && forall j :: i < j < |pts| ==> Dist(pts[j]) > target
    ensures (forall k :: 0 <= k < |pts| ==> Dist(pts[k]) > target) ==> i == 0
  {
    if |pts| == 0 then 0
    else if Dist(pts[|pts| - 1]) <= target then |pts| - 1
    else LastReached(pts[..|pts| - 1], target)
  }

  // ---------------------------------------------------------------------------
  // binarySearchSegment
  // ---------------------------------------------------------------------------

  /**
   The segment whose start time was last reached. A target before the first start
   gives 0, and so does an empty array (the first comparison is then with `undefined`,
   which is false, and the loop does not run). On sorted start times the result is
   the reference index.
   */
  method BinarySearchSegment(a: seq<int>, target: int) returns (i: nat)
    ensures |a| == 0 || target < a[0] ==> i == 0
    ensures |a| > 0 ==> i < |a|
    ensures |a| > 0 && a[0] <= target ==> a[i] <= target
    ensures SortedInts(a) ==> i == LastAtMost(a, target)
  {
    if |a| > 0 && target < a[0] {
      return 0;
    }
    var low, high := 0, |a| - 1;
    while low < high
      invariant |a| == 0 ==> low == 0 && high == -1
      invariant |a| > 0 ==> 0 <= low <= high < |a| && a[low] <= target
      invariant SortedInts(a) ==> forall j :: high < j < |a| ==> a[j] > target
      decreases high - low
    {
      var mid := (low + high + 1) / 2;
      if a[mid] <= target {
        low := mid;
      } else {
        high := mid - 1;
      }
    }
    i := low;
  }

  // ---------------------------------------------------------------------------
  // findPointsForDistance
  // ---------------------------------------------------------------------------

  function Clamp01(x: real): (r: real)
    ensures 0.0 <= r <= 1.0
    ensures 0.0 <= x <= 1.0 ==> r == x
  {
    if x > 1.0 then 1.0 else if x < 0.0 then 0.0 else x
  }

  function Min(a: int, b: int): int { if a <= b then a else b }

  /** `a + t * (b - a)`. */
  function Lerp(a: real, b: real, t: real): real { a + t * (b - a) }

  /** `x` lies between `a` and `b`, whichever is larger. */
  predicate Between(a: real, b: real, x: real) {
    (a <= x <= b) || (b <= x <= a)
  }

  /** A blend with a weight in [0, 1] lies between its ends, and the ends are the weights 0 and 1. */
  lemma LerpBetween(a: real, b: real, t: real)
    ensures 0.0 <= t <= 1.0 ==> Between(a, b, Lerp(a, b, t))
    ensures t == 0.0 ==> Lerp(a, b, t) == a
    ensures t == 1.0 ==> Lerp(a, b, t) == b
  {
    if 0.0 <= t <= 1.0 {
      var d := b - a;
      MulUnit(t, d);
      assert d >= 0.0 ==> t * d <= d;
      assert a <= b ==> d >= 0.0;
      assert a <= b ==> t * d <= b - a;
      assert a <= b ==> 0.0 <= t * d;
      BetweenShift(a, b, t * d);
    }
  }

  lemma BetweenShift(a: real, b: real, x: real)
    requires a <= b ==> 0.0 <= x <= b - a
    requires b <= a ==> b - a <= x <= 0.0
    ensures Between(a, b, a + x)
  {
  }

  /** A quotient of a smaller by a larger positive number lies in [0, 1) and multiplies back. */
  lemma QuotientInUnit(n: real, d: real)
    requires 0.0 <= n < d
    ensures 0.0 <= n / d < 1.0 && n / d * d == n
  {
  }

  /** A weight in [0, 1] scales a difference towards 0 without changing its sign. */
  lemma MulUnit(t: real, d: real)
    requires 0.0 <= t <= 1.0
    ensures d >= 0.0 ==> 0.0 <= t * d <= d
    ensures d <= 0.0 ==> d <= t * d <= 0.0
  {
    assert d - t * d == (1.0 - t) * d;
  }

  /** A shape point index and the weight towards the point after it. */
  datatype PointPick = PointPick(index: nat, localT: real)

  /**
   The shape point the vehicle has reached at `target` metres into a segment and the
   weight towards the next one. The distance tests come in the source's order: fewer
   than two points give (0, 0); a target at or past the last distance gives the last
   pair at weight 1, even when the target is also at or below 0; a target at or before
   the start gives (0, 0); otherwise the last point reached, weighted by the clamped
   share of the hop to its successor that the target has covered.
   */
  function PointChoice(pts: seq<ShapePoint>, target: real): (c: PointPick)
    ensures 0.0 <= c.localT <= 1.0
    ensures |pts| < 2 ==> c == PointPick(0, 0.0)
    ensures |pts| >= 2 ==> c.index < |pts| - 1
    ensures |pts| >= 2 && target >= Dist(pts[|pts| - 1]) ==> c == PointPick(|pts| - 2, 1.0)
    ensures |pts| >= 2 && target < Dist(pts[|pts| - 1]) && target <= 0.0 ==> c == PointPick(0, 0.0)
    ensures |pts| >= 2 && 0.0 < target < Dist(pts[|pts| - 1]) ==> c.index == LastReached(pts, target)
    ensures |pts| >= 2 && 0.0 < target < Dist(pts[|pts| - 1]) && TrajectoryPrecomputer.Ascending(pts) && Dist(pts[0]) == 0.0 ==>
      (Dist(pts[c.index]) <= target < Dist(pts[c.index + 1])
       && Lerp(Dist(pts[c.index]), Dist(pts[c.index + 1]), c.localT) == target)
  {
    if |pts| < 2 then PointPick(0, 0.0)
    else if target >= Dist(pts[|pts| - 1]) then PointPick(|pts| - 2, 1.0)
    else if target <= 0.0 then PointPick(0, 0.0)
    else
      var i := LastReached(pts, target);
      var d1 := Dist(pts[i]);
      var d2 := Dist(pts[Min(i + 1, |pts| - 1)]);
      var len := d2 - d1;
      var c := PointPick(i, Clamp01(if len > 0.0 then (target - d1) / len else 0.0));
      LastReachedBrackets(pts, target);
      BlendHitsTarget(d1, d2, target);
      c
  }

  /** On ascending distances that start at 0, a target inside the shape lies between the point reached and its successor. */
  lemma LastReachedBrackets(pts: seq<ShapePoint>, target: real)
    requires |pts| >= 2 && 0.0 < target < Dist(pts[|pts| - 1])
    ensures LastReached(pts, target) + 1 < |pts|
    ensures TrajectoryPrecomputer.Ascending(pts) && Dist(pts[0]) == 0.0 ==>
      Dist(pts[LastReached(pts, target)]) <= target < Dist(pts[LastReached(pts, target) + 1])
  {
    if TrajectoryPrecomputer.Ascending(pts) && Dist(pts[0]) == 0.0 {
      assert Dist(pts[0]) <= target;
    }
  }

  /**
   The shape point to blend from and the weight towards the next one. Fewer than
   two points, or a target at or before the start, give (0, 0); a target at or past
   the last distance gives the last pair at weight 1. Otherwise the index is the
   last point reached, and on a shape whose distances start at 0 and never decrease
   the pair brackets the target and the blend of their distances is the target itself.
   */
  method FindPointsForDistance(pts: seq<ShapePoint>, target: real) returns (pointIndex: nat, localT: real)
    ensures 0.0 <= localT <= 1.0
    ensures |pts| < 2 ==> pointIndex == 0 && localT == 0.0
    ensures |pts| >= 2 ==> pointIndex < |pts|
    ensures |pts| >= 2 && target >= Dist(pts[|pts| - 1]) ==> pointIndex == |pts| - 2 && localT == 1.0
    ensures |pts| >= 2 && target < Dist(pts[|pts| - 1]) && target <= 0.0 ==> pointIndex == 0 && localT == 0.0
    ensures |pts| >= 2 && 0.0 < target < Dist(pts[|pts| - 1]) && TrajectoryPrecomputer.Ascending(pts) ==>
      pointIndex == LastReached(pts, target)
    ensures |pts| >= 2 && 0.0 < target < Dist(pts[|pts| - 1]) && TrajectoryPrecomputer.Ascending(pts) && Dist(pts[0]) == 0.0 ==>
      (pointIndex + 1 < |pts|
       && Dist(pts[pointIndex]) <= target < Dist(pts[pointIndex + 1])
       && Lerp(Dist(pts[pointIndex]), Dist(pts[pointIndex + 1]), localT) == target)
    ensures TrajectoryPrecomputer.Ascending(pts) ==> PointPick(pointIndex, localT) == PointChoice(pts, target)
  {
    if |pts| < 2 {
      return 0, 0.0;
    }
    var total := Dist(pts[|pts| - 1]);
    if target >= total {
      return |pts| - 2, 1.0;
    }
    if target <= 0.0 {
      return 0, 0.0;
    }
    pointIndex := SearchDistance(pts, target);
    var p1 := pts[pointIndex];
    var p2 := pts[Min(pointIndex + 1, |pts| - 1)];
    var segmentLength := Dist(p2) - Dist(p1);
    var t := if segmentLength > 0.0 then (target - Dist(p1)) / segmentLength else 0.0;
    localT := Clamp01(t);
    if TrajectoryPrecomputer.Ascending(pts) {
      SearchIsLastReached(pts, target, pointIndex);
      if Dist(pts[0]) == 0.0 {
        BlendHitsTarget(Dist(p1), Dist(p2), target);
      }
    }
  }

  /** The binary search proper: an upper bound by distance. */
  method SearchDistance(pts: seq<ShapePoint>, target: real) returns (low: nat)
    requires |pts| > 0
    ensures low < |pts|
    ensures low == 0 || Dist(pts[low]) <= target
    ensures TrajectoryPrecomputer.Ascending(pts) ==> forall j :: low < j < |pts| ==> Dist(pts[j]) > target
  {
    low := 0;
    var high := |pts| - 1;
    while low < high
      invariant 0 <= low <= high < |pts|
      invariant low == 0 || Dist(pts[low]) <= target
      invariant TrajectoryPrecomputer.Ascending(pts) ==> forall j :: high < j < |pts| ==> Dist(pts[j]) > target
      decreases high - low
    {
      var mid := (low + high + 1) / 2;
      if Dist(pts[mid]) <= target {
        low := mid;
      } else {
        high := mid - 1;
      }
    }
  }

  /** On ascending distances the search result is the reference index, and it has a successor when the target lies inside the shape. */
  lemma SearchIsLastReached(pts: seq<ShapePoint>, target: real, low: nat)
    requires TrajectoryPrecomputer.Ascending(pts)
    requires low < |pts| && (low == 0 || Dist(pts[low]) <= target)
    requires forall j :: low < j < |pts| ==> Dist(pts[j]) > target
    ensures low == LastReached(pts, target)
    ensures Dist(pts[0]) <= target < Dist(pts[|pts| - 1]) ==> low + 1 < |pts| && Dist(pts[low]) <= target < Dist(pts[low + 1])
  {
    var i := LastReached(pts, target);
    if Dist(pts[low]) <= target {
      assert i == low;
    } else {
      assert low == 0;
      assert forall k :: 0 <= k < |pts| ==> Dist(pts[k]) > target;
    }
  }

  /** Within a bracket the weight of the target, blended back, gives the target. */
  lemma BlendHitsTarget(d1: real, d2: real, target: real)
    ensures d1 <= target < d2 ==> Lerp(d1, d2, Clamp01((target - d1) / (d2 - d1))) == target
  {
    if d1 <= target < d2 {
      QuotientInUnit(target - d1, d2 - d1);
    }
  }

  // ---------------------------------------------------------------------------
  // linearInterpolate
  // ---------------------------------------------------------------------------

  /** A position and the heading shown there. */
  datatype Placement = Placement(position: Coord, bearing: real)

  /** `p` lies in the box spanned by `a` and `b`. */
  predicate Within(a: Coord, b: Coord, p: Coord) {
    Between(a.lon, b.lon, p.lon) && Between(a.lat, b.lat, p.lat)
  }

  function PointCoord(p: ShapePoint): Coord { Coord(p.lon, p.lat) }

  /**
   The straight-line fallback: the blend of the two stop coordinates at weight t,
   headed as the segment's first shape point, or north when it has none.
   */
  function LinearInterpolate(seg: TripSegment, t: real): (r: Placement)
    ensures r.bearing == if |seg.shapePoints| > 0 then seg.shapePoints[0].bearing else 0.0
    ensures 0.0 <= t <= 1.0 ==> Within(seg.fromCoord, seg.toCoord, r.position)
    ensures t == 0.0 ==> r.position == seg.fromCoord
    ensures t == 1.0 ==> r.position == seg.toCoord
  {
    var lon := Lerp(seg.fromCoord.lon, seg.toCoord.lon, t);
    var lat := Lerp(seg.fromCoord.lat, seg.toCoord.lat, t);
    LerpBetween(seg.fromCoord.lon, seg.toCoord.lon, t);
    LerpBetween(seg.fromCoord.lat, seg.toCoord.lat, t);
    Placement(Coord(lon, lat), if |seg.shapePoints| > 0 then seg.shapePoints[0].bearing else 0.0)
  }

  // ---------------------------------------------------------------------------
  // interpolateOnTrajectory
  // ---------------------------------------------------------------------------

  /** A negative elapsed time counts as 0. */
  function ClampElapsed(elapsed: int): nat { if elapsed < 0 then 0 else elapsed }

  /**
   The fraction of a leg from `start` to `end` covered at time `e`: 0 before it
   starts and for a leg without duration, 1 once it has ended, and in between the
   exact fraction of its duration.
   */
  function LegFraction(start: int, end: int, e: int): (t: real)
    ensures 0.0 <= t <= 1.0
    ensures end <= start ==> t == 0.0
    ensures e <= start ==> t == 0.0
    ensures start < end <= e ==> t == 1.0
    ensures start <= e <= end && start < end ==> start as real + t * (end - start) as real == e as real
  {
    var duration := end - start;
    if duration > 0 then
      var x := (e - start) as real / duration as real;
      Fraction(e - start, duration);
      Clamp01(x)
    else 0.0
  }

  /** A quotient of integers by a positive one: its sign and size, and that it multiplies back. */
  lemma Fraction(n: int, d: int)
    requires d > 0
    ensures n <= 0 ==> n as real / d as real <= 0.0
    ensures 0 <= n <= d ==> 0.0 <= n as real / d as real <= 1.0
    ensures n >= d ==> n as real / d as real >= 1.0
    ensures n as real / d as real * d as real == n as real
  {
  }

  /** Overall progress: the elapsed share of the trip's duration, or 0 for a trip without duration. */
  function Progress(e: int, total: int): (p: real)
    ensures total <= 0 ==> p == 0.0
    ensures 0 <= e <= total ==> 0.0 <= p <= 1.0
    ensures 0 < total ==> p * total as real == e as real
  {
    if total > 0 then e as real / total as real else 0.0
  }

  /** Progress never decreases as time goes on. */
  lemma ProgressMonotone(e1: int, e2: int, total: int)
    requires e1 <= e2
    ensures Progress(e1, total) <= Progress(e2, total)
  {
    if total > 0 {
      var d := total as real;
      Fraction(e2 - e1, total);
      assert (e2 - e1) as real / d == e2 as real / d - e1 as real / d;
    }
  }

  /**
   The position and heading lie where the segment puts them: for a segment without
   a usable shape, in the box of its two stops with the fallback heading; otherwise
   in the box of two consecutive shape points (the last point paired with itself),
   headed as the first of them.
   */
  ghost predicate OnSegment(seg: TripSegment, p: Placement) {
    var pts := seg.shapePoints;
    if |pts| < 2 then
      Within(seg.fromCoord, seg.toCoord, p.position) && p.bearing == (if |pts| > 0 then pts[0].bearing else 0.0)
    else
      exists k :: 0 <= k < |pts| && Within(PointCoord(pts[k]), PointCoord(pts[Min(k + 1, |pts| - 1)]), p.position) && p.bearing == pts[k].bearing
  }

  /** The blend between the chosen shape point and its successor (the last point paired with itself), headed as the chosen point. */
  function ShapeBlend(pts: seq<ShapePoint>, c: PointPick): Placement
    requires c.index < |pts|
  {
    var p1 := pts[c.index];
    var p2 := pts[Min(c.index + 1, |pts| - 1)];
    Placement(Coord(Lerp(p1.lon, p2.lon, c.localT), Lerp(p1.lat, p2.lat, c.localT)), p1.bearing)
  }

  /**
   Where the segment puts a vehicle that has covered the fraction `t` of it: without
   a usable shape, the straight-line fallback; on a shape whose distances never
   decrease, the blend at the point chosen for `t` times the segment's length.
   */
  ghost predicate PlacedAt(seg: TripSegment, t: real, p: Placement) {
    var pts := seg.shapePoints;
    if |pts| < 2 then p == LinearInterpolate(seg, t)
    else TrajectoryPrecomputer.Ascending(pts) ==>
      PointChoice(pts, t * seg.segmentDistance).index < |pts|
      && p == ShapeBlend(pts, PointChoice(pts, t * seg.segmentDistance))
  }

  /** The shape path of the interpolation: the blend between the point reached at `t` times the segment's length and its successor. */
  method PlaceOnShape(seg: TripSegment, t: real) returns (placed: Placement)
    requires |seg.shapePoints| >= 2
    ensures OnSegment(seg, placed)
    ensures PlacedAt(seg, t, placed)
  {
    var pts := seg.shapePoints;
    var pointIndex, localT := FindPointsForDistance(pts, t * seg.segmentDistance);
    var p1 := pts[pointIndex];
    var p2 := pts[Min(pointIndex + 1, |pts| - 1)];
    LerpBetween(p1.lon, p2.lon, localT);
    LerpBetween(p1.lat, p2.lat, localT);
    placed := Placement(Coord(Lerp(p1.lon, p2.lon, localT), Lerp(p1.lat, p2.lat, localT)), p1.bearing);
    assert Within(PointCoord(pts[pointIndex]), PointCoord(pts[Min(pointIndex + 1, |pts| - 1)]), placed.position);
    assert placed == ShapeBlend(pts, PointPick(pointIndex, localT));
  }

  /**
   The position of a vehicle `elapsed` seconds into its trip. There is none for a
   trajectory without segments or once the elapsed time exceeds the trip's duration;
   for a trajectory whose start times run parallel to its segments there is one at
   every other time. The result names the next stop of the segment reached, reports
   the segment's covered fraction and the trip's progress, and lies on that segment.
   */
  method InterpolateOnTrajectory(tr: PrecomputedTrajectory, elapsed: int) returns (r: Option<InterpolationResult>)
    ensures |tr.segments| == 0 ==> r == None
    ensures ClampElapsed(elapsed) > tr.totalDuration ==> r == None
    ensures |tr.segments| > 0 && ClampElapsed(elapsed) <= tr.totalDuration && |tr.segmentStartTimes| <= |tr.segments| ==> r.Some?
    ensures r.Some? ==> r.value.progress == Progress(ClampElapsed(elapsed), tr.totalDuration)
    ensures r.Some? ==> exists i :: (0 <= i < |tr.segments|
      && r.value.nextStopId == tr.segments[i].toStopId
      && r.value.segmentProgress == LegFraction(tr.segments[i].startTime, tr.segments[i].endTime, ClampElapsed(elapsed))
      && OnSegment(tr.segments[i], Placement(r.value.position, r.value.bearing))
      && PlacedAt(tr.segments[i], r.value.segmentProgress, Placement(r.value.position, r.value.bearing)))
    ensures r.Some? && |tr.segmentStartTimes| == |tr.segments| && SortedInts(tr.segmentStartTimes) ==>
      var i := LastAtMost(tr.segmentStartTimes, ClampElapsed(elapsed));
      && r.value.nextStopId == tr.segments[i].toStopId
      && r.value.segmentProgress == LegFraction(tr.segments[i].startTime, tr.segments[i].endTime, ClampElapsed(elapsed))
      && OnSegment(tr.segments[i], Placement(r.value.position, r.value.bearing))
      && PlacedAt(tr.segments[i], r.value.segmentProgress, Placement(r.value.position, r.value.bearing))
  {
    if |tr.segments| == 0 {
      return None;
    }
    var e := ClampElapsed(elapsed);
    if e > tr.totalDuration {
      return None;
    }
    var index := BinarySearchSegment(tr.segmentStartTimes, e);
    if index >= |tr.segments| {
      return None;
    }
    var seg := tr.segments[index];
    var t := LegFraction(seg.startTime, seg.endTime, e);
    var placed: Placement;
    if |seg.shapePoints| < 2 {
      placed := LinearInterpolate(seg, t);
    } else {
      placed := PlaceOnShape(seg, t);
    }
    r := Some(InterpolationResult(placed.position, placed.bearing, seg.toStopId, Progress(e, tr.totalDuration), t));
  }
}
