/**
 The precomputation pass of the viewer: shape points are sorted and annotated with
 the distance travelled from the shape's start, every stop of a trip is snapped
 forward onto its shape, the shape is cut into one piece per leg between
 consecutive stops, and each trip becomes a trajectory with parallel arrays of
 segments and segment start times.
 */
module TrajectoryPrecomputer {
  import opened Wrappers
  import opened SeqUtils
  import opened GtfsTypes
  import opened GtfsTime

  /** A stop farther than this many metres from the shape is not snapped onto it. */
  const MaxSnapDistance: real := 500.0

  // ---------------------------------------------------------------------------
  // processShape
  // ---------------------------------------------------------------------------

  function SequenceOf(p: GtfsShape): int { p.shapePtSequence }

  /** The great-circle distance from one raw shape point to another. */
  function Hop(geo: Geo, a: GtfsShape, b: GtfsShape): real {
    geo.distance(a.shapePtLat, a.shapePtLon, b.shapePtLat, b.shapePtLon)
  }

  /** Metres travelled along `s` from its first point to its i-th. */
  function Travelled(geo: Geo, s: seq<GtfsShape>, i: nat): (d: real)
    requires i < |s|
    ensures d >= 0.0
  {
    if i == 0 then 0.0 else Travelled(geo, s, i - 1) + Hop(geo, s[i - 1], s[i])
  }

  /** The distance travelled never decreases along the shape. */
  lemma {:induction false} TravelledMonotone(geo: Geo, s: seq<GtfsShape>, i: nat, j: nat)
    requires i <= j < |s|
    ensures Travelled(geo, s, i) <= Travelled(geo, s, j)
    decreases j - i
  {
    if i < j {
      TravelledMonotone(geo, s, i, j - 1);
    }
  }

  lemma {:induction false} TravelledAscending(geo: Geo, s: seq<GtfsShape>)
    ensures forall i, j :: 0 <= i <= j < |s| ==> Travelled(geo, s, i) <= Travelled(geo, s, j)
  {
    forall i, j | 0 <= i <= j < |s|
      ensures Travelled(geo, s, i) <= Travelled(geo, s, j)
    {
      TravelledMonotone(geo, s, i, j);
    }
  }

  /** Heading at point i: towards the next point, from the previous one at the end, 0 for a lone point. */
  function HeadingAt(geo: Geo, s: seq<GtfsShape>, i: nat): real
    requires i < |s|
  {
    if i < |s| - 1 then geo.bearing(s[i].shapePtLat, s[i].shapePtLon, s[i + 1].shapePtLat, s[i + 1].shapePtLon)
    else if i > 0 then geo.bearing(s[i - 1].shapePtLat, s[i - 1].shapePtLon, s[i].shapePtLat, s[i].shapePtLon)
    else 0.0
  }

  /** The sorted points annotated with distance travelled and heading. */
  function Annotate(geo: Geo, s: seq<GtfsShape>): (r: seq<ShapePoint>)
    ensures |r| == |s|
    ensures forall i :: 0 <= i < |r| ==> r[i] == ShapePoint(s[i].shapePtLon, s[i].shapePtLat, Travelled(geo, s, i), HeadingAt(geo, s, i))
  {
    seq(|s|, i requires 0 <= i < |s| =>
      ShapePoint(s[i].shapePtLon, s[i].shapePtLat, Travelled(geo, s, i), HeadingAt(geo, s, i)))
  }

  /** Annotated points start at 0 and each adds the hop from the point before it. */
  lemma {:induction false} AnnotateHops(geo: Geo, s: seq<GtfsShape>)
    ensures var r := Annotate(geo, s);
      && (|r| > 0 ==> r[0].distanceFromStart == 0.0)
      && (forall i :: 0 < i < |r| ==> r[i].distanceFromStart == r[i - 1].distanceFromStart + Hop(geo, s[i - 1], s[i]))
  {
  }

  /** Annotated points never go back and head somewhere in [0, 360). */
  lemma {:induction false} AnnotateAscending(geo: Geo, s: seq<GtfsShape>)
    ensures var r := Annotate(geo, s);
      && Ascending(r)
      && (forall i :: 0 <= i < |r| ==> 0.0 <= r[i].bearing < 360.0)
  {
    TravelledAscending(geo, s);
    var r := Annotate(geo, s);
    assert forall i :: 0 <= i < |r| ==> r[i].distanceFromStart == Travelled(geo, s, i);
  }

  /**
   `processShape`: the points in ascending `shape_pt_sequence` order (a stable sort),
   each with its coordinates, the distance accumulated from the first point and its heading.
   */
  function ProcessShape(geo: Geo, pts: seq<GtfsShape>): (r: seq<ShapePoint>)
    ensures |r| == |pts|
    ensures var s := SortBy(pts, SequenceOf);
      forall i :: 0 <= i < |r| ==> r[i].lon == s[i].shapePtLon && r[i].lat == s[i].shapePtLat
    ensures |r| > 0 ==> r[0].distanceFromStart == 0.0
    ensures var s := SortBy(pts, SequenceOf);
      forall i :: 0 < i < |r| ==> r[i].distanceFromStart == r[i - 1].distanceFromStart + Hop(geo, s[i - 1], s[i])
    ensures Ascending(r)
    ensures forall i :: 0 <= i < |r| ==> 0.0 <= r[i].bearing < 360.0
  {
    var s := SortBy(pts, SequenceOf);
    AnnotateHops(geo, s);
    AnnotateAscending(geo, s);
    Annotate(geo, s)
  }

  /** Cumulative distances that never decrease. */
  ghost predicate Ascending(pts: seq<ShapePoint>) {
    forall i, j :: 0 <= i <= j < |pts| ==> pts[i].distanceFromStart <= pts[j].distanceFromStart
  }

  // ---------------------------------------------------------------------------
  // findNearestShapePointIndex
  // ---------------------------------------------------------------------------

  /** The closest point found and its distance; `None` is the `Infinity` left when nothing was scanned. */
  datatype Nearest = Nearest(index: nat, distance: Option<real>)

  function DistanceTo(geo: Geo, c: Coord, p: ShapePoint): real {
    geo.distance(c.lat, c.lon, p.lat, p.lon)
  }

  /** The scan's early exit: the distance has grown past three times the best and we are ten points past it. */
  predicate GivesUp(d: real, min: real, i: nat, best: nat) {
    d > min * 3.0 && i > best + 10
  }

  /** Where a scan from `start` stands after looking at the points before `i`. */
  ghost predicate ScanState(geo: Geo, c: Coord, pts: seq<ShapePoint>, start: nat, i: nat, best: nat, min: Option<real>) {
    && start <= i <= |pts|
    && (i == start ==> min.None? && best == start)
    && (i > start ==>
          && min.Some? && start <= best < i
          && min.value == DistanceTo(geo, c, pts[best])
          && (forall j :: start <= j < i ==> min.value <= DistanceTo(geo, c, pts[j]))
          && (forall j :: start <= j < best ==> DistanceTo(geo, c, pts[j]) > min.value))
  }

  datatype Scan = Scan(best: nat, min: Option<real>, end: nat)

  function ScanFrom(geo: Geo, c: Coord, pts: seq<ShapePoint>, start: nat, i: nat, best: nat, min: Option<real>): (r: Scan)
    requires ScanState(geo, c, pts, start, i, best, min)
    ensures i <= r.end <= |pts|
    ensures ScanState(geo, c, pts, start, r.end, r.best, r.min)
    ensures r.end < |pts| ==> r.end > start && GivesUp(DistanceTo(geo, c, pts[r.end - 1]), r.min.value, r.end - 1, r.best)
    decreases |pts| - i
  {
    if i >= |pts| then Scan(best, min, i)
    else
      var d := DistanceTo(geo, c, pts[i]);
      var better := min.None? || d < min.value;
      var best' := if better then i else best;
      var min' := if better then Some(d) else min;
      if GivesUp(d, min'.value, i, best') then Scan(best', min', i + 1)
      else ScanFrom(geo, c, pts, start, i + 1, best', min')
  }

  /** How far the scan from `start` gets before it stops: one past the last point it looked at. */
  function ScanEnd(geo: Geo, c: Coord, pts: seq<ShapePoint>, start: nat): (e: nat)
    ensures start < |pts| ==> start < e <= |pts|
  {
    if start >= |pts| then start else ScanFrom(geo, c, pts, start, start, start, None).end
  }

  /**
   `findNearestShapePointIndex`: a forward scan from `startIndex` for the first point at
   the smallest distance, which may stop early, so the minimum is only over what it scanned.
   */
  function FindNearestShapePointIndex(geo: Geo, c: Coord, pts: seq<ShapePoint>, start: nat): (r: Nearest)
    ensures start >= |pts| ==> r == Nearest(start, None)
    ensures start < |pts| ==>
      && start <= r.index < |pts|
      && r.distance == Some(DistanceTo(geo, c, pts[r.index]))
    ensures start < |pts| ==>
      var e := ScanEnd(geo, c, pts, start);
      && r.index < e
      && (forall j :: start <= j < e ==> r.distance.value <= DistanceTo(geo, c, pts[j]))
      && (forall j :: start <= j < r.index ==> DistanceTo(geo, c, pts[j]) > r.distance.value)
      && (e < |pts| ==> GivesUp(DistanceTo(geo, c, pts[e - 1]), r.distance.value, e - 1, r.index))
  {
    if start >= |pts| then Nearest(start, None)
    else
      var s := ScanFrom(geo, c, pts, start, start, start, None);
      Nearest(s.best, s.min)
  }

  /** When the scan runs to the end of the shape, the point found is a true nearest point. */
  lemma NearestWhenScannedToEnd(geo: Geo, c: Coord, pts: seq<ShapePoint>, start: nat)
    requires start < |pts| && ScanEnd(geo, c, pts, start) == |pts|
    ensures var r := FindNearestShapePointIndex(geo, c, pts, start);
      forall j :: start <= j < |pts| ==> r.distance.value <= DistanceTo(geo, c, pts[j])
  {
  }

  // ---------------------------------------------------------------------------
  // mapStopsToShapeSegments, first pass: one shape index per stop
  // ---------------------------------------------------------------------------

  /** The shape index of one stop, given the index of the stop before it. */
  function SnapIndex(geo: Geo, stops: map<string, GtfsStop>, st: GtfsStopTime, pts: seq<ShapePoint>, last: nat): (k: nat)
    requires last < |pts|
    ensures last <= k < |pts|
    ensures st.stopId !in stops ==> k == last
    ensures st.stopId in stops ==>
      var n := FindNearestShapePointIndex(geo, StopCoord(stops[st.stopId]), pts, last);
      k == if n.distance.value > MaxSnapDistance then last else n.index
  {
    if st.stopId !in stops then last
    else
      var n := FindNearestShapePointIndex(geo, StopCoord(stops[st.stopId]), pts, last);
      if n.distance.None? || n.distance.value > MaxSnapDistance then last else n.index
  }

  /**
   The shape index of every stop: one per stop, never decreasing, inside the shape,
   each one the snap of its stop starting from the index of the stop before.
   */
  function StopShapeIndices(geo: Geo, sts: seq<GtfsStopTime>, pts: seq<ShapePoint>, stops: map<string, GtfsStop>, last: nat): (r: seq<nat>)
    requires last < |pts|
    ensures |r| == |sts|
    ensures forall i :: 0 <= i < |r| ==> last <= r[i] < |pts|
    ensures forall i, j :: 0 <= i <= j < |r| ==> r[i] <= r[j]
    ensures forall i :: 0 <= i < |r| ==> r[i] == SnapIndex(geo, stops, sts[i], pts, if i == 0 then last else r[i - 1])
    decreases |sts|
  {
    if |sts| == 0 then []
    else
      var k := SnapIndex(geo, stops, sts[0], pts, last);
      [k] + StopShapeIndices(geo, sts[1..], pts, stops, k)
  }

  // ---------------------------------------------------------------------------
  // Segments
  // ---------------------------------------------------------------------------

  /** Every leg carries at least two points, starts at distance 0 and ends at its own length. */
  predicate WellFormed(seg: TripSegment) {
    && |seg.shapePoints| >= 2
    && seg.shapePoints[0].distanceFromStart == 0.0
    && seg.shapePoints[|seg.shapePoints| - 1].distanceFromStart == seg.segmentDistance
  }

  /** How the legs of a trip get their points: straight lines, or cut from a shape at per-stop indices. */
  datatype Snap = Linear | Snapped(points: seq<ShapePoint>, indices: seq<nat>)

  predicate SnapFits(snap: Snap, n: nat) {
    snap.Snapped? ==> |snap.indices| == n && forall i :: 0 <= i < n ==> snap.indices[i] < |snap.points|
  }

  /** The two-point straight leg from one stop to the next. */
  function StraightLeg(geo: Geo, fromSt: GtfsStopTime, toSt: GtfsStopTime, fromStop: GtfsStop, toStop: GtfsStop, first: int): (seg: TripSegment)
    ensures WellFormed(seg) && seg.segmentDistance >= 0.0
    ensures seg.fromCoord == StopCoord(fromStop) && seg.toCoord == StopCoord(toStop)
    ensures |seg.shapePoints| == 2
    ensures seg.shapePoints[0].lon == seg.fromCoord.lon && seg.shapePoints[0].lat == seg.fromCoord.lat
    ensures seg.shapePoints[1].lon == seg.toCoord.lon && seg.shapePoints[1].lat == seg.toCoord.lat
  {
    var a, b := StopCoord(fromStop), StopCoord(toStop);
    var distance := geo.distance(a.lat, a.lon, b.lat, b.lon);
    var bearing := geo.bearing(a.lat, a.lon, b.lat, b.lon);
    TripSegment(
      fromSt.stopId, toSt.stopId,
      ParseGtfsTime(fromSt.departureTime) - first,
      ParseGtfsTime(toSt.arrivalTime) - first,
      [ShapePoint(a.lon, a.lat, 0.0, bearing), ShapePoint(b.lon, b.lat, distance, bearing)],
      distance, a, b)
  }

  /** Shape points with their distances measured from `origin` instead. */
  function Rebase(pts: seq<ShapePoint>, origin: real): seq<ShapePoint> {
    seq(|pts|, i requires 0 <= i < |pts| => pts[i].(distanceFromStart := pts[i].distanceFromStart - origin))
  }

  /** The leg cut from the shape between indices a and b, inclusive, with distances restarted at 0. */
  function ShapeLeg(fromSt: GtfsStopTime, toSt: GtfsStopTime, fromStop: GtfsStop, toStop: GtfsStop, first: int,
                    pts: seq<ShapePoint>, a: nat, b: nat): (seg: TripSegment)
    requires a < b < |pts|
    ensures WellFormed(seg)
    ensures |seg.shapePoints| == b - a + 1
    ensures forall i :: 0 <= i < |seg.shapePoints| ==>
      var p, q := seg.shapePoints[i], pts[a + i];
      p.lon == q.lon && p.lat == q.lat && p.bearing == q.bearing
      && p.distanceFromStart == q.distanceFromStart - pts[a].distanceFromStart
    ensures seg.segmentDistance == pts[b].distanceFromStart - pts[a].distanceFromStart
    ensures Ascending(pts) ==> seg.segmentDistance >= 0.0
  {
    var cut := Rebase(pts[a..b + 1], pts[a].distanceFromStart);
    TripSegment(
      fromSt.stopId, toSt.stopId,
      ParseGtfsTime(fromSt.departureTime) - first,
      ParseGtfsTime(toSt.arrivalTime) - first,
      cut, cut[|cut| - 1].distanceFromStart,
      StopCoord(fromStop), StopCoord(toStop))
  }

  /** Both stops of the pair (i, i + 1) are known. */
  predicate Resolves(sts: seq<GtfsStopTime>, stops: map<string, GtfsStop>, i: nat)
    requires i + 1 < |sts|
  {
    sts[i].stopId in stops && sts[i + 1].stopId in stops
  }

  /** The leg of the pair (i, i + 1): cut from the shape when the stop indices advance, straight otherwise. */
  function LegAt(geo: Geo, sts: seq<GtfsStopTime>, stops: map<string, GtfsStop>, first: int, snap: Snap, i: nat): (seg: TripSegment)
    requires i + 1 < |sts| && Resolves(sts, stops, i) && SnapFits(snap, |sts|)
    ensures WellFormed(seg)
    ensures seg.fromStopId == sts[i].stopId && seg.toStopId == sts[i + 1].stopId
    ensures seg.startTime == ParseGtfsTime(sts[i].departureTime) - first
    ensures seg.endTime == ParseGtfsTime(sts[i + 1].arrivalTime) - first
    ensures seg.fromCoord == StopCoord(stops[sts[i].stopId]) && seg.toCoord == StopCoord(stops[sts[i + 1].stopId])
    ensures (snap.Linear? || Ascending(snap.points)) ==> seg.segmentDistance >= 0.0
  {
    var fromStop, toStop := stops[sts[i].stopId], stops[sts[i + 1].stopId];
    if snap.Snapped? && snap.indices[i + 1] > snap.indices[i] then
      ShapeLeg(sts[i], sts[i + 1], fromStop, toStop, first, snap.points, snap.indices[i], snap.indices[i + 1])
    else StraightLeg(geo, sts[i], sts[i + 1], fromStop, toStop, first)
  }

  /** The pairs (k, k + 1) with k >= i whose two stops are both known, in order. */
  function ResolvedPairs(sts: seq<GtfsStopTime>, stops: map<string, GtfsStop>, i: nat): (r: seq<nat>)
    ensures forall j :: 0 <= j < |r| ==> i <= r[j] && r[j] + 1 < |sts| && Resolves(sts, stops, r[j])
    decreases |sts| - i
  {
    if i + 1 >= |sts| then []
    else (if Resolves(sts, stops, i) then [i] else []) + ResolvedPairs(sts, stops, i + 1)
  }

  ghost predicate Increasing(r: seq<nat>) {
    forall j, l :: 0 <= j < l < |r| ==> r[j] < r[l]
  }

  lemma ConsIncreasing(x: nat, s: seq<nat>)
    requires Increasing(s) && forall k :: 0 <= k < |s| ==> x < s[k]
    ensures Increasing([x] + s)
  {
    var r := [x] + s;
    forall j, l | 0 <= j < l < |r| ensures r[j] < r[l] {
      assert r[l] == s[l - 1];
      if j > 0 {
        assert r[j] == s[j - 1];
      }
    }
  }

  /** The resolved pairs are strictly increasing. */
  lemma {:induction false} ResolvedPairsIncreasing(sts: seq<GtfsStopTime>, stops: map<string, GtfsStop>, i: nat)
    ensures Increasing(ResolvedPairs(sts, stops, i))
    decreases |sts| - i
  {
    if i + 1 < |sts| {
      ResolvedPairsIncreasing(sts, stops, i + 1);
      var later := ResolvedPairs(sts, stops, i + 1);
      if Resolves(sts, stops, i) {
        ConsIncreasing(i, later);
      } else {
        assert ResolvedPairs(sts, stops, i) == later;
      }
    } else {
      assert ResolvedPairs(sts, stops, i) == [];
    }
  }

  /** No pair whose two stops are known is missing, and there is at most one entry per pair. */
  lemma {:induction false} ResolvedPairsComplete(sts: seq<GtfsStopTime>, stops: map<string, GtfsStop>, i: nat)
    ensures var r := ResolvedPairs(sts, stops, i);
      && (forall k :: i <= k && k + 1 < |sts| && Resolves(sts, stops, k) ==> k in r)
      && (i < |sts| ==> |r| <= |sts| - 1 - i)
    decreases |sts| - i
  {
    if i + 1 < |sts| {
      ResolvedPairsComplete(sts, stops, i + 1);
      var later := ResolvedPairs(sts, stops, i + 1);
      var r := ResolvedPairs(sts, stops, i);
      assert r == (if Resolves(sts, stops, i) then [i] else []) + later;
      forall k | i <= k && k + 1 < |sts| && Resolves(sts, stops, k) ensures k in r {
        if k > i {
          assert k in later;
        }
      }
    }
  }

  /** When every stop is known there is exactly one entry per consecutive pair. */
  lemma {:induction false} ResolvedPairsAll(sts: seq<GtfsStopTime>, stops: map<string, GtfsStop>, i: nat)
    requires i < |sts|
    requires forall k :: i <= k && k + 1 < |sts| ==> Resolves(sts, stops, k)
    ensures |ResolvedPairs(sts, stops, i)| == |sts| - 1 - i
    decreases |sts| - i
  {
    if i + 1 < |sts| {
      ResolvedPairsAll(sts, stops, i + 1);
    }
  }

  /** The legs of the given pairs, in the order given. */
  function LegsOver(geo: Geo, sts: seq<GtfsStopTime>, stops: map<string, GtfsStop>, first: int, snap: Snap, pairs: seq<nat>): (r: seq<TripSegment>)
    requires SnapFits(snap, |sts|)
    requires forall j :: 0 <= j < |pairs| ==> pairs[j] + 1 < |sts| && Resolves(sts, stops, pairs[j])
    ensures |r| == |pairs|
    decreases |pairs|
  {
    if |pairs| == 0 then []
    else [LegAt(geo, sts, stops, first, snap, pairs[0])] + LegsOver(geo, sts, stops, first, snap, pairs[1..])
  }

  /** Leg j of the list is the leg of pair j. */
  lemma {:induction false} LegsOverAt(geo: Geo, sts: seq<GtfsStopTime>, stops: map<string, GtfsStop>, first: int, snap: Snap, pairs: seq<nat>)
    requires SnapFits(snap, |sts|)
    requires forall j :: 0 <= j < |pairs| ==> pairs[j] + 1 < |sts| && Resolves(sts, stops, pairs[j])
    ensures var r := LegsOver(geo, sts, stops, first, snap, pairs);
      forall j :: 0 <= j < |r| ==> r[j] == LegAt(geo, sts, stops, first, snap, pairs[j])
    decreases |pairs|
  {
    if |pairs| > 0 {
      LegsOverAt(geo, sts, stops, first, snap, pairs[1..]);
      var r := LegsOver(geo, sts, stops, first, snap, pairs);
      var rest := LegsOver(geo, sts, stops, first, snap, pairs[1..]);
      forall j | 1 <= j < |r| ensures r[j] == LegAt(geo, sts, stops, first, snap, pairs[j]) {
        assert r[j] == rest[j - 1] && pairs[j] == pairs[1..][j - 1];
      }
    }
  }

  /**
   The legs from pair i on, as the loop over the stop times builds them: a pair whose
   two stops are both known contributes its leg, any other pair is skipped. These are
   exactly the legs of the resolved pairs.
   */
  function LegsFrom(geo: Geo, sts: seq<GtfsStopTime>, stops: map<string, GtfsStop>, first: int, snap: Snap, i: nat): (r: seq<TripSegment>)
    requires SnapFits(snap, |sts|)
    ensures r == LegsOver(geo, sts, stops, first, snap, ResolvedPairs(sts, stops, i))
    decreases |sts| - i
  {
    if i + 1 >= |sts| then []
    else
      var rest := LegsFrom(geo, sts, stops, first, snap, i + 1);
      var pairs, later := ResolvedPairs(sts, stops, i), ResolvedPairs(sts, stops, i + 1);
      if Resolves(sts, stops, i) then
        assert pairs == [i] + later && pairs[0] == i && pairs[1..] == later;
        [LegAt(geo, sts, stops, first, snap, i)] + rest
      else
        assert pairs == later;
        rest
  }

  /** `createLinearSegments`: straight legs between every pair of known consecutive stops. */
  function CreateLinearSegments(geo: Geo, sts: seq<GtfsStopTime>, stops: map<string, GtfsStop>): (r: seq<TripSegment>)
    requires |sts| > 0
    ensures var pairs := ResolvedPairs(sts, stops, 0);
      && |r| == |pairs|
      && forall j :: 0 <= j < |r| ==>
        r[j] == StraightLeg(geo, sts[pairs[j]], sts[pairs[j] + 1], stops[sts[pairs[j]].stopId], stops[sts[pairs[j] + 1].stopId],
                            ParseGtfsTime(sts[0].departureTime))
  {
    var first := ParseGtfsTime(sts[0].departureTime);
    LegsOverAt(geo, sts, stops, first, Linear, ResolvedPairs(sts, stops, 0));
    LegsFrom(geo, sts, stops, first, Linear, 0)
  }

  /** The way a trip's legs are drawn: straight with fewer than two shape points, else snapped onto the shape. */
  function SnapFor(geo: Geo, sts: seq<GtfsStopTime>, pts: seq<ShapePoint>, stops: map<string, GtfsStop>): (snap: Snap)
    ensures SnapFits(snap, |sts|)
    ensures snap.Linear? <==> |pts| < 2
    ensures snap.Snapped? ==> snap.points == pts
  {
    if |pts| < 2 then Linear else Snapped(pts, StopShapeIndices(geo, sts, pts, stops, 0))
  }

  /**
   `mapStopsToShapeSegments`: with fewer than two shape points every leg is straight;
   otherwise stops are snapped onto the shape and each leg is cut from it where the
   indices advance.
   */
  function MapStopsToShapeSegments(geo: Geo, sts: seq<GtfsStopTime>, pts: seq<ShapePoint>, stops: map<string, GtfsStop>): (r: seq<TripSegment>)
    requires |sts| > 0
    ensures var pairs, first := ResolvedPairs(sts, stops, 0), ParseGtfsTime(sts[0].departureTime);
      && |r| == |pairs|
      && forall j :: 0 <= j < |r| ==> r[j] == LegAt(geo, sts, stops, first, SnapFor(geo, sts, pts, stops), pairs[j])
    ensures |pts| < 2 ==> r == CreateLinearSegments(geo, sts, stops)
  {
    var first, snap := ParseGtfsTime(sts[0].departureTime), SnapFor(geo, sts, pts, stops);
    LegsOverAt(geo, sts, stops, first, snap, ResolvedPairs(sts, stops, 0));
    if |pts| < 2 then CreateLinearSegments(geo, sts, stops)
    else LegsFrom(geo, sts, stops, first, snap, 0)
  }

  /**
   Each leg joins the stops of its pair, and its times are taken relative to the first
   departure of the trip.
   */
  lemma ShapeSegmentsJoinStops(geo: Geo, sts: seq<GtfsStopTime>, pts: seq<ShapePoint>, stops: map<string, GtfsStop>)
    requires |sts| > 0
    ensures var r, pairs, first := MapStopsToShapeSegments(geo, sts, pts, stops), ResolvedPairs(sts, stops, 0), ParseGtfsTime(sts[0].departureTime);
      forall j :: 0 <= j < |r| ==>
        && WellFormed(r[j])
        && r[j].fromStopId == sts[pairs[j]].stopId && r[j].toStopId == sts[pairs[j] + 1].stopId
        && r[j].startTime == ParseGtfsTime(sts[pairs[j]].departureTime) - first
        && r[j].endTime == ParseGtfsTime(sts[pairs[j] + 1].arrivalTime) - first
  {
    var r, pairs, first := MapStopsToShapeSegments(geo, sts, pts, stops), ResolvedPairs(sts, stops, 0), ParseGtfsTime(sts[0].departureTime);
    forall j | 0 <= j < |r|
      ensures r[j] == LegAt(geo, sts, stops, first, SnapFor(geo, sts, pts, stops), pairs[j])
    {
    }
  }

  /** When the first two stops are both known, the first leg starts at relative time 0. */
  lemma FirstLegStartsAtZero(geo: Geo, sts: seq<GtfsStopTime>, pts: seq<ShapePoint>, stops: map<string, GtfsStop>)
    requires |sts| >= 2 && Resolves(sts, stops, 0)
    ensures var r := MapStopsToShapeSegments(geo, sts, pts, stops); |r| > 0 && r[0].startTime == 0
  {
    var pairs, later := ResolvedPairs(sts, stops, 0), ResolvedPairs(sts, stops, 1);
    assert pairs == [0] + later;
  }

  /** A segment cut from an ascending shape covers a non-negative distance. */
  lemma ShapeSegmentsNonNegative(geo: Geo, sts: seq<GtfsStopTime>, pts: seq<ShapePoint>, stops: map<string, GtfsStop>)
    requires |sts| > 0 && Ascending(pts)
    ensures forall seg :: seg in MapStopsToShapeSegments(geo, sts, pts, stops) ==> seg.segmentDistance >= 0.0
  {
    var r := MapStopsToShapeSegments(geo, sts, pts, stops);
    forall seg | seg in r ensures seg.segmentDistance >= 0.0 {
      var j :| 0 <= j < |r| && r[j] == seg;
    }
  }

  // ---------------------------------------------------------------------------
  // precomputeTrajectories
  // ---------------------------------------------------------------------------

  function StopIdOf(s: GtfsStop): string { s.stopId }
  function ShapeIdOf(s: GtfsShape): string { s.shapeId }
  function TripIdOf(st: GtfsStopTime): string { st.tripId }
  function StopSequenceOf(st: GtfsStopTime): int { st.stopSequence }

  /** The lookup tables every trip is built from. */
  datatype Tables = Tables(
    geo: Geo,
    stopsById: map<string, GtfsStop>,
    shapesById: map<string, seq<ShapePoint>>,
    stopTimesByTrip: map<string, seq<GtfsStopTime>>)

  /** Stop times grouped by trip, each group in ascending `stop_sequence`. */
  function StopTimesByTrip(stopTimes: seq<GtfsStopTime>): (m: map<string, seq<GtfsStopTime>>)
    ensures m.Keys == KeySet(stopTimes, TripIdOf)
    ensures forall k | k in m :: multiset(m[k]) == multiset(FilterBy(stopTimes, TripIdOf, k))
    ensures forall k | k in m :: SortedBy(m[k], StopSequenceOf)
  {
    var g := GroupBy(stopTimes, TripIdOf);
    map k | k in g :: SortBy(g[k], StopSequenceOf)
  }

  /** Every shape, grouped by id and processed. */
  function ProcessedShapes(geo: Geo, shapes: seq<GtfsShape>): (m: map<string, seq<ShapePoint>>)
    ensures m.Keys == KeySet(shapes, ShapeIdOf)
    ensures forall k | k in m :: |m[k]| == |FilterBy(shapes, ShapeIdOf, k)| && Ascending(m[k])
  {
    var g := GroupBy(shapes, ShapeIdOf);
    map k | k in g :: ProcessShape(geo, g[k])
  }

  function PrepareTables(geo: Geo, shapes: seq<GtfsShape>, stopTimes: seq<GtfsStopTime>, stops: seq<GtfsStop>): Tables {
    Tables(geo, IndexBy(stops, StopIdOf), ProcessedShapes(geo, shapes), StopTimesByTrip(stopTimes))
  }

  /** The shape points a trip runs on: its processed shape when it names one, else none. */
  function TripShapePoints(t: Tables, trip: GtfsTrip): seq<ShapePoint> {
    if Truthy(trip.shapeId) && trip.shapeId.value in t.shapesById then t.shapesById[trip.shapeId.value] else []
  }

  function SumDistance(segs: seq<TripSegment>): real {
    if |segs| == 0 then 0.0 else SumDistance(segs[..|segs| - 1]) + segs[|segs| - 1].segmentDistance
  }

  /** A trajectory whose arrays are parallel and whose totals agree with its segments. */
  predicate ValidTrajectory(tr: PrecomputedTrajectory) {
    && |tr.segments| > 0
    && |tr.segmentStartTimes| == |tr.segments|
    && (forall i :: 0 <= i < |tr.segments| ==> tr.segmentStartTimes[i] == tr.segments[i].startTime)
    && (forall i :: 0 <= i < |tr.segments| ==> WellFormed(tr.segments[i]))
    && tr.totalDistance == SumDistance(tr.segments)
  }

  /** The times of a trip's first departure and last arrival. */
  function FirstTime(sts: seq<GtfsStopTime>): int requires |sts| > 0 { ParseGtfsTime(sts[0].departureTime) }
  function LastTime(sts: seq<GtfsStopTime>): int requires |sts| > 0 { ParseGtfsTime(sts[|sts| - 1].arrivalTime) }

  /** The data of a trip is usable: at least two stop times with a readable first departure and last arrival. */
  predicate Usable(t: Tables, trip: GtfsTrip) {
    && trip.tripId in t.stopTimesByTrip
    && |t.stopTimesByTrip[trip.tripId]| >= 2
    && FirstTime(t.stopTimesByTrip[trip.tripId]) >= 0
    && LastTime(t.stopTimesByTrip[trip.tripId]) >= 0
  }

  /** The legs of a usable trip: snapped onto its shape when it has one, straight otherwise. */
  function TripSegments(t: Tables, trip: GtfsTrip): (segs: seq<TripSegment>)
    requires Usable(t, trip)
    ensures forall i :: 0 <= i < |segs| ==> WellFormed(segs[i])
  {
    MapStopsToShapeSegments(t.geo, t.stopTimesByTrip[trip.tripId], TripShapePoints(t, trip), t.stopsById)
  }

  /** The trajectory record of a trip over well-formed legs. */
  function Assemble(trip: GtfsTrip, sts: seq<GtfsStopTime>, segments: seq<TripSegment>): (tr: PrecomputedTrajectory)
    requires |sts| > 0 && |segments| > 0
    requires forall i :: 0 <= i < |segments| ==> WellFormed(segments[i])
    ensures ValidTrajectory(tr)
    ensures tr.tripId == trip.tripId && tr.segments == segments
    ensures tr.shapeId == (if Truthy(trip.shapeId) then trip.shapeId else None)
    ensures tr.totalDuration == LastTime(sts) - FirstTime(sts)
  {
    PrecomputedTrajectory(
      trip.tripId,
      if Truthy(trip.shapeId) then trip.shapeId else None,
      SumDistance(segments),
      LastTime(sts) - FirstTime(sts),
      segments,
      seq(|segments|, i requires 0 <= i < |segments| => segments[i].startTime))
  }

  /**
   The trajectory of one trip, or `None` when the trip is skipped: too few stop
   times, an unreadable first or last time, or not a single leg.
   */
  function TrajectoryFor(t: Tables, trip: GtfsTrip): (r: Option<PrecomputedTrajectory>)
    ensures r.Some? <==> Usable(t, trip) && |TripSegments(t, trip)| > 0
    ensures r.Some? ==>
      var sts := t.stopTimesByTrip[trip.tripId];
      && ValidTrajectory(r.value)
      && r.value.tripId == trip.tripId
      && r.value.shapeId == (if Truthy(trip.shapeId) then trip.shapeId else None)
      && r.value.totalDuration == LastTime(sts) - FirstTime(sts)
      && r.value.segments == TripSegments(t, trip)
  {
    if !Usable(t, trip) then None
    else
      var segments := TripSegments(t, trip);
      if |segments| == 0 then None
      else Some(Assemble(trip, t.stopTimesByTrip[trip.tripId], segments))
  }

  function TripIdOfTrip(trip: GtfsTrip): string { trip.tripId }

  /**
   The trajectories of all trips, keyed by trip id: a trip id is present exactly when
   some trip with it gets a trajectory, and a later such trip replaces an earlier one.
   */
  function Trajectories(t: Tables, trips: seq<GtfsTrip>): (m: map<string, PrecomputedTrajectory>)
    ensures var f := Producer(t);
      && (forall k :: k in m <==> exists i :: 0 <= i < |trips| && trips[i].tripId == k && f(trips[i]).Some?)
      && (forall k | k in m :: exists i :: 0 <= i < |trips| && trips[i].tripId == k && f(trips[i]) == Some(m[k]))
      && (forall i :: 0 <= i < |trips| && f(trips[i]).Some? && LastProducing(trips, TripIdOfTrip, f, i) ==>
            trips[i].tripId in m && m[trips[i].tripId] == f(trips[i]).value)
  {
    Collect(trips, TripIdOfTrip, Producer(t))
  }

  /** The body of the loop over the trips: the trajectory a trip gets, if any. */
  function Producer(t: Tables): GtfsTrip -> Option<PrecomputedTrajectory> {
    trip => TrajectoryFor(t, trip)
  }

  /** Every stored trajectory is valid and filed under its own trip id. */
  lemma TrajectoriesValid(t: Tables, trips: seq<GtfsTrip>)
    ensures var m := Trajectories(t, trips);
      forall k | k in m :: m[k].tripId == k && ValidTrajectory(m[k])
  {
    var m := Trajectories(t, trips);
    forall k | k in m ensures m[k].tripId == k && ValidTrajectory(m[k]) {
      var i :| 0 <= i < |trips| && trips[i].tripId == k && Producer(t)(trips[i]) == Some(m[k]);
      assert TrajectoryFor(t, trips[i]) == Some(m[k]);
    }
  }

  /** `precomputeTrajectories`: the trajectories, the processed shapes and every stop's `[lon, lat]`. */
  function PrecomputeTrajectories(geo: Geo, shapes: seq<GtfsShape>, trips: seq<GtfsTrip>, stopTimes: seq<GtfsStopTime>, stops: seq<GtfsStop>): (c: TrajectoryCache)
    ensures c.processedShapes == ProcessedShapes(geo, shapes)
    ensures c.stopCoords.Keys == KeySet(stops, StopIdOf)
    ensures forall k | k in c.stopCoords :: c.stopCoords[k] == StopCoord(Last(FilterBy(stops, StopIdOf, k)))
    ensures c.trajectories == Trajectories(PrepareTables(geo, shapes, stopTimes, stops), trips)
    ensures forall k | k in c.trajectories :: c.trajectories[k].tripId == k && ValidTrajectory(c.trajectories[k])
  {
    var t := PrepareTables(geo, shapes, stopTimes, stops);
    var byId := IndexBy(stops, StopIdOf);
    TrajectoriesValid(t, trips);
    TrajectoryCache(
      Trajectories(t, trips),
      t.shapesById,
      map k | k in byId :: StopCoord(byId[k]))
  }
}
