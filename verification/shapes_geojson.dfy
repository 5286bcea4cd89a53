/**
 The shapes layer: one line feature per shape, its points in sequence order, and
 the colour of the route that first lists the shape; and the plain grouping of
 shape points into coordinate lists.
 */
module ShapesGeoJson {
  import opened Wrappers
  import opened SeqUtils
  import opened GtfsTypes
  import TrajectoryPrecomputer

  /** The properties of a shape feature; the route fields are absent when no route is found. */
  datatype ShapeProperties = ShapeProperties(
    shapeId: string,
    routeId: Option<string>,
    routeShortName: Option<string>,
    routeLongName: Option<string>,
    routeType: Option<int>,
    color: string)

  /** A line feature: its coordinates and its properties. */
  datatype ShapeFeature = ShapeFeature(coordinates: seq<Coord>, properties: ShapeProperties)

  function ShapeIdOf(p: GtfsShape): string { p.shapeId }
  function RouteIdOfRoute(r: GtfsRoute): string { r.routeId }

  /** `[shape_pt_lon, shape_pt_lat]`. */
  function PointCoord(p: GtfsShape): Coord { Coord(p.shapePtLon, p.shapePtLat) }

  function Coords(ps: seq<GtfsShape>): (cs: seq<Coord>)
    ensures |cs| == |ps| && forall i :: 0 <= i < |ps| ==> cs[i] == PointCoord(ps[i])
  {
    seq(|ps|, i requires 0 <= i < |ps| => PointCoord(ps[i]))
  }

  /** The points of one shape in sequence order. */
  function SortedPoints(shapes: seq<GtfsShape>, shapeId: string): (ps: seq<GtfsShape>)
    ensures multiset(ps) == multiset(FilterBy(shapes, ShapeIdOf, shapeId))
    ensures SortedBy(ps, TrajectoryPrecomputer.SequenceOf)
    ensures |ps| == |FilterBy(shapes, ShapeIdOf, shapeId)|
  {
    SortBy(FilterBy(shapes, ShapeIdOf, shapeId), TrajectoryPrecomputer.SequenceOf)
  }

  /** The coordinates of a shape are its points, all of them, in an order of ascending sequence number. */
  ghost predicate CoordinatesOfShape(shapes: seq<GtfsShape>, shapeId: string, cs: seq<Coord>) {
    exists ps :: multiset(ps) == multiset(FilterBy(shapes, ShapeIdOf, shapeId)) && SortedBy(ps, TrajectoryPrecomputer.SequenceOf)
      && cs == Coords(ps)
  }

  // ---------------------------------------------------------------------------
  // Which route a shape belongs to
  // ---------------------------------------------------------------------------

  /** The trip names this shape. */
  predicate ListsShape(trip: GtfsTrip, shapeId: string) {
    Truthy(trip.shapeId) && trip.shapeId.value == shapeId
  }

  /** Trip i is the first to name the shape. */
  ghost predicate FirstListing(trips: seq<GtfsTrip>, shapeId: string, i: int) {
    0 <= i < |trips| && ListsShape(trips[i], shapeId) && forall j :: 0 <= j < i ==> !ListsShape(trips[j], shapeId)
  }

  /** The first trip naming a shape decides its route; later trips naming it are ignored. */
  function ShapeToRoute(trips: seq<GtfsTrip>): (m: map<string, string>)
    ensures forall k :: k in m <==> exists i :: 0 <= i < |trips| && ListsShape(trips[i], k)
    ensures forall k | k in m :: exists i :: FirstListing(trips, k, i) && m[k] == trips[i].routeId
  {
    if |trips| == 0 then map[]
    else
      var rest := ShapeToRoute(trips[1..]);
      var trip := trips[0];
      var m := if Truthy(trip.shapeId) then rest[trip.shapeId.value := trip.routeId] else rest;
      ShapeToRouteKeys(trips, rest, m);
      ShapeToRouteValues(trips, rest, m);
      m
  }

  /** The shapes named by some trip are the first trip's shape, if it names one, and those named by the others. */
  lemma ShapeToRouteKeys(trips: seq<GtfsTrip>, rest: map<string, string>, m: map<string, string>)
    requires |trips| > 0
    requires m == if Truthy(trips[0].shapeId) then rest[trips[0].shapeId.value := trips[0].routeId] else rest
    requires forall k :: k in rest <==> exists i :: 0 <= i < |trips[1..]| && ListsShape(trips[1..][i], k)
    ensures forall k :: k in m <==> exists i :: 0 <= i < |trips| && ListsShape(trips[i], k)
  {
    var tail := trips[1..];
    forall k ensures k in m <==> exists i :: 0 <= i < |trips| && ListsShape(trips[i], k) {
      if exists i :: 0 <= i < |trips| && ListsShape(trips[i], k) {
        var i :| 0 <= i < |trips| && ListsShape(trips[i], k);
        if i > 0 && !ListsShape(trips[0], k) {
          assert ListsShape(tail[i - 1], k);
        }
      }
      if k in rest {
        var i :| 0 <= i < |tail| && ListsShape(tail[i], k);
        assert ListsShape(trips[i + 1], k);
      }
    }
  }

  /** A shape the first trip names gets that trip's route; any other keeps the route of its first listing among the others. */
  lemma ShapeToRouteValues(trips: seq<GtfsTrip>, rest: map<string, string>, m: map<string, string>)
    requires |trips| > 0
    requires m == if Truthy(trips[0].shapeId) then rest[trips[0].shapeId.value := trips[0].routeId] else rest
    requires forall k | k in rest :: exists i :: FirstListing(trips[1..], k, i) && rest[k] == trips[1..][i].routeId
    ensures forall k | k in m :: exists i :: FirstListing(trips, k, i) && m[k] == trips[i].routeId
  {
    var tail := trips[1..];
    forall k | k in m ensures exists i :: FirstListing(trips, k, i) && m[k] == trips[i].routeId {
      if ListsShape(trips[0], k) {
        assert FirstListing(trips, k, 0);
      } else {
        var i :| FirstListing(tail, k, i) && rest[k] == tail[i].routeId;
        assert FirstListing(trips, k, i + 1);
      }
    }
  }

  // ---------------------------------------------------------------------------
  // shapesToGeoJson
  // ---------------------------------------------------------------------------

  /** The route of a shape: the one its route id names, when that id is present and not empty. */
  function RouteOfShape(shapeToRoute: map<string, string>, routeMap: map<string, GtfsRoute>, shapeId: string): Option<GtfsRoute> {
    var routeId := Find(shapeToRoute, shapeId);
    if routeId.Some? && routeId.value != "" then Find(routeMap, routeId.value) else None
  }

  function FeatureOf(shapes: seq<GtfsShape>, shapeToRoute: map<string, string>, routeMap: map<string, GtfsRoute>, shapeId: string): (f: ShapeFeature)
    ensures CoordinatesOfShape(shapes, shapeId, f.coordinates)
    ensures f.properties.shapeId == shapeId
    ensures f.properties.routeId == Find(shapeToRoute, shapeId)
    ensures var route := RouteOfShape(shapeToRoute, routeMap, shapeId);
      && f.properties.color == RouteColor(route)
      && (route.None? ==> f.properties.routeShortName.None? && f.properties.routeLongName.None? && f.properties.routeType.None?)
      && (route.Some? ==> (f.properties.routeShortName == route.value.routeShortName
            && f.properties.routeLongName == route.value.routeLongName && f.properties.routeType == Some(route.value.routeType)))
  {
    var ps := SortedPoints(shapes, shapeId);
    var route := RouteOfShape(shapeToRoute, routeMap, shapeId);
    ShapeFeature(Coords(ps), ShapeProperties(
      shapeId,
      Find(shapeToRoute, shapeId),
      if route.Some? then route.value.routeShortName else None,
      if route.Some? then route.value.routeLongName else None,
      if route.Some? then Some(route.value.routeType) else None,
      RouteColor(route)))
  }

  /**
   The feature describes its shape: all of the shape's points in sequence order, the
   route id of the first trip naming the shape, and the colour of the route that id names.
   */
  ghost predicate Describes(shapes: seq<GtfsShape>, shapeToRoute: map<string, string>, routeMap: map<string, GtfsRoute>, f: ShapeFeature) {
    var id := f.properties.shapeId;
    && CoordinatesOfShape(shapes, id, f.coordinates)
    && f.properties.routeId == Find(shapeToRoute, id)
    && f.properties.color == RouteColor(RouteOfShape(shapeToRoute, routeMap, id))
  }

  function Features(shapes: seq<GtfsShape>, shapeToRoute: map<string, string>, routeMap: map<string, GtfsRoute>, ids: seq<string>): (fs: seq<ShapeFeature>)
    ensures |fs| == |ids|
    ensures forall i :: 0 <= i < |ids| ==> fs[i] == FeatureOf(shapes, shapeToRoute, routeMap, ids[i])
    ensures forall i :: 0 <= i < |ids| ==> fs[i].properties.shapeId == ids[i] && Describes(shapes, shapeToRoute, routeMap, fs[i])
  {
    seq(|ids|, i requires 0 <= i < |ids| => FeatureOf(shapes, shapeToRoute, routeMap, ids[i]))
  }

  /**
   One feature per distinct shape id, in order of first appearance: its points sorted
   by sequence, the route of the first trip naming the shape, and that route's colour.
   */
  function ShapesToGeoJson(shapes: seq<GtfsShape>, routes: seq<GtfsRoute>, trips: seq<GtfsTrip>): (fs: seq<ShapeFeature>)
    ensures forall i, j :: 0 <= i < j < |fs| ==> fs[i].properties.shapeId != fs[j].properties.shapeId
    ensures forall k :: (exists i :: 0 <= i < |fs| && fs[i].properties.shapeId == k) <==> k in KeySet(shapes, ShapeIdOf)
    ensures forall i :: 0 <= i < |fs| ==> Describes(shapes, ShapeToRoute(trips), IndexBy(routes, RouteIdOfRoute), fs[i])
    ensures forall i :: 0 <= i < |fs| ==>
      fs[i] == FeatureOf(shapes, ShapeToRoute(trips), IndexBy(routes, RouteIdOfRoute), fs[i].properties.shapeId)
    ensures forall i, j :: 0 <= i < j < |fs| ==>
      FirstWith(shapes, ShapeIdOf, fs[i].properties.shapeId) < FirstWith(shapes, ShapeIdOf, fs[j].properties.shapeId)
  {
    var ids := DistinctKeys(shapes, ShapeIdOf);
    var fs := Features(shapes, ShapeToRoute(trips), IndexBy(routes, RouteIdOfRoute), ids);
    FeatureIds(fs, ids);
    DistinctKeysInOrder(shapes, ShapeIdOf);
    fs
  }

  lemma FeatureIds(fs: seq<ShapeFeature>, ids: seq<string>)
    requires |fs| == |ids| && forall i :: 0 <= i < |ids| ==> fs[i].properties.shapeId == ids[i]
    ensures forall k :: (exists i :: 0 <= i < |fs| && fs[i].properties.shapeId == k) <==> k in ids
  {
    forall k | k in ids ensures exists i :: 0 <= i < |fs| && fs[i].properties.shapeId == k {
      var i :| 0 <= i < |ids| && ids[i] == k;
      assert fs[i].properties.shapeId == k;
    }
  }

  /** A feature has as many points as the input has rows for its shape, and all features together as many as the input has rows. */
  lemma {:induction false} FeaturePointCounts(shapes: seq<GtfsShape>, routes: seq<GtfsRoute>, trips: seq<GtfsTrip>)
    ensures var fs := ShapesToGeoJson(shapes, routes, trips);
      && (forall i :: 0 <= i < |fs| ==> |fs[i].coordinates| == |FilterBy(shapes, ShapeIdOf, fs[i].properties.shapeId)|)
      && PointTotal(fs) == |shapes|
  {
    var fs := ShapesToGeoJson(shapes, routes, trips);
    var ids := DistinctKeys(shapes, ShapeIdOf);
    forall i | 0 <= i < |fs| ensures |fs[i].coordinates| == |FilterBy(shapes, ShapeIdOf, fs[i].properties.shapeId)| {
      assert fs[i] == FeatureOf(shapes, ShapeToRoute(trips), IndexBy(routes, RouteIdOfRoute), ids[i]);
    }
    PointTotalIsGroupSizes(shapes, fs, ids);
    GroupSizesTotal(shapes, ShapeIdOf);
  }

  function PointTotal(fs: seq<ShapeFeature>): nat {
    if |fs| == 0 then 0 else |fs[0].coordinates| + PointTotal(fs[1..])
  }

  lemma {:induction false} PointTotalIsGroupSizes(shapes: seq<GtfsShape>, fs: seq<ShapeFeature>, ids: seq<string>)
    requires |fs| == |ids|
    requires forall i :: 0 <= i < |fs| ==> |fs[i].coordinates| == |FilterBy(shapes, ShapeIdOf, ids[i])|
    ensures PointTotal(fs) == GroupSizes(shapes, ShapeIdOf, ids)
    decreases |fs|
  {
    if |fs| > 0 {
      PointTotalIsGroupSizes(shapes, fs[1..], ids[1..]);
    }
  }

  // ---------------------------------------------------------------------------
  // groupShapesByShapeId
  // ---------------------------------------------------------------------------

  /** Every shape id, mapped to its points' coordinates in sequence order. */
  function GroupShapesByShapeId(shapes: seq<GtfsShape>): (m: map<string, seq<Coord>>)
    ensures m.Keys == KeySet(shapes, ShapeIdOf)
    ensures forall k | k in m :: CoordinatesOfShape(shapes, k, m[k])
    ensures forall k | k in m :: |m[k]| == |FilterBy(shapes, ShapeIdOf, k)|
  {
    var groups := GroupBy(shapes, ShapeIdOf);
    map k | k in groups :: Coords(SortBy(groups[k], TrajectoryPrecomputer.SequenceOf))
  }
}
