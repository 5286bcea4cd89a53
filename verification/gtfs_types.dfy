/**
 The records of a parsed GTFS feed and the structures the viewer derives from them
 (shape points, trip segments, precomputed trajectories, vehicle instances, the time
 index and vehicle positions), plus the two things every module shares: the
 great-circle geometry, kept abstract, and the route colour rule.
 */
module GtfsTypes {
  import opened Wrappers
  import JsText

  // ---------------------------------------------------------------------------
  // Feed records
  // ---------------------------------------------------------------------------

  /**
   A time field as the CSV layer hands it over: text such as "08:30:00", a number
   when loose typing turned "083000" into 83000, or nothing (`undefined` / `null`).
   */
  datatype TimeValue = Absent | Text(text: string) | Numeric(number: int)

  /** A `[lon, lat]` pair. */
  datatype Coord = Coord(lon: real, lat: real)

  /** A stop; its coordinates may be missing in a loosely typed feed. */
  datatype GtfsStop = GtfsStop(
    stopId: string,
    stopCode: Option<string>,
    stopName: string,
    stopLat: Option<real>,
    stopLon: Option<real>,
    zoneId: Option<string>,
    locationType: Option<int>,
    parentStation: Option<string>)

  datatype GtfsRoute = GtfsRoute(
    routeId: string,
    routeShortName: Option<string>,
    routeLongName: Option<string>,
    routeType: int,
    routeColor: Option<string>)

  datatype GtfsTrip = GtfsTrip(
    routeId: string,
    serviceId: string,
    tripId: string,
    tripHeadsign: Option<string>,
    shapeId: Option<string>)

  datatype GtfsShape = GtfsShape(
    shapeId: string,
    shapePtLat: real,
    shapePtLon: real,
    shapePtSequence: int)

  datatype GtfsStopTime = GtfsStopTime(
    tripId: string,
    arrivalTime: TimeValue,
    departureTime: TimeValue,
    stopId: string,
    stopSequence: int)

  datatype GtfsFrequency = GtfsFrequency(
    tripId: string,
    startTime: TimeValue,
    endTime: TimeValue,
    headwaySecs: int)

  // ---------------------------------------------------------------------------
  // Derived structures
  // ---------------------------------------------------------------------------

  /** A point of a processed shape: metres travelled from the shape's start and the heading to the next point. */
  datatype ShapePoint = ShapePoint(lon: real, lat: real, distanceFromStart: real, bearing: real)

  /** The leg between two consecutive stops of a trip; times are seconds after the trip's first departure. */
  datatype TripSegment = TripSegment(
    fromStopId: string,
    toStopId: string,
    startTime: int,
    endTime: int,
    shapePoints: seq<ShapePoint>,
    segmentDistance: real,
    fromCoord: Coord,
    toCoord: Coord)

  datatype PrecomputedTrajectory = PrecomputedTrajectory(
    tripId: string,
    shapeId: Option<string>,
    totalDistance: real,
    totalDuration: int,
    segments: seq<TripSegment>,
    segmentStartTimes: seq<int>)

  datatype TrajectoryCache = TrajectoryCache(
    trajectories: map<string, PrecomputedTrajectory>,
    processedShapes: map<string, seq<ShapePoint>>,
    stopCoords: map<string, Coord>)

  /** One run of a trajectory on the simulation clock. */
  datatype ActiveVehicleInstance = ActiveVehicleInstance(
    tripId: string,
    instanceId: string,
    trajectory: PrecomputedTrajectory,
    startTime: int,
    endTime: int,
    routeId: string,
    color: string,
    headsign: Option<string>)

  datatype TimeIndexedVehicles = TimeIndexedVehicles(
    buckets: map<int, seq<ActiveVehicleInstance>>,
    bucketSize: int)

  datatype VehiclePosition = VehiclePosition(
    tripId: string,
    routeId: string,
    position: Coord,
    bearing: real,
    nextStopId: string,
    progress: real,
    color: string,
    headsign: Option<string>)

  // ---------------------------------------------------------------------------
  // Geometry, abstract
  // ---------------------------------------------------------------------------

  /** Great-circle distance in metres, `(lat1, lon1, lat2, lon2)`; only its sign is known. */
  type Distance = f: (real, real, real, real) -> real | forall a, b, c, d :: f(a, b, c, d) >= 0.0
    witness (a: real, b: real, c: real, d: real) => 0.0

  /** Initial bearing in degrees, `(lat1, lon1, lat2, lon2)`; only its range is known. */
  type Bearing = f: (real, real, real, real) -> real | forall a, b, c, d :: 0.0 <= f(a, b, c, d) < 360.0
    witness (a: real, b: real, c: real, d: real) => 0.0

  /** The haversine distance and the spherical bearing, left uninterpreted. */
  datatype Geo = Geo(distance: Distance, bearing: Bearing)

  // ---------------------------------------------------------------------------
  // JavaScript truthiness and coercions used across the viewer
  // ---------------------------------------------------------------------------

  /** An optional string that is present and not empty. */
  predicate Truthy(s: Option<string>) {
    s.Some? && s.value != ""
  }

  /** A coordinate used in arithmetic: JavaScript reads a missing one as 0. */
  function Num(x: Option<real>): real {
    x.GetOr(0.0)
  }

  /** `[stop.stop_lon, stop.stop_lat]`. */
  function StopCoord(stop: GtfsStop): Coord {
    Coord(Num(stop.stopLon), Num(stop.stopLat))
  }

  // ---------------------------------------------------------------------------
  // Route colour
  // ---------------------------------------------------------------------------

  const DefaultColor: string := "#3388ff"

  /** A colour with a `#` in front, added only when it is not there already. */
  function HashPrefixed(c: string): (r: string)
    ensures JsText.StartsWith(r, "#")
    ensures |c| <= |r| <= |c| + 1
    ensures r[|r| - |c|..] == c
    ensures JsText.StartsWith(c, "#") ==> r == c
  {
    if JsText.StartsWith(c, "#") then c else "#" + c
  }

  /**
   The display colour of a route: its `route_color` with a `#` in front, or the
   default blue when there is no route or it has no colour.
   */
  function RouteColor(route: Option<GtfsRoute>): (color: string)
    ensures JsText.StartsWith(color, "#")
    ensures route.Some? && Truthy(route.value.routeColor) ==> color == HashPrefixed(route.value.routeColor.value)
    ensures !(route.Some? && Truthy(route.value.routeColor)) ==> color == DefaultColor
  {
    if route.Some? && Truthy(route.value.routeColor) then HashPrefixed(route.value.routeColor.value)
    else DefaultColor
  }

  /** Resolving a colour is idempotent: a resolved colour stored back on the route resolves to itself. */
  lemma RouteColorIdempotent(route: GtfsRoute)
    ensures var c := RouteColor(Some(route));
      RouteColor(Some(route.(routeColor := Some(c)))) == c
  {
  }
}
