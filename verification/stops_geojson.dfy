/**
 The stops layer: one point feature per stop that has both coordinates, and the
 bounding box the map fits itself to.
 */
module StopsGeoJson {
  import opened Wrappers
  import opened GtfsTypes

  /** The properties of a stop feature; the coordinates are known here. */
  datatype StopProperties = StopProperties(
    stopId: string,
    stopName: string,
    stopCode: Option<string>,
    zoneId: Option<string>,
    locationType: Option<int>,
    parentStation: Option<string>,
    stopLat: real,
    stopLon: real)

  /** A point feature at `[lon, lat]`. */
  datatype StopFeature = StopFeature(coordinates: Coord, properties: StopProperties)

  /** `[[minLon, minLat], [maxLon, maxLat]]`. */
  datatype Bounds = Bounds(southWest: Coord, northEast: Coord)

  /** `stop_lat != null && stop_lon != null`. */
  predicate HasCoords(s: GtfsStop) {
    s.stopLat.Some? && s.stopLon.Some?
  }

  /** The stops that have both coordinates, in input order. */
  function ValidStops(stops: seq<GtfsStop>): (vs: seq<GtfsStop>)
    ensures |vs| <= |stops|
    ensures forall s :: s in vs <==> s in stops && HasCoords(s)
    ensures forall i :: 0 <= i < |vs| ==> HasCoords(vs[i])
  {
    if |stops| == 0 then []
    else if HasCoords(stops[0]) then [stops[0]] + ValidStops(stops[1..])
    else ValidStops(stops[1..])
  }

  /** Filtering a concatenation filters each part. */
  lemma {:induction false} ValidStopsAppend(a: seq<GtfsStop>, b: seq<GtfsStop>)
    ensures ValidStops(a + b) == ValidStops(a) + ValidStops(b)
  {
    if |a| > 0 {
      assert (a + b)[1..] == a[1..] + b;
      ValidStopsAppend(a[1..], b);
    } else {
      assert a + b == b;
    }
  }

  /** Filtering keeps exactly the stops with coordinates: a list of such stops is kept whole, and filtering twice changes nothing. */
  lemma {:induction false} ValidStopsIdempotent(stops: seq<GtfsStop>)
    ensures (forall i :: 0 <= i < |stops| ==> HasCoords(stops[i])) ==> ValidStops(stops) == stops
    ensures ValidStops(ValidStops(stops)) == ValidStops(stops)
  {
    if |stops| > 0 {
      ValidStopsIdempotent(stops[1..]);
      if HasCoords(stops[0]) {
        assert ([stops[0]] + ValidStops(stops[1..]))[1..] == ValidStops(stops[1..]);
      }
    }
  }

  function PropertiesOf(s: GtfsStop): StopProperties
    requires HasCoords(s)
  {
    StopProperties(s.stopId, s.stopName, s.stopCode, s.zoneId, s.locationType, s.parentStation, s.stopLat.value, s.stopLon.value)
  }

  /** The stop a feature was drawn from, read back from its properties. */
  function FeatureStop(f: StopFeature): GtfsStop {
    var p := f.properties;
    GtfsStop(p.stopId, p.stopCode, p.stopName, Some(p.stopLat), Some(p.stopLon), p.zoneId, p.locationType, p.parentStation)
  }

  /** One point per stop with both coordinates, at `[lon, lat]`, carrying the stop's fields. */
  function StopsToGeoJson(stops: seq<GtfsStop>): (fs: seq<StopFeature>)
    ensures |fs| == |ValidStops(stops)|
    ensures forall i :: 0 <= i < |fs| ==> FeatureStop(fs[i]) == ValidStops(stops)[i]
    ensures forall i :: 0 <= i < |fs| ==>
      fs[i].coordinates == Coord(fs[i].properties.stopLon, fs[i].properties.stopLat)
  {
    var vs := ValidStops(stops);
    seq(|vs|, i requires 0 <= i < |vs| => StopFeature(Coord(vs[i].stopLon.value, vs[i].stopLat.value), PropertiesOf(vs[i])))
  }

  /** A stop is drawn exactly when it has both coordinates, and the features give the stops back. */
  lemma StopsDrawn(stops: seq<GtfsStop>)
    ensures var fs := StopsToGeoJson(stops);
      forall s :: (s in stops && HasCoords(s)) <==> exists i :: 0 <= i < |fs| && FeatureStop(fs[i]) == s
  {
    var fs := StopsToGeoJson(stops);
    var vs := ValidStops(stops);
    forall s | s in stops && HasCoords(s) ensures exists i :: 0 <= i < |fs| && FeatureStop(fs[i]) == s {
      var i :| 0 <= i < |vs| && vs[i] == s;
      assert FeatureStop(fs[i]) == s;
    }
  }

  // ---------------------------------------------------------------------------
  // calculateBounds
  // ---------------------------------------------------------------------------

  /** The point lies in the box. */
  predicate Inside(b: Bounds, lon: real, lat: real) {
    b.southWest.lon <= lon <= b.northEast.lon && b.southWest.lat <= lat <= b.northEast.lat
  }

  /** Each edge of the box is the coordinate of some stop. */
  ghost predicate Tight(b: Bounds, vs: seq<GtfsStop>) {
    && (exists i :: 0 <= i < |vs| && vs[i].stopLon == Some(b.southWest.lon))
    && (exists i :: 0 <= i < |vs| && vs[i].stopLon == Some(b.northEast.lon))
    && (exists i :: 0 <= i < |vs| && vs[i].stopLat == Some(b.southWest.lat))
    && (exists i :: 0 <= i < |vs| && vs[i].stopLat == Some(b.northEast.lat))
  }

  /**
   The smallest box holding every stop with coordinates, or nothing when no stop has
   them. The running minima start from the first stop where the source starts from
   plus and minus infinity; after the first step the two agree.
   */
  method CalculateBounds(stops: seq<GtfsStop>) returns (r: Option<Bounds>)
    ensures r.None? <==> ValidStops(stops) == []
    ensures r.Some? ==> forall s :: s in stops && HasCoords(s) ==> Inside(r.value, s.stopLon.value, s.stopLat.value)
    ensures r.Some? ==> Tight(r.value, ValidStops(stops))
  {
    var vs := ValidStops(stops);
    if |vs| == 0 {
      return None;
    }
    assert HasCoords(vs[0]) by { assert vs[0] in vs; }
    var minLon, maxLon := vs[0].stopLon.value, vs[0].stopLon.value;
    var minLat, maxLat := vs[0].stopLat.value, vs[0].stopLat.value;
    ghost var west, east, south, north := 0, 0, 0, 0;
    var i := 1;
    while i < |vs|
      invariant 1 <= i <= |vs|
      invariant forall j :: 0 <= j < i ==> minLon <= vs[j].stopLon.value <= maxLon && minLat <= vs[j].stopLat.value <= maxLat
      invariant 0 <= west < i && vs[west].stopLon == Some(minLon)
      invariant 0 <= east < i && vs[east].stopLon == Some(maxLon)
      invariant 0 <= south < i && vs[south].stopLat == Some(minLat)
      invariant 0 <= north < i && vs[north].stopLat == Some(maxLat)
    {
      var lon, lat := vs[i].stopLon.value, vs[i].stopLat.value;
      if lon < minLon { minLon, west := lon, i; }
      if lon > maxLon { maxLon, east := lon, i; }
      if lat < minLat { minLat, south := lat, i; }
      if lat > maxLat { maxLat, north := lat, i; }
      i := i + 1;
    }
    r := Some(Bounds(Coord(minLon, minLat), Coord(maxLon, maxLat)));
    forall s | s in stops && HasCoords(s) ensures Inside(r.value, s.stopLon.value, s.stopLat.value) {
      assert s in vs;
    }
  }
}
