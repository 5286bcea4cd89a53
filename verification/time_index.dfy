/**
 `buildTimeIndex`: every run of every trajectory on the simulation clock, filed into
 five-minute buckets. With frequencies each window of a trip is expanded into runs;
 without, every trip with a trajectory is one run.
 */
module TimeIndex {
  import opened Wrappers
  import opened SeqUtils
  import opened JsText
  import opened GtfsTypes
  import opened GtfsTime
  import opened Headways

  const BucketSize: int := 300

  /** `Math.floor(t / 300)`: Dafny's division rounds down when the divisor is positive. */
  function BucketOf(t: int): int {
    t / BucketSize
  }

  /** Floor division really is the bucket whose five minutes hold t. */
  lemma BucketOfBounds(t: int)
    ensures BucketOf(t) * BucketSize <= t < BucketOf(t) * BucketSize + BucketSize
  {
  }

  // ---------------------------------------------------------------------------
  // Buckets
  // ---------------------------------------------------------------------------

  /** The instance is filed under bucket b: b lies between the buckets of its start and its end. */
  predicate Covers(v: ActiveVehicleInstance, b: int) {
    BucketOf(v.startTime) <= b <= BucketOf(v.endTime)
  }

  /** The instances filed under bucket b, in the order they were filed. */
  function Covering(vs: seq<ActiveVehicleInstance>, b: int): (r: seq<ActiveVehicleInstance>)
    ensures forall v :: v in r <==> v in vs && Covers(v, b)
  {
    if |vs| == 0 then []
    else
      var init, v := vs[..|vs| - 1], vs[|vs| - 1];
      assert vs == init + [v];
      Covering(init, b) + (if Covers(v, b) then [v] else [])
  }

  function Get(m: map<int, seq<ActiveVehicleInstance>>, b: int): seq<ActiveVehicleInstance> {
    if b in m then m[b] else []
  }

  /** `for (bucket = lo; bucket <= hi; bucket++) buckets.get(bucket).push(v)`. */
  function AddRange(m: map<int, seq<ActiveVehicleInstance>>, v: ActiveVehicleInstance, lo: int, hi: int): (r: map<int, seq<ActiveVehicleInstance>>)
    ensures forall b :: b in r <==> b in m || lo <= b <= hi
    ensures forall b | b in r :: r[b] == if lo <= b <= hi then Get(m, b) + [v] else m[b]
    decreases hi - lo
  {
    if lo > hi then m else AddRange(m[lo := Get(m, lo) + [v]], v, lo + 1, hi)
  }

  /** Every instance filed under every bucket it covers: bucket b holds exactly the instances covering b, in order. */
  function Bucketize(vs: seq<ActiveVehicleInstance>): (m: map<int, seq<ActiveVehicleInstance>>)
    ensures forall b :: b in m <==> Covering(vs, b) != []
    ensures forall b | b in m :: m[b] == Covering(vs, b)
  {
    if |vs| == 0 then map[]
    else
      var init, v := vs[..|vs| - 1], vs[|vs| - 1];
      assert vs == init + [v];
      var m := Bucketize(init);
      BucketizeStep(init, v, m);
      AddRange(m, v, BucketOf(v.startTime), BucketOf(v.endTime))
  }

  lemma BucketizeStep(init: seq<ActiveVehicleInstance>, v: ActiveVehicleInstance, m: map<int, seq<ActiveVehicleInstance>>)
    requires forall b :: b in m <==> Covering(init, b) != []
    requires forall b | b in m :: m[b] == Covering(init, b)
    ensures var r := AddRange(m, v, BucketOf(v.startTime), BucketOf(v.endTime));
      && (forall b :: b in r <==> Covering(init + [v], b) != [])
      && (forall b | b in r :: r[b] == Covering(init + [v], b))
  {
    var vs := init + [v];
    assert vs[..|vs| - 1] == init;
    var r := AddRange(m, v, BucketOf(v.startTime), BucketOf(v.endTime));
    forall b
      ensures b in r <==> Covering(vs, b) != []
      ensures b in r ==> r[b] == Covering(vs, b)
    {
      assert Covering(vs, b) == Covering(init, b) + (if Covers(v, b) then [v] else []);
      assert Get(m, b) == Covering(init, b);
    }
  }

  /** An instance sits in exactly the buckets from the one of its start to the one of its end. */
  lemma InstanceBuckets(vs: seq<ActiveVehicleInstance>, v: ActiveVehicleInstance, b: int)
    requires v in vs
    ensures var m := Bucketize(vs); (b in m && v in m[b]) <==> BucketOf(v.startTime) <= b <= BucketOf(v.endTime)
  {
    var m := Bucketize(vs);
    if Covers(v, b) {
      assert v in Covering(vs, b);
    }
  }

  // ---------------------------------------------------------------------------
  // Instances
  // ---------------------------------------------------------------------------

  /** `trip?.route_id || ''`. */
  function RouteIdOf(trip: Option<GtfsTrip>): string {
    if trip.Some? then trip.value.routeId else ""
  }

  /** `trip?.trip_headsign`. */
  function HeadsignOf(trip: Option<GtfsTrip>): Option<string> {
    if trip.Some? then trip.value.tripHeadsign else None
  }

  /** The colour of the route a trip belongs to, the default blue when the trip or route is unknown. */
  function TripColor(routesById: map<string, GtfsRoute>, trip: Option<GtfsTrip>): (c: string)
    ensures trip.None? ==> c == DefaultColor
    ensures trip.Some? ==> c == RouteColor(Find(routesById, trip.value.routeId))
  {
    RouteColor(if trip.Some? then Find(routesById, trip.value.routeId) else None)
  }

  /** The runs of one trip as instances named `${tripId}_${number}`, each ending one trip duration after it starts. */
  function RunInstances(tripId: string, tr: PrecomputedTrajectory, trip: Option<GtfsTrip>, color: string, runs: seq<Run>): (r: seq<ActiveVehicleInstance>)
    ensures |r| == |runs|
    ensures forall i :: 0 <= i < |r| ==>
      r[i] == ActiveVehicleInstance(tripId, InstanceId(tripId, runs[i].number), tr, runs[i].departure,
                                    runs[i].departure + tr.totalDuration, RouteIdOf(trip), color, HeadsignOf(trip))
  {
    seq(|runs|, i requires 0 <= i < |runs| =>
      ActiveVehicleInstance(tripId, InstanceId(tripId, runs[i].number), tr, runs[i].departure,
                            runs[i].departure + tr.totalDuration, RouteIdOf(trip), color, HeadsignOf(trip)))
  }

  function FreqTripId(f: GtfsFrequency): string { f.tripId }
  function TripIdOf(t: GtfsTrip): string { t.tripId }
  function RouteIdOfRoute(r: GtfsRoute): string { r.routeId }

  /** The instances of one frequency trip with a trajectory: one per run of its windows. */
  function TripInstances(cache: TrajectoryCache, tripsById: map<string, GtfsTrip>, routesById: map<string, GtfsRoute>,
                         tripId: string, windows: seq<GtfsFrequency>, numbering: Numbering): (r: seq<ActiveVehicleInstance>)
    requires tripId in cache.trajectories
    ensures |r| == TotalSize(ReadWindows(windows))
    ensures forall v :: v in r ==>
      && v.tripId == tripId
      && v.trajectory == cache.trajectories[tripId]
      && v.endTime == v.startTime + v.trajectory.totalDuration
      && v.color == TripColor(routesById, Find(tripsById, tripId))
  {
    var trip := Find(tripsById, tripId);
    TripRunsSize(ReadWindows(windows), numbering, 0);
    RunInstances(tripId, cache.trajectories[tripId], trip, TripColor(routesById, trip), TripRuns(ReadWindows(windows), numbering, 0))
  }

  /** Numbered per trip, the instances of one trip carry pairwise different ids. */
  lemma PerTripIdsDistinct(cache: TrajectoryCache, tripsById: map<string, GtfsTrip>, routesById: map<string, GtfsRoute>,
                           tripId: string, windows: seq<GtfsFrequency>)
    requires tripId in cache.trajectories
    ensures var r := TripInstances(cache, tripsById, routesById, tripId, windows, PerTrip);
      forall i, j :: 0 <= i < j < |r| ==> r[i].instanceId != r[j].instanceId
  {
    var r := TripInstances(cache, tripsById, routesById, tripId, windows, PerTrip);
    TripRunsNumberedPerTrip(ReadWindows(windows), 0);
    forall i, j | 0 <= i < j < |r|
      ensures r[i].instanceId != r[j].instanceId
    {
      InstanceIdInjective(tripId, i, j);
    }
  }

  /** The number of runs the listed trips that have a trajectory yield together. */
  function FrequencyTotal(cache: TrajectoryCache, byTrip: map<string, seq<GtfsFrequency>>, ids: seq<string>): nat
    requires forall k :: k in ids ==> k in byTrip
  {
    if |ids| == 0 then 0
    else (if ids[0] in cache.trajectories then TotalSize(ReadWindows(byTrip[ids[0]])) else 0) + FrequencyTotal(cache, byTrip, ids[1..])
  }

  /**
   The instances of every frequency trip with a trajectory, trip by trip in order of
   first appearance: all the instances of each such trip and nothing else, as many as
   their windows have departures together.
   */
  function FrequencyInstances(cache: TrajectoryCache, tripsById: map<string, GtfsTrip>, routesById: map<string, GtfsRoute>,
                              byTrip: map<string, seq<GtfsFrequency>>, ids: seq<string>, numbering: Numbering): (r: seq<ActiveVehicleInstance>)
    requires forall k :: k in ids ==> k in byTrip
    ensures |r| == FrequencyTotal(cache, byTrip, ids)
    ensures forall id :: id in ids && id in cache.trajectories ==>
      forall v :: v in TripInstances(cache, tripsById, routesById, id, byTrip[id], numbering) ==> v in r
    ensures forall v :: v in r ==>
      exists id :: id in ids && id in cache.trajectories && v in TripInstances(cache, tripsById, routesById, id, byTrip[id], numbering)
    ensures forall v :: v in r ==>
      && v.tripId in ids && v.tripId in cache.trajectories
      && v.trajectory == cache.trajectories[v.tripId]
      && v.endTime == v.startTime + v.trajectory.totalDuration
    decreases |ids|
  {
    if |ids| == 0 then []
    else
      var here := if ids[0] in cache.trajectories then TripInstances(cache, tripsById, routesById, ids[0], byTrip[ids[0]], numbering) else [];
      here + FrequencyInstances(cache, tripsById, routesById, byTrip, ids[1..], numbering)
  }

  /** Every departure `start + k·headway` before the end of a valid window of the trip has an instance starting then. */
  lemma DepartureInstance(cache: TrajectoryCache, tripsById: map<string, GtfsTrip>, routesById: map<string, GtfsRoute>,
                          tripId: string, windows: seq<GtfsFrequency>, numbering: Numbering, j: nat, k: nat)
    requires tripId in cache.trajectories
    requires j < |windows| && ValidWindow(ReadWindow(windows[j]))
    requires DepartureAt(ReadWindow(windows[j]).start, windows[j].headwaySecs, k) < ReadWindow(windows[j]).end
    ensures exists v :: (v in TripInstances(cache, tripsById, routesById, tripId, windows, numbering)
                         && v.startTime == DepartureAt(ReadWindow(windows[j]).start, windows[j].headwaySecs, k))
  {
    var ws := ReadWindows(windows);
    assert ws[j] == ReadWindow(windows[j]);
    TripRunsComplete(ws, numbering, 0, j, k);
    var runs := TripRuns(ws, numbering, 0);
    var run :| run in runs && run.departure == DepartureAt(ws[j].start, ws[j].headway, k);
    var i :| 0 <= i < |runs| && runs[i] == run;
    var r := TripInstances(cache, tripsById, routesById, tripId, windows, numbering);
    assert r[i] in r && r[i].startTime == run.departure;
  }

  /** The first segment's start time, or 0 for a trajectory without segments. */
  function FirstSegmentStart(tr: PrecomputedTrajectory): int {
    if |tr.segments| > 0 then tr.segments[0].startTime else 0
  }

  /** The one run of a scheduled trip; its start is the first segment's start, a time relative to the trip. */
  function ScheduleInstance(cache: TrajectoryCache, routesById: map<string, GtfsRoute>, trip: GtfsTrip): (v: ActiveVehicleInstance)
    requires trip.tripId in cache.trajectories
    ensures v.tripId == trip.tripId && v.instanceId == trip.tripId
    ensures v.trajectory == cache.trajectories[trip.tripId]
    ensures v.startTime == FirstSegmentStart(v.trajectory)
    ensures v.endTime == v.startTime + v.trajectory.totalDuration
    ensures v.routeId == trip.routeId && v.headsign == trip.tripHeadsign
    ensures v.color == RouteColor(Find(routesById, trip.routeId))
  {
    var tr := cache.trajectories[trip.tripId];
    var start := FirstSegmentStart(tr);
    ActiveVehicleInstance(trip.tripId, trip.tripId, tr, start, start + tr.totalDuration, trip.routeId,
                          RouteColor(Find(routesById, trip.routeId)), trip.tripHeadsign)
  }

  /** One instance per trip with a trajectory, in trip order. */
  function ScheduleInstances(cache: TrajectoryCache, routesById: map<string, GtfsRoute>, trips: seq<GtfsTrip>): (r: seq<ActiveVehicleInstance>)
    ensures |r| <= |trips|
    ensures forall t :: t in trips && t.tripId in cache.trajectories ==> ScheduleInstance(cache, routesById, t) in r
    ensures forall v :: v in r ==> exists t :: t in trips && t.tripId in cache.trajectories && v == ScheduleInstance(cache, routesById, t)
  {
    if |trips| == 0 then []
    else
      var init, t := trips[..|trips| - 1], trips[|trips| - 1];
      assert trips == init + [t];
      ScheduleInstances(cache, routesById, init) + (if t.tripId in cache.trajectories then [ScheduleInstance(cache, routesById, t)] else [])
  }

  /**
   The instance list the index is built from: with frequency rows, runs of the trips
   those rows name; without them, one instance per trip that has a trajectory.
   */
  function Instances(cache: TrajectoryCache, trips: seq<GtfsTrip>, freqs: seq<GtfsFrequency>, routes: seq<GtfsRoute>, numbering: Numbering): (r: seq<ActiveVehicleInstance>)
    ensures |freqs| == 0 ==> forall v :: v in r <==>
      exists t :: t in trips && t.tripId in cache.trajectories && v == ScheduleInstance(cache, IndexBy(routes, RouteIdOfRoute), t)
    ensures |freqs| > 0 ==> forall v :: v in r ==>
      && v.tripId in KeySet(freqs, FreqTripId) && v.tripId in cache.trajectories
      && v.trajectory == cache.trajectories[v.tripId]
      && v.endTime == v.startTime + v.trajectory.totalDuration
  {
    var routesById := IndexBy(routes, RouteIdOfRoute);
    if |freqs| > 0 then
      FrequencyInstances(cache, IndexBy(trips, TripIdOf), routesById, GroupBy(freqs, FreqTripId), DistinctKeys(freqs, FreqTripId), numbering)
    else ScheduleInstances(cache, routesById, trips)
  }

  /**
   The index with instance numbers counted per window, as `buildTimeIndex` does:
   bucket b holds exactly the instances whose span covers it.
   */
  function BuildTimeIndex(cache: TrajectoryCache, trips: seq<GtfsTrip>, freqs: seq<GtfsFrequency>, routes: seq<GtfsRoute>): (r: TimeIndexedVehicles)
    ensures r.bucketSize == BucketSize
    ensures var vs := Instances(cache, trips, freqs, routes, PerWindow);
      && (forall b :: b in r.buckets <==> Covering(vs, b) != [])
      && (forall b | b in r.buckets :: r.buckets[b] == Covering(vs, b))
  {
    TimeIndexedVehicles(Bucketize(Instances(cache, trips, freqs, routes, PerWindow)), BucketSize)
  }

  /** The index with instance numbers counted on across the windows of a trip, so that ids are unique per trip. */
  function BuildTimeIndexNumberedPerTrip(cache: TrajectoryCache, trips: seq<GtfsTrip>, freqs: seq<GtfsFrequency>, routes: seq<GtfsRoute>): (r: TimeIndexedVehicles)
    ensures r.bucketSize == BucketSize
    ensures var vs := Instances(cache, trips, freqs, routes, PerTrip);
      && (forall b :: b in r.buckets <==> Covering(vs, b) != [])
      && (forall b | b in r.buckets :: r.buckets[b] == Covering(vs, b))
  {
    TimeIndexedVehicles(Bucketize(Instances(cache, trips, freqs, routes, PerTrip)), BucketSize)
  }

  /**
   With frequencies, every departure `start + k·headway` before the end of a valid
   window of a trip that has a trajectory is in the index: an instance of that trip
   starting then is filed under every bucket from the one of its start to the one of
   its end, whichever way instances are numbered.
   */
  lemma FrequencyDepartureIndexed(cache: TrajectoryCache, trips: seq<GtfsTrip>, freqs: seq<GtfsFrequency>, routes: seq<GtfsRoute>,
                                  numbering: Numbering, f: GtfsFrequency, k: nat, b: int)
    requires f in freqs && f.tripId in cache.trajectories && ValidWindow(ReadWindow(f))
    requires DepartureAt(ReadWindow(f).start, f.headwaySecs, k) < ReadWindow(f).end
    requires BucketOf(DepartureAt(ReadWindow(f).start, f.headwaySecs, k)) <= b
    requires b <= BucketOf(DepartureAt(ReadWindow(f).start, f.headwaySecs, k) + cache.trajectories[f.tripId].totalDuration)
    ensures var r := if numbering == PerWindow then BuildTimeIndex(cache, trips, freqs, routes)
                     else BuildTimeIndexNumberedPerTrip(cache, trips, freqs, routes);
      exists v: ActiveVehicleInstance :: (v.tripId == f.tripId && v.startTime == DepartureAt(ReadWindow(f).start, f.headwaySecs, k)
                                          && b in r.buckets && v in r.buckets[b])
  {
    var id := f.tripId;
    var dep := DepartureAt(ReadWindow(f).start, f.headwaySecs, k);
    var byTrip := GroupBy(freqs, FreqTripId);
    var tripsById, routesById := IndexBy(trips, TripIdOf), IndexBy(routes, RouteIdOfRoute);
    assert id == FreqTripId(f) && id in KeySet(freqs, FreqTripId);
    var windows := byTrip[id];
    assert f in windows;
    var j :| 0 <= j < |windows| && windows[j] == f;
    DepartureInstance(cache, tripsById, routesById, id, windows, numbering, j, k);
    var v :| v in TripInstances(cache, tripsById, routesById, id, windows, numbering) && v.startTime == dep;
    var vs := Instances(cache, trips, freqs, routes, numbering);
    assert id in DistinctKeys(freqs, FreqTripId);
    assert v in vs;
    InstanceBuckets(vs, v, b);
  }

  /** A time written as the number HH0000 reads as HH whole hours. */
  lemma {:induction false} ReadWholeHour(n: nat, h: nat)
    requires h < 24 && n == h * 10000
    ensures ParseGtfsTime(Numeric(n)) == h * 3600
  {
    DivModUnique(n, 10000, h, 0);
    DivModUnique(n, 100, h * 100, 0);
    DivModUnique(h * 100, 100, h, 0);
  }

  lemma FirstInstanceId()
    ensures InstanceId("T", 0) == "T_0"
  {
    assert NatToString(0) == "0";
  }

  /** An hour of departures every ten minutes. */
  predicate HourlyTenMinutes(w: Window) {
    w.start >= 0 && w.end == w.start + 3600 && w.headway == 600
  }

  /** Such a window departs six times, the first time at its start. */
  lemma HourOfRuns(w: Window)
    requires HourlyTenMinutes(w)
    ensures |WindowDeps(w)| == 6 && WindowDeps(w)[0] == w.start
  {
    DeparturesCount(w.start, w.end, w.headway);
    assert DepartureAt(w.start, w.headway, 0) == w.start;
  }

  /** Counted per window, two such windows yield twelve runs, and the first run of each is numbered 0. */
  lemma SecondWindowRestarts(w0: Window, w1: Window)
    requires HourlyTenMinutes(w0) && HourlyTenMinutes(w1)
    ensures var runs := TripRuns([w0, w1], PerWindow, 0);
      |runs| == 12 && runs[0] == Run(0, w0.start) && runs[6] == Run(0, w1.start)
  {
    HourOfRuns(w0);
    HourOfRuns(w1);
    var dss := DepartureLists([w0, w1]);
    var first, here, rest := NumberWindowsSplit(dss, PerWindow, 0);
    var first', here', rest' := NumberWindowsSplit(dss[1..], PerWindow, |here|);
    assert |dss[1..][1..]| == 0;
  }

  /** The two example rows read as the windows 06:00–07:00 and 07:00–08:00, every ten minutes. */
  lemma {:induction false} ExampleWindows(fs: seq<GtfsFrequency>)
    requires fs == [GtfsFrequency("T", Numeric(60000), Numeric(70000), 600), GtfsFrequency("T", Numeric(70000), Numeric(80000), 600)]
    ensures ReadWindows(fs) == [Window(21600, 25200, 600), Window(25200, 28800, 600)]
  {
    HourWindow(fs[0], 60000, 6, 70000, 7);
    HourWindow(fs[1], 70000, 7, 80000, 8);
    ReadWindowsPair(fs[0], fs[1]);
  }

  lemma ReadWindowsPair(f0: GtfsFrequency, f1: GtfsFrequency)
    ensures ReadWindows([f0, f1]) == [ReadWindow(f0), ReadWindow(f1)]
  {
    var ws := ReadWindows([f0, f1]);
    assert ws == [ws[0], ws[1]];
  }

  /** A row whose start and end are the numbers HH0000 reads as a window of whole hours. */
  lemma HourWindow(f: GtfsFrequency, n0: nat, h0: nat, n1: nat, h1: nat)
    requires h0 < 24 && n0 == h0 * 10000 && h1 < 24 && n1 == h1 * 10000
    requires f.startTime == Numeric(n0) && f.endTime == Numeric(n1)
    ensures ReadWindow(f) == Window(h0 * 3600, h1 * 3600, f.headwaySecs)
  {
    ReadWholeHour(n0, h0);
    ReadWholeHour(n1, h1);
  }

  /**
   Two windows of one trip, 06:00–07:00 and 07:00–08:00 every ten minutes (times
   written as the numbers 60000, 70000 and 80000): counted per window, the first
   run of each window is called `T_0`, although they depart an hour apart.
   */
  lemma {:induction false} WindowNumberingCollides(tr: PrecomputedTrajectory, fs: seq<GtfsFrequency>)
    requires fs == [GtfsFrequency("T", Numeric(60000), Numeric(70000), 600), GtfsFrequency("T", Numeric(70000), Numeric(80000), 600)]
    ensures var cache := TrajectoryCache(map["T" := tr], map[], map[]);
      var r := TripInstances(cache, map[], map[], "T", fs, PerWindow);
      && |r| == 12
      && r[0].instanceId == "T_0" && r[6].instanceId == "T_0"
      && r[0].startTime == 21600 && r[6].startTime == 25200
  {
    ExampleWindows(fs);
    RestartsInWindows(tr, fs);
  }

  /** Any frequency rows of trip `T` that read as those two windows give the colliding instances. */
  lemma RestartsInWindows(tr: PrecomputedTrajectory, fs: seq<GtfsFrequency>)
    requires ReadWindows(fs) == [Window(21600, 25200, 600), Window(25200, 28800, 600)]
    ensures var cache := TrajectoryCache(map["T" := tr], map[], map[]);
      var r := TripInstances(cache, map[], map[], "T", fs, PerWindow);
      && |r| == 12
      && r[0].instanceId == "T_0" && r[6].instanceId == "T_0"
      && r[0].startTime == 21600 && r[6].startTime == 25200
  {
    SecondWindowRestarts(Window(21600, 25200, 600), Window(25200, 28800, 600));
    FirstInstanceId();
  }
}
