/**
 The first positioning engine, which works on raw stop times: pick the vehicles
 running at a clock reading, find where each one is between two stops, and turn
 that into a vehicle position. Two flaws of this engine are modelled both as
 written and as evidently intended (`Engine`): instance numbers restart in every
 frequency window, and the time handed to the interpolation is measured from the
 instance's departure while the stop times it is compared with are clock times.
 */
module VehicleInterpolator {
  import opened Wrappers
  import opened SeqUtils
  import opened JsText
  import opened GtfsTypes
  import opened GtfsTime
  import opened Headways
  import TrajectoryPrecomputer
  import TimeIndex
  import ShapeInterpolator

  // ---------------------------------------------------------------------------
  // Trips and their durations
  // ---------------------------------------------------------------------------

  /** A trip's stop times in stop order, and the time from its first departure to its last arrival. */
  datatype TripData = TripData(duration: int, stopTimes: seq<GtfsStopTime>)

  /** A vehicle on the road: which trip, under which id, since when, for how long. */
  datatype ActiveVehicle = ActiveVehicle(
    tripId: string,
    instanceId: string,
    tripStartTime: int,
    tripDuration: int,
    stopTimes: seq<GtfsStopTime>)

  /** A trip whose first departure and last arrival both read. */
  predicate Readable(sts: seq<GtfsStopTime>) {
    |sts| > 0 && TrajectoryPrecomputer.FirstTime(sts) >= 0 && TrajectoryPrecomputer.LastTime(sts) >= 0
  }

  /** The trips kept for simulation: exactly the readable ones, with their duration. */
  function TripDurations(byTrip: map<string, seq<GtfsStopTime>>): (m: map<string, TripData>)
    ensures forall k :: k in m <==> k in byTrip && Readable(byTrip[k])
    ensures forall k | k in m :: (m[k].stopTimes == byTrip[k] && Readable(m[k].stopTimes)
      && TrajectoryPrecomputer.FirstTime(byTrip[k]) + m[k].duration == TrajectoryPrecomputer.LastTime(byTrip[k]))
  {
    map k | k in byTrip && Readable(byTrip[k]) ::
      TripData(TrajectoryPrecomputer.LastTime(byTrip[k]) - TrajectoryPrecomputer.FirstTime(byTrip[k]), byTrip[k])
  }

  // ---------------------------------------------------------------------------
  // getActiveVehicles, schedule mode
  // ---------------------------------------------------------------------------

  /** A scheduled trip runs from its first departure to its last arrival, both ends included. */
  predicate RunsAt(d: TripData, now: int) {
    |d.stopTimes| > 0 && TrajectoryPrecomputer.FirstTime(d.stopTimes) <= now <= TrajectoryPrecomputer.LastTime(d.stopTimes)
  }

  function ScheduledVehicle(tripId: string, d: TripData): ActiveVehicle
    requires |d.stopTimes| > 0
  {
    ActiveVehicle(tripId, tripId, TrajectoryPrecomputer.FirstTime(d.stopTimes), d.duration, d.stopTimes)
  }

  /** The listed trips running now, each under its own trip id. */
  function ScheduleVehicles(durations: map<string, TripData>, ids: seq<string>, now: int): (r: seq<ActiveVehicle>)
    ensures forall v :: v in r <==> exists id :: id in ids && id in durations && RunsAt(durations[id], now) && v == ScheduledVehicle(id, durations[id])
    decreases |ids|
  {
    if |ids| == 0 then []
    else
      var rest := ScheduleVehicles(durations, ids[1..], now);
      var id := ids[0];
      if id in durations && RunsAt(durations[id], now) then [ScheduledVehicle(id, durations[id])] + rest
      else rest
  }

  // ---------------------------------------------------------------------------
  // getActiveVehicles, frequency mode
  // ---------------------------------------------------------------------------

  /** An instance departing at `dep` is on the road from `dep` to `dep + duration`, both ends included. */
  predicate Covers(dep: int, duration: int, now: int) {
    dep <= now <= dep + duration
  }

  ghost predicate Increasing(runs: seq<Run>) {
    forall i, j :: 0 <= i < j < |runs| ==> runs[i].number < runs[j].number
  }

  /** The runs on the road now, in order. */
  function ActiveRuns(runs: seq<Run>, duration: int, now: int): (r: seq<Run>)
    ensures forall x :: x in r <==> x in runs && Covers(x.departure, duration, now)
  {
    if |runs| == 0 then []
    else
      var rest := ActiveRuns(runs[1..], duration, now);
      assert forall x :: x in runs[1..] ==> x in runs;
      if Covers(runs[0].departure, duration, now) then [runs[0]] + rest else rest
  }

  /** Keeping only the runs on the road keeps their numbers increasing. */
  lemma {:induction false} ActiveRunsIncreasing(runs: seq<Run>, duration: int, now: int)
    requires Increasing(runs)
    ensures Increasing(ActiveRuns(runs, duration, now))
  {
    if |runs| > 0 {
      var rest := ActiveRuns(runs[1..], duration, now);
      ActiveRunsIncreasing(runs[1..], duration, now);
      if Covers(runs[0].departure, duration, now) {
        forall y | y in rest ensures runs[0].number < y.number {
          var k :| 0 <= k < |runs[1..]| && runs[1..][k] == y;
          assert runs[k + 1] == y;
        }
        ConsIncreasing(runs[0], rest);
      } else {
        assert ActiveRuns(runs, duration, now) == rest;
      }
    } else {
      assert ActiveRuns(runs, duration, now) == [];
    }
  }

  lemma ConsIncreasing(x: Run, s: seq<Run>)
    requires Increasing(s) && forall y :: y in s ==> x.number < y.number
    ensures Increasing([x] + s)
  {
    var r := [x] + s;
    forall i, j | 0 <= i < j < |r| ensures r[i].number < r[j].number {
      assert r[j] == s[j - 1] && r[j] in s;
      if i > 0 {
        assert r[i] == s[i - 1];
      }
    }
  }

  function FrequencyVehicle(tripId: string, d: TripData, run: Run): ActiveVehicle {
    ActiveVehicle(tripId, InstanceId(tripId, run.number), run.departure, d.duration, d.stopTimes)
  }

  /** The runs of a trip's windows, window after window. */
  function WindowRunsOf(windows: seq<GtfsFrequency>, numbering: Numbering): seq<Run> {
    TripRuns(ReadWindows(windows), numbering, 0)
  }

  /** The instances of one trip on the road now, among the given runs. */
  function RunVehicles(tripId: string, d: TripData, runs: seq<Run>, now: int): (r: seq<ActiveVehicle>)
    ensures forall v :: v in r <==> exists run :: (run in runs
      && Covers(run.departure, d.duration, now) && v == FrequencyVehicle(tripId, d, run))
  {
    var active := ActiveRuns(runs, d.duration, now);
    var r := seq(|active|, i requires 0 <= i < |active| => FrequencyVehicle(tripId, d, active[i]));
    assert forall i :: 0 <= i < |active| ==> r[i] == FrequencyVehicle(tripId, d, active[i]) && active[i] in active;
    r
  }

  /** The instances of one trip on the road now, over all its windows. */
  function TripVehicles(tripId: string, d: TripData, windows: seq<GtfsFrequency>, now: int, numbering: Numbering): (r: seq<ActiveVehicle>)
    ensures forall v :: v in r <==> exists run :: (run in WindowRunsOf(windows, numbering)
      && Covers(run.departure, d.duration, now) && v == FrequencyVehicle(tripId, d, run))
  {
    RunVehicles(tripId, d, WindowRunsOf(windows, numbering), now)
  }

  /** Numbered per trip, the instances of one trip on the road carry pairwise different ids. */
  lemma PerTripInstanceIdsDistinct(tripId: string, d: TripData, windows: seq<GtfsFrequency>, now: int)
    ensures var r := TripVehicles(tripId, d, windows, now, PerTrip);
      forall i, j :: 0 <= i < j < |r| ==> r[i].instanceId != r[j].instanceId
  {
    var runs := WindowRunsOf(windows, PerTrip);
    TripRunsNumberedPerTrip(ReadWindows(windows), 0);
    assert Increasing(runs);
    ActiveRunsIncreasing(runs, d.duration, now);
    var active := ActiveRuns(runs, d.duration, now);
    var r := TripVehicles(tripId, d, windows, now, PerTrip);
    forall i, j | 0 <= i < j < |r|
      ensures r[i].instanceId != r[j].instanceId
    {
      InstanceIdInjective(tripId, active[i].number, active[j].number);
    }
  }

  /** The instances on the road now of the listed trips that have stop times, trip after trip. */
  function FrequencyVehicles(durations: map<string, TripData>, byTrip: map<string, seq<GtfsFrequency>>, ids: seq<string>,
                             now: int, numbering: Numbering): (r: seq<ActiveVehicle>)
    requires forall k :: k in ids ==> k in byTrip
    ensures forall v :: v in r <==> exists id :: id in ids && id in durations && v in TripVehicles(id, durations[id], byTrip[id], now, numbering)
    decreases |ids|
  {
    if |ids| == 0 then []
    else
      var id := ids[0];
      var here := if id in durations then TripVehicles(id, durations[id], byTrip[id], now, numbering) else [];
      here + FrequencyVehicles(durations, byTrip, ids[1..], now, numbering)
  }

  function FreqTripId(f: GtfsFrequency): string { f.tripId }

  /**
   The vehicles on the road at `now`. With any frequency rows at all, only frequency
   trips are simulated: every run of every valid window of a trip that has stop times,
   while it is between its departure and its departure plus the trip's duration. Without
   frequency rows, every readable trip between its first departure and its last arrival,
   under its own id.
   */
  function GetActiveVehicles(stopTimes: seq<GtfsStopTime>, freqs: seq<GtfsFrequency>, now: int, numbering: Numbering): (r: seq<ActiveVehicle>)
    ensures var durations := TripDurations(TrajectoryPrecomputer.StopTimesByTrip(stopTimes));
      |freqs| == 0 ==> forall v :: v in r <==> exists id :: id in durations && RunsAt(durations[id], now) && v == ScheduledVehicle(id, durations[id])
    ensures var durations := TripDurations(TrajectoryPrecomputer.StopTimesByTrip(stopTimes));
      |freqs| > 0 ==> forall v :: v in r <==> exists id :: (id in KeySet(freqs, FreqTripId) && id in durations
        && v in TripVehicles(id, durations[id], FilterBy(freqs, FreqTripId, id), now, numbering))
  {
    var byTrip := TrajectoryPrecomputer.StopTimesByTrip(stopTimes);
    var durations := TripDurations(byTrip);
    if |freqs| > 0 then
      FrequencyVehicles(durations, GroupBy(freqs, FreqTripId), DistinctKeys(freqs, FreqTripId), now, numbering)
    else
      ScheduleVehicles(durations, DistinctKeys(stopTimes, TrajectoryPrecomputer.TripIdOf), now)
  }

  /** In frequency mode a vehicle departs at a departure of a valid window of its trip, and is on the road now. */
  lemma FrequencyVehicleFromWindow(tripId: string, d: TripData, windows: seq<GtfsFrequency>, now: int, numbering: Numbering, v: ActiveVehicle)
    requires v in TripVehicles(tripId, d, windows, now, numbering)
    ensures FromSomeWindow(ReadWindows(windows), v.tripStartTime)
    ensures v.tripId == tripId && Covers(v.tripStartTime, d.duration, now)
    ensures exists k: nat :: v.instanceId == InstanceId(tripId, k)
  {
    var run :| run in WindowRunsOf(windows, numbering) && Covers(run.departure, d.duration, now) && v == FrequencyVehicle(tripId, d, run);
    TripRunsFromWindows(ReadWindows(windows), numbering, 0);
  }

  // ---------------------------------------------------------------------------
  // interpolateVehiclePosition
  // ---------------------------------------------------------------------------

  /** A stop time with both of its times read. */
  datatype TimedStop = TimedStop(stopId: string, arrival: int, departure: int)

  function Timed(st: GtfsStopTime): TimedStop {
    TimedStop(st.stopId, ParseGtfsTime(st.arrivalTime), ParseGtfsTime(st.departureTime))
  }

  function TimedStops(sts: seq<GtfsStopTime>): (ts: seq<TimedStop>)
    ensures |ts| == |sts| && forall i :: 0 <= i < |sts| ==> ts[i] == Timed(sts[i])
  {
    seq(|sts|, i requires 0 <= i < |sts| => Timed(sts[i]))
  }

  predicate ValidTimes(s: TimedStop) {
    s.arrival >= 0 && s.departure >= 0
  }

  /**
   The scan moves past a stop time when its times do not read, or when the vehicle
   has reached it and is not shown dwelling there (it has left, or the stop is unknown).
   */
  predicate Passed(ts: seq<TimedStop>, stops: map<string, GtfsStop>, e: int, j: nat)
    requires j < |ts|
  {
    !ValidTimes(ts[j]) || (e >= ts[j].arrival && !(e <= ts[j].departure && ts[j].stopId in stops))
  }

  /** Where the scan stops: dwelling at a stop, heading for a stop not reached yet, or past the end. */
  datatype Bracket = AtStop(index: nat) | Before(index: nat) | Beyond

  /** The end of the scan from `i`: the first stop time not passed, or past the end. */
  function Locate(ts: seq<TimedStop>, stops: map<string, GtfsStop>, e: int, i: nat): (b: Bracket)
    requires i <= |ts|
    ensures b.AtStop? ==> (i <= b.index < |ts| && ValidTimes(ts[b.index])
      && ts[b.index].arrival <= e <= ts[b.index].departure && ts[b.index].stopId in stops)
    ensures b.Before? ==> i <= b.index < |ts| && ValidTimes(ts[b.index]) && e < ts[b.index].arrival
    ensures b.Beyond? ==> forall j :: i <= j < |ts| ==> Passed(ts, stops, e, j)
    ensures !b.Beyond? ==> forall j :: i <= j < b.index ==> Passed(ts, stops, e, j)
    decreases |ts| - i
  {
    if i == |ts| then Beyond
    else
      var s := ts[i];
      if !ValidTimes(s) then Locate(ts, stops, e, i + 1)
      else if e < s.arrival then Before(i)
      else if e <= s.departure && s.stopId in stops then AtStop(i)
      else Locate(ts, stops, e, i + 1)
  }

  /** A position between stops, without the trip-level fields. */
  datatype VehicleFix = VehicleFix(position: Coord, bearing: real, nextStopId: string, progress: real)

  /**
   The vehicle between the departure from `prev` and the arrival at `next`: the
   fraction of the leg's time gone by, and the blend of the two stops' coordinates
   at that fraction, headed from one stop to the other.
   */
  function LegFix(geo: Geo, prev: GtfsStop, next: GtfsStop, nextId: string, prevDeparture: int, nextArrival: int, e: int): (f: VehicleFix)
    ensures 0.0 <= f.progress <= 1.0
    ensures nextArrival <= prevDeparture ==> f.progress == 0.0
    ensures prevDeparture <= e <= nextArrival && prevDeparture < nextArrival ==>
      prevDeparture as real + f.progress * (nextArrival - prevDeparture) as real == e as real
    ensures ShapeInterpolator.Within(StopCoord(prev), StopCoord(next), f.position)
    ensures f.progress == 0.0 ==> f.position == StopCoord(prev)
    ensures f.progress == 1.0 ==> f.position == StopCoord(next)
    ensures f.nextStopId == nextId && 0.0 <= f.bearing < 360.0
  {
    var t := ShapeInterpolator.LegFraction(prevDeparture, nextArrival, e);
    var a, b := StopCoord(prev), StopCoord(next);
    ShapeInterpolator.LerpBetween(a.lon, b.lon, t);
    ShapeInterpolator.LerpBetween(a.lat, b.lat, t);
    var position := Coord(ShapeInterpolator.Lerp(a.lon, b.lon, t), ShapeInterpolator.Lerp(a.lat, b.lat, t));
    VehicleFix(position, geo.bearing(a.lat, a.lon, b.lat, b.lon), nextId, t)
  }

  /**
   The position at time `e` along a trip's read stop times. The scan ends at the first
   stop time it does not pass: dwelling there gives the stop's coordinates with
   progress 0; heading for it gives a point on the leg from the stop time before it,
   when both stops are known; running off the end, or heading for the very first
   stop time, gives no position.
   */
  function InterpolateTimed(geo: Geo, ts: seq<TimedStop>, stops: map<string, GtfsStop>, e: int): (r: Option<VehicleFix>)
    ensures r.Some? ==> 0.0 <= r.value.progress <= 1.0
    ensures var b := Locate(ts, stops, e, 0);
      && (b.Beyond? ==> r == None)
      && (b.AtStop? ==> r == Some(VehicleFix(StopCoord(stops[ts[b.index].stopId]), 0.0, ts[b.index].stopId, 0.0)))
      && (b.Before? && b.index == 0 ==> r == None)
      && (b.Before? && b.index > 0 ==> (r.Some? <==> ts[b.index - 1].stopId in stops && ts[b.index].stopId in stops))
      && (b.Before? && r.Some? ==> (b.index > 0 && Travelling(ts, stops, e, b.index, r.value)))
  {
    match Locate(ts, stops, e, 0)
    case Beyond => None
    case AtStop(i) => Some(VehicleFix(StopCoord(stops[ts[i].stopId]), 0.0, ts[i].stopId, 0.0))
    case Before(i) =>
      if i == 0 then None
      else if ts[i - 1].stopId !in stops || ts[i].stopId !in stops then None
      else Some(LegFix(geo, stops[ts[i - 1].stopId], stops[ts[i].stopId], ts[i].stopId, ts[i - 1].departure, ts[i].arrival, e))
  }

  /**
   A fix on the leg into stop time `i`: headed for that stop, inside the box of the
   two stops, at the fraction of the leg's time gone by (0 for a leg without time).
   */
  ghost predicate Travelling(ts: seq<TimedStop>, stops: map<string, GtfsStop>, e: int, i: nat, f: VehicleFix)
    requires 0 < i < |ts| && ts[i - 1].stopId in stops && ts[i].stopId in stops
  {
    var prev, next := ts[i - 1], ts[i];
    && f.nextStopId == next.stopId
    && ShapeInterpolator.Within(StopCoord(stops[prev.stopId]), StopCoord(stops[next.stopId]), f.position)
    && (next.arrival <= prev.departure ==> f.progress == 0.0)
    && (prev.departure <= e <= next.arrival && prev.departure < next.arrival ==>
          prev.departure as real + f.progress * (next.arrival - prev.departure) as real == e as real)
  }

  /**
   `interpolateVehiclePosition`: the stop times' times are read as the scan reaches them.
   A fix heads for a known stop of the trip, with progress in [0, 1]; there is none
   before the first stop's arrival.
   */
  function InterpolateVehiclePosition(geo: Geo, sts: seq<GtfsStopTime>, stops: map<string, GtfsStop>, e: int): (r: Option<VehicleFix>)
    ensures r.Some? ==> 0.0 <= r.value.progress <= 1.0
    ensures r.Some? ==> r.value.nextStopId in stops && exists i :: 0 <= i < |sts| && sts[i].stopId == r.value.nextStopId
    ensures |sts| > 0 && ValidTimes(Timed(sts[0])) && e < ParseGtfsTime(sts[0].arrivalTime) ==> r == None
  {
    var ts := TimedStops(sts);
    NoFixBeforeStart(geo, ts, stops, e);
    InterpolateTimed(geo, ts, stops, e)
  }

  lemma NoFixBeforeStart(geo: Geo, ts: seq<TimedStop>, stops: map<string, GtfsStop>, e: int)
    ensures |ts| > 0 && ValidTimes(ts[0]) && e < ts[0].arrival ==> InterpolateTimed(geo, ts, stops, e) == None
  {
    if |ts| > 0 && ValidTimes(ts[0]) && e < ts[0].arrival {
      NoPositionBeforeFirstArrival(geo, ts, stops, e);
    }
  }

  /** Before the first arrival of a trip whose first stop time reads, there is no position. */
  lemma NoPositionBeforeFirstArrival(geo: Geo, ts: seq<TimedStop>, stops: map<string, GtfsStop>, e: int)
    requires |ts| > 0 && ValidTimes(ts[0]) && e < ts[0].arrival
    ensures InterpolateTimed(geo, ts, stops, e) == None
  {
    assert Locate(ts, stops, e, 0) == Before(0);
  }

  /** Once every time of a trip has gone by, there is no position. */
  lemma {:induction false} NoPositionAfterLastDeparture(geo: Geo, ts: seq<TimedStop>, stops: map<string, GtfsStop>, e: int)
    requires forall j :: 0 <= j < |ts| ==> !ValidTimes(ts[j]) || (e > ts[j].departure && e >= ts[j].arrival)
    ensures InterpolateTimed(geo, ts, stops, e) == None
  {
    LocatePassesAll(ts, stops, e, 0);
  }

  lemma {:induction false} LocatePassesAll(ts: seq<TimedStop>, stops: map<string, GtfsStop>, e: int, i: nat)
    requires i <= |ts|
    requires forall j :: i <= j < |ts| ==> !ValidTimes(ts[j]) || (e > ts[j].departure && e >= ts[j].arrival)
    ensures Locate(ts, stops, e, i) == Beyond
    decreases |ts| - i
  {
    if i < |ts| {
      LocatePassesAll(ts, stops, e, i + 1);
    }
  }

  // ---------------------------------------------------------------------------
  // A trip that keeps to its timetable always has a position while it runs
  // ---------------------------------------------------------------------------

  /** Every time reads, the vehicle never leaves a stop before arriving, and never arrives before leaving the one before. */
  predicate Orderly(ts: seq<TimedStop>) {
    && (forall i :: 0 <= i < |ts| ==> 0 <= ts[i].arrival <= ts[i].departure)
    && (forall i :: 0 < i < |ts| ==> ts[i - 1].departure <= ts[i].arrival)
  }

  predicate AllKnown(ts: seq<TimedStop>, stops: map<string, GtfsStop>) {
    forall i :: 0 <= i < |ts| ==> ts[i].stopId in stops
  }

  /** Once the vehicle has reached stop time `i` and not yet arrived at the last one, the scan ends dwelling or on a later leg. */
  lemma {:induction false} LocateFinds(ts: seq<TimedStop>, stops: map<string, GtfsStop>, e: int, i: nat)
    requires Orderly(ts) && AllKnown(ts, stops)
    requires i < |ts| && ts[i].arrival <= e <= ts[|ts| - 1].arrival
    ensures var b := Locate(ts, stops, e, i);
      b.AtStop? || (b.Before? && b.index > i)
    decreases |ts| - i
  {
    if e > ts[i].departure {
      assert i + 1 < |ts|;
      if e >= ts[i + 1].arrival {
        LocateFinds(ts, stops, e, i + 1);
      }
    }
  }

  /**
   For a trip whose times all read and run in order and whose stops are all known,
   the interpolation yields a position at every clock reading from the first
   departure to the last arrival.
   */
  lemma {:induction false} PositionWhileRunning(geo: Geo, ts: seq<TimedStop>, stops: map<string, GtfsStop>, e: int)
    requires Orderly(ts) && AllKnown(ts, stops)
    requires |ts| > 0 && ts[0].departure <= e <= ts[|ts| - 1].arrival
    ensures InterpolateTimed(geo, ts, stops, e).Some?
  {
    LocateFinds(ts, stops, e, 0);
  }

  // ---------------------------------------------------------------------------
  // getVehiclePositions
  // ---------------------------------------------------------------------------

  /** The engine as written, or with instances numbered per trip and the stop times read on their own clock. */
  datatype Engine = AsWritten | Corrected

  function NumberingOf(engine: Engine): Numbering {
    if engine == AsWritten then PerWindow else PerTrip
  }

  /**
   The time handed to the interpolation. As written it is the time since the instance
   departed, although the stop times it is compared with are clock times; corrected,
   that span is added to the trip's first departure, the clock the stop times use.
   */
  function InterpolationClock(engine: Engine, v: ActiveVehicle, now: int): (e: int)
    ensures engine == AsWritten ==> e + v.tripStartTime == now
    ensures engine == Corrected && |v.stopTimes| > 0 ==> e - TrajectoryPrecomputer.FirstTime(v.stopTimes) == now - v.tripStartTime
  {
    var elapsed := now - v.tripStartTime;
    if engine == AsWritten || |v.stopTimes| == 0 then elapsed
    else TrajectoryPrecomputer.FirstTime(v.stopTimes) + elapsed
  }

  /** The lookup tables built from the feed: stops, trips and routes by id, the last row winning. */
  datatype Lookups = Lookups(stops: map<string, GtfsStop>, trips: map<string, GtfsTrip>, routes: map<string, GtfsRoute>)

  /**
   The position of one vehicle, when the interpolation gives one: reported under the
   instance id, with the trip's route (or empty), headsign and route colour.
   */
  function PositionOf(geo: Geo, engine: Engine, t: Lookups, v: ActiveVehicle, now: int): (p: Option<VehiclePosition>)
    ensures var fix := InterpolateVehiclePosition(geo, v.stopTimes, t.stops, InterpolationClock(engine, v, now));
      && (p.Some? <==> fix.Some?)
      && (p.Some? ==>
          var trip := Find(t.trips, v.tripId);
          && p.value.tripId == v.instanceId
          && p.value.position == fix.value.position && p.value.bearing == fix.value.bearing
          && p.value.nextStopId == fix.value.nextStopId && p.value.progress == fix.value.progress
          && StartsWith(p.value.color, "#")
          && p.value.color == TimeIndex.TripColor(t.routes, trip)
          && (trip.None? ==> p.value.routeId == "" && p.value.headsign.None?)
          && (trip.Some? ==> p.value.routeId == trip.value.routeId && p.value.headsign == trip.value.tripHeadsign))
  {
    var fix := InterpolateVehiclePosition(geo, v.stopTimes, t.stops, InterpolationClock(engine, v, now));
    if fix.None? then None
    else
      var trip := Find(t.trips, v.tripId);
      Some(VehiclePosition(v.instanceId, TimeIndex.RouteIdOf(trip), fix.value.position, fix.value.bearing,
                           fix.value.nextStopId, fix.value.progress, TimeIndex.TripColor(t.routes, trip), TimeIndex.HeadsignOf(trip)))
  }

  /** The positions of the vehicles that have one, in vehicle order. */
  function Positions(geo: Geo, engine: Engine, t: Lookups, vs: seq<ActiveVehicle>, now: int): (r: seq<VehiclePosition>)
    ensures |r| <= |vs|
    ensures forall p :: p in r <==> exists v :: v in vs && PositionOf(geo, engine, t, v, now) == Some(p)
  {
    if |vs| == 0 then []
    else
      var rest := Positions(geo, engine, t, vs[1..], now);
      var p := PositionOf(geo, engine, t, vs[0], now);
      if p.Some? then [p.value] + rest else rest
  }

  function StopIdOf(s: GtfsStop): string { s.stopId }

  function ReadLookups(trips: seq<GtfsTrip>, routes: seq<GtfsRoute>, stops: seq<GtfsStop>): Lookups {
    Lookups(IndexBy(stops, StopIdOf), IndexBy(trips, TimeIndex.TripIdOf), IndexBy(routes, TimeIndex.RouteIdOfRoute))
  }

  /** One position per active vehicle whose interpolation gives one. */
  function GetVehiclePositions(geo: Geo, engine: Engine, stopTimes: seq<GtfsStopTime>, trips: seq<GtfsTrip>, routes: seq<GtfsRoute>,
                               stops: seq<GtfsStop>, freqs: seq<GtfsFrequency>, now: int): (r: seq<VehiclePosition>)
    ensures var active := GetActiveVehicles(stopTimes, freqs, now, NumberingOf(engine));
      && |r| <= |active|
      && forall p :: p in r <==> exists v :: v in active && PositionOf(geo, engine, ReadLookups(trips, routes, stops), v, now) == Some(p)
  {
    var active := GetActiveVehicles(stopTimes, freqs, now, NumberingOf(engine));
    Positions(geo, engine, ReadLookups(trips, routes, stops), active, now)
  }

  /**
   Corrected, a scheduled vehicle on the road whose trip keeps to its timetable and
   whose stops are all known always has a position.
   */
  lemma {:induction false} CorrectedScheduledVehiclePlaced(geo: Geo, t: Lookups, tripId: string, d: TripData, now: int)
    requires RunsAt(d, now)
    requires Orderly(TimedStops(d.stopTimes)) && AllKnown(TimedStops(d.stopTimes), t.stops)
    ensures PositionOf(geo, Corrected, t, ScheduledVehicle(tripId, d), now).Some?
  {
    var v := ScheduledVehicle(tripId, d);
    assert InterpolationClock(Corrected, v, now) == now;
    PositionWhileRunning(geo, TimedStops(d.stopTimes), t.stops, now);
  }

  // ---------------------------------------------------------------------------
  // The two flaws on small feeds
  // ---------------------------------------------------------------------------

  /**
   A trip from A at 08:00 to B at 08:10 (any two time fields that read so, such as
   "08:00:00" and "08:10:00"), looked at 08:05: it is on the road, but as written
   the interpolation is asked about 300 seconds, which lies before the first arrival
   at 08:00, so the vehicle gets no position; corrected it gets one.
   */
  lemma {:induction false} ScheduledTripVanishes(geo: Geo, t: Lookups, eight: TimeValue, tenPast: TimeValue)
    requires ParseGtfsTime(eight) == 28800 && ParseGtfsTime(tenPast) == 29400
    requires "A" in t.stops && "B" in t.stops
    ensures var d := TripData(600, [GtfsStopTime("T", eight, eight, "A", 1), GtfsStopTime("T", tenPast, tenPast, "B", 2)]);
      && RunsAt(d, 29100)
      && PositionOf(geo, AsWritten, t, ScheduledVehicle("T", d), 29100) == None
      && PositionOf(geo, Corrected, t, ScheduledVehicle("T", d), 29100).Some?
  {
    var d := TripData(600, [GtfsStopTime("T", eight, eight, "A", 1), GtfsStopTime("T", tenPast, tenPast, "B", 2)]);
    var ts := ExampleTimed(d.stopTimes, eight, tenPast);
    AsWrittenAsksTooEarly(geo, t, d, ts);
    ExamplePlaced(geo, t, d, ts);
  }

  lemma ExamplePlaced(geo: Geo, t: Lookups, d: TripData, ts: seq<TimedStop>)
    requires |d.stopTimes| > 0 && ts == TimedStops(d.stopTimes)
    requires ts == [TimedStop("A", 28800, 28800), TimedStop("B", 29400, 29400)]
    requires TrajectoryPrecomputer.FirstTime(d.stopTimes) == 28800 && TrajectoryPrecomputer.LastTime(d.stopTimes) == 29400
    requires "A" in t.stops && "B" in t.stops
    ensures RunsAt(d, 29100) && PositionOf(geo, Corrected, t, ScheduledVehicle("T", d), 29100).Some?
  {
    ExampleOrderly(ts, t.stops);
    CorrectedScheduledVehiclePlaced(geo, t, "T", d, 29100);
  }

  lemma ExampleOrderly(ts: seq<TimedStop>, stops: map<string, GtfsStop>)
    requires ts == [TimedStop("A", 28800, 28800), TimedStop("B", 29400, 29400)]
    requires "A" in stops && "B" in stops
    ensures Orderly(ts) && AllKnown(ts, stops)
  {
  }

  lemma ExampleTimed(sts: seq<GtfsStopTime>, eight: TimeValue, tenPast: TimeValue) returns (ts: seq<TimedStop>)
    requires ParseGtfsTime(eight) == 28800 && ParseGtfsTime(tenPast) == 29400
    requires sts == [GtfsStopTime("T", eight, eight, "A", 1), GtfsStopTime("T", tenPast, tenPast, "B", 2)]
    ensures ts == TimedStops(sts) == [TimedStop("A", 28800, 28800), TimedStop("B", 29400, 29400)]
    ensures TrajectoryPrecomputer.FirstTime(sts) == 28800 && TrajectoryPrecomputer.LastTime(sts) == 29400
  {
    TimedTwo(sts[0], sts[1]);
    assert Timed(sts[0]) == TimedStop("A", 28800, 28800);
    assert Timed(sts[1]) == TimedStop("B", 29400, 29400);
    ts := TimedStops(sts);
  }

  lemma TimedTwo(a: GtfsStopTime, b: GtfsStopTime)
    ensures TimedStops([a, b]) == [Timed(a), Timed(b)]
  {
  }

  lemma AsWrittenAsksTooEarly(geo: Geo, t: Lookups, d: TripData, ts: seq<TimedStop>)
    requires |d.stopTimes| > 0 && TrajectoryPrecomputer.FirstTime(d.stopTimes) == 28800
    requires ts == TimedStops(d.stopTimes) && |ts| > 0 && ts[0] == TimedStop("A", 28800, 28800)
    ensures PositionOf(geo, AsWritten, t, ScheduledVehicle("T", d), 29100) == None
  {
    NoPositionBeforeFirstArrival(geo, ts, t.stops, 300);
    assert InterpolationClock(AsWritten, ScheduledVehicle("T", d), 29100) == 300;
  }

  /** "08:00:00" reads as 28800 seconds. */
  lemma {:induction false} EightOClock(v: TimeValue)
    requires v == Text("08:00:00")
    ensures ParseGtfsTime(v) == 28800
  {
    assert "08:00:00" == "08" + ":" + "00" + ":" + "00";
    ClockTime(v, "08", "00", "00");
  }

  /** "08:10:00" reads as 29400 seconds. */
  lemma {:induction false} TenPastEight(v: TimeValue)
    requires v == Text("08:10:00")
    ensures ParseGtfsTime(v) == 29400
  {
    assert "08:10:00" == "08" + ":" + "10" + ":" + "00";
    ClockTime(v, "08", "10", "00");
  }

  /** `HH:MM:SS` written with two digits each reads as the time it denotes. */
  lemma {:induction false} ClockTime(v: TimeValue, hh: string, mm: string, ss: string)
    requires |hh| == 2 && |mm| == 2 && |ss| == 2 && AllDigits(hh) && AllDigits(mm) && AllDigits(ss)
    requires v == Text(hh + ":" + mm + ":" + ss)
    ensures ParseGtfsTime(v) == TwoDigits(hh) * 3600 + TwoDigits(mm) * 60 + TwoDigits(ss)
  {
    TextTimeOfFields(hh, mm, ss);
    TwoDigitsValue(hh);
    TwoDigitsValue(mm);
    TwoDigitsValue(ss);
  }

  function TwoDigits(s: string): nat
    requires |s| == 2 && AllDigits(s)
  {
    DigitValue(s[0]) * 10 + DigitValue(s[1])
  }

  lemma TwoDigitsValue(s: string)
    requires |s| == 2 && AllDigits(s)
    ensures DigitsValue(s) == TwoDigits(s)
  {
    assert s[..1][..0] == [];
    assert DigitsValue(s[..1]) == DigitValue(s[0]);
  }

  /**
   Two windows of one trip, 06:00–07:00 and 07:00–08:00 every ten minutes, for a
   two-hour trip, looked at 07:00: as written, the first run of each window is on
   the road and both are called `T_0`.
   */
  lemma {:induction false} WindowNumberingDuplicates(d: TripData, fs: seq<GtfsFrequency>)
    requires d.duration == 7200
    requires fs == [GtfsFrequency("T", Numeric(60000), Numeric(70000), 600), GtfsFrequency("T", Numeric(70000), Numeric(80000), 600)]
    ensures var r := TripVehicles("T", d, fs, 25200, PerWindow);
      && FrequencyVehicle("T", d, Run(0, 21600)) in r
      && FrequencyVehicle("T", d, Run(0, 25200)) in r
      && FrequencyVehicle("T", d, Run(0, 21600)).instanceId == "T_0"
      && FrequencyVehicle("T", d, Run(0, 25200)).instanceId == "T_0"
  {
    RestartedRuns(fs);
    TimeIndex.FirstInstanceId();
    var runs := WindowRunsOf(fs, PerWindow);
    assert Covers(21600, d.duration, 25200) && Covers(25200, d.duration, 25200);
  }

  /** Counted per window, the example rows yield a run numbered 0 at 06:00 and another at 07:00. */
  lemma {:induction false} RestartedRuns(fs: seq<GtfsFrequency>)
    requires fs == [GtfsFrequency("T", Numeric(60000), Numeric(70000), 600), GtfsFrequency("T", Numeric(70000), Numeric(80000), 600)]
    ensures Run(0, 21600) in WindowRunsOf(fs, PerWindow) && Run(0, 25200) in WindowRunsOf(fs, PerWindow)
  {
    TimeIndex.ExampleWindows(fs);
    var runs := TripRuns(ReadWindows(fs), PerWindow, 0);
    TimeIndex.SecondWindowRestarts(Window(21600, 25200, 600), Window(25200, 28800, 600));
    assert runs[0] in runs && runs[6] in runs;
  }
}
