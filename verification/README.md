# A verified model of the GTFS viewer's motion engine

The GTFS viewer loads a transit feed and animates its vehicles on a map. This
project models the part that turns a feed into motion, and the small stores around
it, in Dafny. Every contract below is proved by the verifier.

- **Trajectory precomputation.** Shape points are sorted by `shape_pt_sequence` and
  given the distance travelled from the start and a heading. Each stop is snapped
  onto its trip's shape by a forward-only scan that gives up early. A stop more than
  500 m away keeps the previous index. The shape is then cut into one segment per
  consecutive pair of known stops, with a straight two-point fallback. A trip with
  usable data becomes a `PrecomputedTrajectory`.
- **The time index.** Frequency windows are expanded into numbered instances. Each
  instance is put into every 300-second bucket it spans.
- **Interpolation on a trajectory.** Two upper-bound binary searches: one over the
  segment start times, one over the cumulative distance along a segment. Around
  them sit clamping and linear blending.
- **The stop-to-stop engine.** `parseGtfsTime` handles text and numeric times, with
  -1 as the sentinel. `formatTime` is its inverse on non-negative times. Active
  vehicles are selected in frequency mode or schedule mode. A vehicle either dwells
  at a stop or moves between two stops.
- **The GeoJSON layers.** One line per shape, coloured by its route. One point per
  stop that has both coordinates. The bounding box of the stops.
- **The stores.** The playback clock on a 24-hour dial. The marker settings, with
  clamped sizes and a persisted merge. The interface selections, which toggle set
  membership.

Stop times, headways and the engine's current time are whole seconds (`int`); the store's playback clock is a real. Coordinates, distances and fractions are reals. The
great-circle distance and the bearing are parameters: `GtfsTypes.Geo` holds two
functions. All the model knows about them is that a distance is non-negative and a
bearing lies in [0, 360).

Module layout follows the source:

- `trajectory_precomputer.dfy` and `time_index.dfy` for `trajectoryPrecomputer.ts`.
- `headways.dfy` for the departures of a frequency window, shared with the engine.
- `shape_interpolator.dfy`, `vehicle_interpolator.dfy` and `gtfs_time.dfy`.
- `shapes_geojson.dfy` and `stops_geojson.dfy`.
- The three stores. `day_clock.dfy` holds the 24-hour wrap.
- `js_text.dfy` for the JavaScript text primitives the code relies on: `String(n)`,
  `padStart`, `slice`, `split`, `Number`, `parseInt` and `%`.
- `seq_utils.dfy` for grouping, sorting and indexing.
- `gtfs_types.dfy` for the records and the colour rule.

## Model

| member | source | states |
|---|---|---|
| TrajectoryPrecomputer.Travelled | src/services/gtfs/trajectoryPrecomputer.ts:61-74 | the distance accumulated up to a point is never negative |
| TrajectoryPrecomputer.TravelledMonotone | src/services/gtfs/trajectoryPrecomputer.ts:61-74 | the accumulated distance never decreases along the sorted points |
| TrajectoryPrecomputer.TravelledAscending | src/services/gtfs/trajectoryPrecomputer.ts:61-74 | for all pairs of indices i <= j, the distance at i is at most the distance at j |
| TrajectoryPrecomputer.Annotate | src/services/gtfs/trajectoryPrecomputer.ts:63-93 | one output point per input point, with lon/lat copied, the accumulated distance and the heading at that index |
| TrajectoryPrecomputer.AnnotateHops | src/services/gtfs/trajectoryPrecomputer.ts:61-74 | the first distance is 0, and each later one is the previous one plus the great-circle hop between the two points |
| TrajectoryPrecomputer.AnnotateAscending | src/services/gtfs/trajectoryPrecomputer.ts:61-93 | distances are non-decreasing and every bearing lies in [0, 360) |
| TrajectoryPrecomputer.ProcessShape | src/services/gtfs/trajectoryPrecomputer.ts:54-96 | same length as the input (so empty gives empty); lon/lat are those of the points sorted by sequence; the first distance is 0; each distance is the previous one plus the hop; distances ascend; bearings lie in [0, 360) |
| TrajectoryPrecomputer.ScanFrom | src/services/gtfs/trajectoryPrecomputer.ts:104-122 | the scan keeps the best point among those scanned (the first minimum); it stops either at the end or exactly where the early-exit test fires |
| TrajectoryPrecomputer.ScanEnd | src/services/gtfs/trajectoryPrecomputer.ts:108-122 | a scan from a valid start looks at least at the start point and never past the end |
| TrajectoryPrecomputer.FindNearestShapePointIndex | src/services/gtfs/trajectoryPrecomputer.ts:99-125 | past the end it returns the start index and no distance (Infinity); otherwise it returns an index in [start, scan end) whose distance is the minimum over the scanned points, with every earlier scanned point strictly farther; a scan that ends early ends where the give-up test holds |
| TrajectoryPrecomputer.NearestWhenScannedToEnd | src/services/gtfs/trajectoryPrecomputer.ts:108-124 | when the scan reaches the end, the distance returned is the minimum over all points from the start |
| TrajectoryPrecomputer.SnapIndex | src/services/gtfs/trajectoryPrecomputer.ts:188-204 | never below the previous index and inside the shape; an unknown stop or a nearest point farther than 500 m keeps the previous index; otherwise it is the nearest point's index |
| TrajectoryPrecomputer.StopShapeIndices | src/services/gtfs/trajectoryPrecomputer.ts:184-205 | exactly one index per stop time; every index lies in the shape; the indices never decrease; each is the snap of its stop from the previous index |
| TrajectoryPrecomputer.StraightLeg | src/services/gtfs/trajectoryPrecomputer.ts:143-165 | the straight fallback has exactly two points at the two stops' coordinates, distances 0 and the leg length, and the leg length is never negative |
| TrajectoryPrecomputer.ShapeLeg | src/services/gtfs/trajectoryPrecomputer.ts:229-240 | the slice from index a to index b inclusive, with distances shifted so the first is 0; the segment distance equals the last shifted distance, which is non-negative on an ascending shape |
| TrajectoryPrecomputer.LegAt | src/services/gtfs/trajectoryPrecomputer.ts:208-262 | the segment for a stop pair joins the two stops' ids and coordinates; its start and end times are departure and arrival minus the first departure; it has at least two points and starts at distance 0 |
| TrajectoryPrecomputer.ResolvedPairs | src/services/gtfs/trajectoryPrecomputer.ts:208-214 | lists only stop pairs whose two stops are both known |
| TrajectoryPrecomputer.ResolvedPairsIncreasing | src/services/gtfs/trajectoryPrecomputer.ts:208-214 | the pairs come out in stop order, without repeats |
| TrajectoryPrecomputer.ResolvedPairsComplete | src/services/gtfs/trajectoryPrecomputer.ts:208-214 | every pair whose stops are both known is listed, and there are at most n-1 pairs |
| TrajectoryPrecomputer.ResolvedPairsAll | src/services/gtfs/trajectoryPrecomputer.ts:208-214 | when every stop is known there are exactly n-1 pairs |
| TrajectoryPrecomputer.LegsOver | src/services/gtfs/trajectoryPrecomputer.ts:208-262 | one segment per listed pair |
| TrajectoryPrecomputer.LegsOverAt | src/services/gtfs/trajectoryPrecomputer.ts:208-262 | the j-th segment is the leg of the j-th pair |
| TrajectoryPrecomputer.LegsFrom | src/services/gtfs/trajectoryPrecomputer.ts:208-264 | the loop that skips unknown stops yields the legs of the resolved pairs, in order |
| TrajectoryPrecomputer.CreateLinearSegments | src/services/gtfs/trajectoryPrecomputer.ts:128-169 | one straight leg per resolved stop pair, in stop order, timed from the first departure |
| TrajectoryPrecomputer.SnapFor | src/services/gtfs/trajectoryPrecomputer.ts:177-205 | a shape with fewer than two points gives the straight fallback; otherwise the stops are snapped onto that shape, one index per stop |
| TrajectoryPrecomputer.MapStopsToShapeSegments | src/services/gtfs/trajectoryPrecomputer.ts:172-265 | one segment per resolved stop pair, each the leg of that pair under the snap; with fewer than two shape points it is exactly the linear fallback |
| TrajectoryPrecomputer.ShapeSegmentsJoinStops | src/services/gtfs/trajectoryPrecomputer.ts:208-223 | every segment has at least two points and starts at distance 0; it joins its pair's stop ids; its times are relative to the first departure |
| TrajectoryPrecomputer.FirstLegStartsAtZero | src/services/gtfs/trajectoryPrecomputer.ts:182 | when the first two stops are known, the first segment starts at time 0 |
| TrajectoryPrecomputer.ShapeSegmentsNonNegative | src/services/gtfs/trajectoryPrecomputer.ts:229-249 | on an ascending shape no segment has a negative length |
| TrajectoryPrecomputer.StopTimesByTrip | src/services/gtfs/trajectoryPrecomputer.ts:306-317 | keyed by exactly the trip ids present; each group is a permutation of that trip's stop times, sorted by stop_sequence |
| TrajectoryPrecomputer.ProcessedShapes | src/services/gtfs/trajectoryPrecomputer.ts:285-304 | keyed by exactly the shape ids present; each processed shape has one point per row of that shape and ascending distances |
| TrajectoryPrecomputer.TripSegments | src/services/gtfs/trajectoryPrecomputer.ts:333-336 | every segment of a usable trip has at least two points, starts at distance 0 and ends at its own length |
| TrajectoryPrecomputer.Assemble | src/services/gtfs/trajectoryPrecomputer.ts:340-351 | the start-time array parallels the segments; the total distance is the sum of segment lengths; the total duration is last arrival minus first departure; an empty shape id becomes null |
| TrajectoryPrecomputer.TrajectoryFor | src/services/gtfs/trajectoryPrecomputer.ts:324-351 | a trip gets a trajectory exactly when it has at least two stop times, readable first and last times, and at least one segment; the trajectory is then valid and carries its id, shape and duration |
| TrajectoryPrecomputer.Trajectories | src/services/gtfs/trajectoryPrecomputer.ts:324-357 | a trip id is a key exactly when some trip with that id gets a trajectory; each value comes from such a trip, and the last such trip in input order wins |
| TrajectoryPrecomputer.TrajectoriesValid | src/services/gtfs/trajectoryPrecomputer.ts:344-351 | every cached trajectory is valid and is stored under its own trip id |
| TrajectoryPrecomputer.PrecomputeTrajectories | src/services/gtfs/trajectoryPrecomputer.ts:268-362 | the cache holds the processed shapes; a coordinate for every stop id, from the last stop with that id; and the valid trajectories of all trips |
| TimeIndex.BucketOfBounds | src/services/gtfs/trajectoryPrecomputer.ts:425-426 | a time lies in its 300-second bucket: floor division, correct for negative times too |
| TimeIndex.Covering | src/services/gtfs/trajectoryPrecomputer.ts:428-432 | a bucket holds exactly the instances whose bucket range contains it |
| TimeIndex.AddRange | src/services/gtfs/trajectoryPrecomputer.ts:428-432 | appends the instance to every bucket from the start bucket to the end bucket, creating missing ones, and leaves every other bucket alone |
| TimeIndex.Bucketize | src/services/gtfs/trajectoryPrecomputer.ts:425-432 | a bucket exists exactly when some instance covers it, and it lists the covering instances in insertion order |
| TimeIndex.BucketizeStep | src/services/gtfs/trajectoryPrecomputer.ts:428-432 | adding one instance to its range keeps the index equal to the covering lists |
| TimeIndex.InstanceBuckets | src/services/gtfs/trajectoryPrecomputer.ts:425-432 | an instance sits in bucket b exactly when b lies between its start bucket and its end bucket |
| TimeIndex.TripInstances | src/services/gtfs/trajectoryPrecomputer.ts:387-436 | as many instances as the valid windows have departures; each carries the trip id, the trip's trajectory and the colour of its route (the default colour when the trip is unknown), and ends one duration after it starts |
| TimeIndex.PerTripIdsDistinct | src/services/gtfs/trajectoryPrecomputer.ts:408-434 | numbered per trip, the instance ids of a trip are pairwise distinct |
| TimeIndex.FrequencyInstances | src/services/gtfs/trajectoryPrecomputer.ts:378-437 | an instance is listed exactly when it is one of the instances of a listed trip that has a trajectory; their number is the sum of those trips' window sizes; each carries its own trajectory and ends one duration after it starts |
| TimeIndex.DepartureInstance | src/services/gtfs/trajectoryPrecomputer.ts:405-422 | every departure start + k·headway before the end of a valid window gives an instance of the trip starting then |
| TimeIndex.FrequencyDepartureIndexed | src/services/gtfs/trajectoryPrecomputer.ts:400-432 | for every frequency row of a trip with a trajectory and every departure of its valid window, an instance of that trip starting then sits in every bucket from its start bucket to its end bucket, under either numbering |
| TimeIndex.ScheduleInstance | src/services/gtfs/trajectoryPrecomputer.ts:440-471 | a scheduled trip's instance id is its trip id; it starts at its first segment's start time (0 when there is none), lasts the trip's duration, and has the route's colour |
| TimeIndex.ScheduleInstances | src/services/gtfs/trajectoryPrecomputer.ts:440-442 | exactly the trips with a cached trajectory get an instance |
| TimeIndex.Instances | src/services/gtfs/trajectoryPrecomputer.ts:378-471 | without frequency rows, exactly the schedule instances of the trips with a trajectory; with them, only instances of trips named by a frequency row that have a trajectory, each carrying that trajectory and ending one duration after it starts |
| TimeIndex.BuildTimeIndex | src/services/gtfs/trajectoryPrecomputer.ts:365-487 | bucket size 300; a bucket exists exactly when some instance covers it, and holds exactly the instances that cover it, numbered per window as the code does (with FrequencyDepartureIndexed: every departure of every valid window is indexed) |
| TimeIndex.BuildTimeIndexNumberedPerTrip | src/services/gtfs/trajectoryPrecomputer.ts:365-487 | the same index with instances numbered across all windows of a trip |
| TimeIndex.ReadWholeHour | src/services/gtfs/vehicleInterpolator.ts:10-30 | a numeric time h0000 reads as h hours |
| TimeIndex.HourOfRuns | src/services/gtfs/trajectoryPrecomputer.ts:409 | an hour-long window with a ten-minute headway departs six times, first at its start |
| TimeIndex.SecondWindowRestarts | src/services/gtfs/trajectoryPrecomputer.ts:408-434 | numbered per window, the second of two hour-long windows starts again at number 0 |
| TimeIndex.ExampleWindows | src/services/gtfs/trajectoryPrecomputer.ts:401-405 | numeric start and end times 60000, 70000 and 80000 read as 06:00, 07:00 and 08:00 |
| TimeIndex.WindowNumberingCollides | src/services/gtfs/trajectoryPrecomputer.ts:408-434 | as written, two windows of one trip both produce an instance `T_0` |
| Headways.Departures | src/services/gtfs/trajectoryPrecomputer.ts:409 | the k-th departure is start + k·headway and lies before the end; the next one would not |
| Headways.DeparturesCount | src/services/gtfs/vehicleInterpolator.ts:109-127 | there are ceil((end - start) / headway) departures when end > start, and none otherwise |
| Headways.InstanceId | src/services/gtfs/vehicleInterpolator.ts:118 | the trip id, then `_`, then digits whose value is the instance number |
| Headways.InstanceIdInjective | src/services/gtfs/vehicleInterpolator.ts:118 | two ids `${tripId}_${k}` of one trip agree exactly when their numbers do |
| Headways.NumberWindowsSplit | src/services/gtfs/vehicleInterpolator.ts:101-128 | the runs of a trip are those of its first window, numbered consecutively, followed by the rest; per window, the count restarts at 0, per trip it carries on |
| Headways.NumberWindowsSize | src/services/gtfs/vehicleInterpolator.ts:101-128 | one run per departure of every window |
| Headways.DepartureListsCount | src/services/gtfs/vehicleInterpolator.ts:101-128 | the departures of all windows add up to the sum of the window sizes |
| Headways.TripRunsSize | src/services/gtfs/vehicleInterpolator.ts:101-128 | a trip has exactly the summed window sizes of runs, where a window with a negative time or a non-positive headway has size 0 |
| Headways.NumberedPerTrip | src/services/gtfs/vehicleInterpolator.ts:110-126 | numbered per trip, the i-th run has number next + i |
| Headways.TripRunsNumberedPerTrip | src/services/gtfs/vehicleInterpolator.ts:110-126 | the same, for a trip's windows |
| Headways.NumberWindowsListed | src/services/gtfs/vehicleInterpolator.ts:109-125 | every run departs at a departure of one of the windows |
| Headways.NumberWindowsComplete | src/services/gtfs/vehicleInterpolator.ts:101-126 | every departure of every window gets a run |
| Headways.TripRunsComplete | src/services/gtfs/vehicleInterpolator.ts:101-126 | every departure start + k·headway before the end of a valid window is the departure of some run of the trip |
| Headways.DepartureBefore | src/services/gtfs/vehicleInterpolator.ts:109 | a departure before the end comes before the first departure at or past it |
| Headways.TripRunsFromWindows | src/services/gtfs/vehicleInterpolator.ts:102-125 | every run departs inside a valid window, at start + k·headway |
| ShapeInterpolator.LastAtMost | src/services/gtfs/shapeInterpolator.ts:10-29 | on keys some of which are at most the target, the index of a key at most the target with every later key above it; 0 when every key is above the target |
| ShapeInterpolator.LastReached | src/services/gtfs/shapeInterpolator.ts:51-64 | the same for cumulative distances |
| ShapeInterpolator.BinarySearchSegment | src/services/gtfs/shapeInterpolator.ts:10-29 | 0 on an empty array or a target below the first key; otherwise in bounds, at a key at most the target; on sorted keys it is the last such index |
| ShapeInterpolator.Clamp01 | src/services/gtfs/shapeInterpolator.ts:72 | lies in [0, 1] and leaves values in [0, 1] unchanged |
| ShapeInterpolator.LerpBetween | src/services/gtfs/shapeInterpolator.ts:76-87 | a blend with weight in [0, 1] lies between its ends; weight 0 gives the first end and weight 1 the second |
| ShapeInterpolator.FindPointsForDistance | src/services/gtfs/shapeInterpolator.ts:33-73 | (0, 0) for fewer than two points; (len-2, 1) when the target is at or past the last distance, a test made first, so it applies to a target <= 0 too; otherwise (0, 0) for a target <= 0; otherwise, on ascending distances, the last point reached, whose distance and the next one bracket the target and blend back to it; localT lies in [0, 1]; on ascending distances the result is PointChoice |
| ShapeInterpolator.PointChoice | src/services/gtfs/shapeInterpolator.ts:33-73 | the pair findPointsForDistance picks, in the same order of tests: (0, 0) under two points, (len-2, 1) at or past the end, (0, 0) at or below 0, otherwise the last point reached with the clamped local fraction; the index is below len-1, and on distances ascending from 0 the pair brackets the target and blends back to it |
| ShapeInterpolator.LastReachedBrackets | src/services/gtfs/shapeInterpolator.ts:51-66 | strictly inside the shape's length, the last point reached has a successor, and on distances ascending from 0 the two bracket the target |
| ShapeInterpolator.SearchDistance | src/services/gtfs/shapeInterpolator.ts:52-62 | the loop ends in bounds, at 0 or at a point reached, and on ascending distances with every later point beyond the target |
| ShapeInterpolator.SearchIsLastReached | src/services/gtfs/shapeInterpolator.ts:52-66 | that index is the last point reached, and it is followed by a point beyond the target |
| ShapeInterpolator.BlendHitsTarget | src/services/gtfs/shapeInterpolator.ts:69-72 | between two distinct distances, the clamped local fraction blends back to the target |
| ShapeInterpolator.LinearInterpolate | src/services/gtfs/shapeInterpolator.ts:76-87 | the heading is the first shape point's, or 0 when there are none; for t in [0, 1] the position lies in the box spanned by the two stops; t = 0 and t = 1 give the stops themselves |
| ShapeInterpolator.LegFraction | src/services/gtfs/shapeInterpolator.ts:119-122 | lies in [0, 1]; 0 for a leg without duration or before it starts; 1 once it has ended; in between, the exact fraction of the elapsed duration |
| ShapeInterpolator.Progress | src/services/gtfs/shapeInterpolator.ts:150 | 0 when the duration is not positive; otherwise elapsed / duration, which is in [0, 1] while the trip runs |
| ShapeInterpolator.ProgressMonotone | src/services/gtfs/shapeInterpolator.ts:150 | progress never decreases as elapsed time grows |
| ShapeInterpolator.PlaceOnShape | src/services/gtfs/shapeInterpolator.ts:133-147 | the shape branch: the point at fraction t of the segment distance is looked up with findPointsForDistance, and on ascending distances the position is the blend between the chosen point and the next (the last point when there is none) at localT, with the chosen point's heading; it lies on the segment |
| ShapeInterpolator.InterpolateOnTrajectory | src/services/gtfs/shapeInterpolator.ts:90-159 | null with no segments or after the duration, and a negative elapsed time reads as 0; on a valid trajectory there is a result while the trip runs; the result reports the segment found by the upper-bound search, its toStopId, progress and segment fraction; the position is the linear interpolation under two shape points, and otherwise, on ascending distances, the blend at PointChoice of fraction times segment distance; it always lies on that segment |
| VehicleInterpolator.TripDurations | src/services/gtfs/vehicleInterpolator.ts:73-82 | exactly the trips whose first and last times parse are kept, with their sorted stop times and duration = last - first |
| VehicleInterpolator.ScheduleVehicles | src/services/gtfs/vehicleInterpolator.ts:131-145 | a trip is reported exactly when first time <= now <= last time, under its own id |
| VehicleInterpolator.ActiveRuns | src/services/gtfs/vehicleInterpolator.ts:111-123 | exactly the runs with departure <= now <= departure + duration |
| VehicleInterpolator.ActiveRunsIncreasing | src/services/gtfs/vehicleInterpolator.ts:111-126 | filtering keeps run numbers strictly increasing |
| VehicleInterpolator.RunVehicles | src/services/gtfs/vehicleInterpolator.ts:111-127 | a run is reported exactly when it is on the road, as a vehicle of the trip with that run's id and departure |
| VehicleInterpolator.TripVehicles | src/services/gtfs/vehicleInterpolator.ts:101-128 | the vehicles of one trip are exactly its runs that are on the road |
| VehicleInterpolator.PerTripInstanceIdsDistinct | src/services/gtfs/vehicleInterpolator.ts:109-127 | numbered per trip, no two vehicles of a trip share an instance id |
| VehicleInterpolator.FrequencyVehicles | src/services/gtfs/vehicleInterpolator.ts:97-129 | the vehicles of every frequency trip that has stop times, and no others |
| VehicleInterpolator.GetActiveVehicles | src/services/gtfs/vehicleInterpolator.ts:60-149 | with no frequency rows, exactly the readable trips running now; with frequency rows, only frequency trips, each with exactly its runs on the road |
| VehicleInterpolator.FrequencyVehicleFromWindow | src/services/gtfs/vehicleInterpolator.ts:101-123 | a frequency vehicle departs inside a valid window of its trip, is on the road now, and has an id `${tripId}_${k}` |
| VehicleInterpolator.Locate | src/services/gtfs/vehicleInterpolator.ts:162-189 | the loop stops at a known stop whose dwell contains the time, or at the first valid stop not yet reached; the stops passed over are invalid, already left, or dwelt at while unknown |
| VehicleInterpolator.LegFix | src/services/gtfs/vehicleInterpolator.ts:196-222 | the fraction lies in [0, 1] and is 0 for a leg without time; in between it is the exact fraction; the position lies between the two stops, equal to them at 0 and 1; the bearing lies in [0, 360) |
| VehicleInterpolator.InterpolateTimed | src/services/gtfs/vehicleInterpolator.ts:153-223 | dwelling at a known stop gives that stop with progress 0; before the first stop, or after every stop, gives null; between two stops it gives a position exactly when both stops are known, blended by the leg fraction |
| VehicleInterpolator.InterpolateVehiclePosition | src/services/gtfs/vehicleInterpolator.ts:153-223 | the times of each stop time are read with parseGtfsTime and InterpolateTimed applies; a fix has progress in [0, 1] and heads for a known stop of the trip; before a readable first arrival there is none |
| VehicleInterpolator.NoPositionBeforeFirstArrival | src/services/gtfs/vehicleInterpolator.ts:171-191 | before the first valid arrival there is no position |
| VehicleInterpolator.NoPositionAfterLastDeparture | src/services/gtfs/vehicleInterpolator.ts:162-191 | after every stop has been left there is no position |
| VehicleInterpolator.LocatePassesAll | src/services/gtfs/vehicleInterpolator.ts:162-189 | when every stop is invalid or left, the scan runs off the end |
| VehicleInterpolator.LocateFinds | src/services/gtfs/vehicleInterpolator.ts:162-189 | on ordered times with known stops, a time up to the last arrival finds a dwell or a later stop |
| VehicleInterpolator.PositionWhileRunning | src/services/gtfs/vehicleInterpolator.ts:162-222 | on ordered times with known stops, between first departure and last arrival there is always a position |
| VehicleInterpolator.InterpolationClock | src/services/gtfs/vehicleInterpolator.ts:256 | as written, the time since the instance departed; corrected, that span counted from the trip's first departure |
| VehicleInterpolator.PositionOf | src/services/gtfs/vehicleInterpolator.ts:254-284 | a vehicle gets a position exactly when its interpolation does; the position is reported under the instance id, with route id (empty when the trip is unknown), headsign, and a colour starting with `#` |
| VehicleInterpolator.Positions | src/services/gtfs/vehicleInterpolator.ts:252-287 | at most one position per vehicle; a position is there exactly when some vehicle produces it |
| VehicleInterpolator.GetVehiclePositions | src/services/gtfs/vehicleInterpolator.ts:239-288 | the positions of exactly the active vehicles whose interpolation succeeds, looked up in tables built from the feed |
| VehicleInterpolator.CorrectedScheduledVehiclePlaced | src/services/gtfs/vehicleInterpolator.ts:254-262 | on the corrected clock, a scheduled trip that is running, with ordered times and known stops, always gets a position |
| VehicleInterpolator.ScheduledTripVanishes | src/services/gtfs/vehicleInterpolator.ts:256-262 | a trip from 08:00 to 08:10 is active at 08:05, yet gets no position as written and one on the corrected clock |
| VehicleInterpolator.AsWrittenAsksTooEarly | src/services/gtfs/vehicleInterpolator.ts:171-175 | as written, five minutes into a trip that starts at 08:00 the engine asks for time 300, before the first arrival |
| VehicleInterpolator.EightOClock | src/services/gtfs/vehicleInterpolator.ts:37-39 | "08:00:00" reads as 28800 |
| VehicleInterpolator.TenPastEight | src/services/gtfs/vehicleInterpolator.ts:37-39 | "08:10:00" reads as 29400 |
| VehicleInterpolator.ClockTime | src/services/gtfs/vehicleInterpolator.ts:37-39 | a text time of three two-digit fields reads as h·3600 + m·60 + s |
| VehicleInterpolator.WindowNumberingDuplicates | src/services/gtfs/vehicleInterpolator.ts:108-127 | as written, at 07:00 a trip with two back-to-back windows has two vehicles `T_0` on the road, departed at 06:00 and 07:00 |
| VehicleInterpolator.RestartedRuns | src/services/gtfs/vehicleInterpolator.ts:110 | numbered per window, both windows contain a run numbered 0 |
| GtfsTime.ParseGtfsTime | src/services/gtfs/vehicleInterpolator.ts:5-40 | an absent field is -1; a number is -1 or lies in [0, 172800), and a non-negative number reads as HHMMSS (hours n/10000, minutes (n/100)%100, seconds n%100) when each is in range; text split on `:` with fewer than two parts, or whose hour or minute part `Number` cannot read, is -1; otherwise it is h·3600 + m·60 + s, with s the third part's value, or 0 when that part is missing or unreadable |
| GtfsTime.PaddedAtLeastSix | src/services/gtfs/vehicleInterpolator.ts:12-16 | after padding to six characters the string is at least six long, so the four-character branch is never taken |
| GtfsTime.NumericTimeDigits | src/services/gtfs/vehicleInterpolator.ts:10-33 | a non-negative number reads as HHMMSS: hours n/10000, minutes (n/100)%100, seconds n%100, accepted only when in range |
| GtfsTime.NumericTimeRange | src/services/gtfs/vehicleInterpolator.ts:27-32 | a numeric time is -1 or lies in [0, 172800) |
| GtfsTime.PaddedFromFields | src/services/gtfs/vehicleInterpolator.ts:21-30 | the padded string reads as its three parsed fields when all are non-negative |
| GtfsTime.NumericFields | src/services/gtfs/vehicleInterpolator.ts:12-25 | the three slices of the padded digits parse to the hour, minute and second fields of the number |
| GtfsTime.TextTimeWithoutSeconds | src/services/gtfs/vehicleInterpolator.ts:37-39 | "H:M" reads as H·3600 + M·60: a missing seconds part counts as 0 |
| GtfsTime.TextTimeOfFields | src/services/gtfs/vehicleInterpolator.ts:37-39 | "H:M:S" with digit fields reads as H·3600 + M·60 + S |
| GtfsTime.FormatTimeFields | src/services/gtfs/vehicleInterpolator.ts:43-48 | formatTime gives HH:MM:SS with digit fields; minutes and seconds have two digits and are below 60; the hours have at least two digits; the fields add back up to the time |
| GtfsTime.FormatTime | src/services/gtfs/vehicleInterpolator.ts:43-48 | HH:MM:SS from floor-divided hours and remainders, each padded to two characters; the function has no ensures of its own: its contract is carried by the lemmas FormatTimeFields (field shape and value for a non-negative time) and FormatParseRoundTrip (parsing gives the time back) |
| GtfsTime.FormatParseRoundTrip | src/services/gtfs/vehicleInterpolator.ts:37-48 | parsing a formatted non-negative time gives the time back |
| GtfsTypes.HashPrefixed | src/services/gtfs/shapesToGeoJson.ts:50-51 | the colour starts with `#`, which is added only when missing, and the original text follows it |
| GtfsTypes.RouteColor | src/services/gtfs/shapesToGeoJson.ts:47-52 | a route with a non-empty colour gives that colour with `#` in front; otherwise `#3388ff` |
| GtfsTypes.RouteColorIdempotent | src/services/gtfs/vehicleInterpolator.ts:268-272 | applying the rule to a colour it produced changes nothing |
| ShapesGeoJson.SortedPoints | src/services/gtfs/shapesToGeoJson.ts:19-42 | the points of one shape, all of them, sorted by shape_pt_sequence |
| ShapesGeoJson.ShapeToRoute | src/services/gtfs/shapesToGeoJson.ts:30-36 | a shape id is mapped exactly when some trip lists it (a non-empty id), and to the route of the first such trip |
| ShapesGeoJson.ShapeToRouteKeys | src/services/gtfs/shapesToGeoJson.ts:32-35 | one step of the loop keeps the keys equal to the shapes listed so far |
| ShapesGeoJson.ShapeToRouteValues | src/services/gtfs/shapesToGeoJson.ts:32-35 | one step of the loop keeps each value the route of the first trip listing the shape |
| ShapesGeoJson.FeatureOf | src/services/gtfs/shapesToGeoJson.ts:40-68 | the feature carries the shape's sorted coordinates, its id, its route id if any, and the route's names, type and colour (default colour and no names without a route) |
| ShapesGeoJson.Features | src/services/gtfs/shapesToGeoJson.ts:40-69 | one feature per listed shape id, in order |
| ShapesGeoJson.ShapesToGeoJson | src/services/gtfs/shapesToGeoJson.ts:13-75 | exactly one feature per distinct shape id, none repeated, in the order in which the ids first occur in the shape rows; each feature is FeatureOf its id, with the shape's sorted coordinates and the route's id, names, type and colour |
| ShapesGeoJson.FeatureIds | src/services/gtfs/shapesToGeoJson.ts:40-69 | the ids carried by the features are exactly the listed ids |
| ShapesGeoJson.FeaturePointCounts | src/services/gtfs/shapesToGeoJson.ts:19-58 | each feature has as many points as its shape has rows, and together they have as many as the input |
| ShapesGeoJson.PointTotalIsGroupSizes | src/services/gtfs/shapesToGeoJson.ts:19-25 | the point total of the features is the sum of their group sizes |
| ShapesGeoJson.GroupShapesByShapeId | src/services/gtfs/shapesToGeoJson.ts:78-99 | keyed by exactly the distinct shape ids; each value is that shape's coordinates sorted by sequence, one per row |
| StopsGeoJson.ValidStops | src/services/gtfs/stopsToGeoJson.ts:20-21 | exactly the stops with both coordinates, in input order |
| StopsGeoJson.ValidStopsAppend | src/services/gtfs/stopsToGeoJson.ts:20-21 | filtering distributes over concatenation |
| StopsGeoJson.ValidStopsIdempotent | src/services/gtfs/stopsToGeoJson.ts:20-21 | a list of located stops is kept whole, and filtering twice changes nothing |
| StopsGeoJson.StopsToGeoJson | src/services/gtfs/stopsToGeoJson.ts:15-40 | one point per located stop, in order, at `[stop_lon, stop_lat]`, whose properties give back the stop |
| StopsGeoJson.StopsDrawn | src/services/gtfs/stopsToGeoJson.ts:20-37 | a stop is drawn exactly when it has both coordinates |
| StopsGeoJson.CalculateBounds | src/services/gtfs/stopsToGeoJson.ts:42-66 | null exactly when no stop has both coordinates; otherwise every such stop lies inside the box, and each edge is some stop's coordinate |
| DayClock.RemDay | src/store/timetableStore.ts:32 | JavaScript `%` by 86400: strictly between -86400 and 86400, with the sign of the dividend; the clock is a real, so this is JsText.Rem's truncating remainder on reals |
| DayClock.Wrap | src/store/timetableStore.ts:30-34 | always on the dial [0, 86400), and the identity on times already there |
| DayClock.WrapIsFloorMod | src/store/timetableStore.ts:32 | the double remainder equals the mathematical (floored) remainder |
| DayClock.WrapPeriodic | src/store/timetableStore.ts:32 | adding whole days changes nothing |
| DayClock.WrapAbsorbs | src/store/timetableStore.ts:46-52 | wrapping, adding and wrapping again is the same as wrapping the sum |
| TimetableStore.InitialState | src/store/timetableStore.ts:21-28 | the clock starts at 28800 (08:00) on the dial, paused, at speed 1, with no trip and no positions |
| TimetableStore.SetCurrentTime | src/store/timetableStore.ts:30-34 | the stored time is the input modulo a day, on the dial; a time already on the dial is kept; nothing else changes |
| TimetableStore.IncrementTime | src/store/timetableStore.ts:46-52 | the clock moves to current + delta·speed modulo a day; nothing else changes |
| TimetableStore.IncrementByZero | src/store/timetableStore.ts:46-52 | advancing by nothing is the identity on a clock on the dial |
| TimetableStore.TogglePlayback | src/store/timetableStore.ts:38 | flips isPlaying and nothing else |
| TimetableStore.TogglePlaybackTwice | src/store/timetableStore.ts:38 | toggling twice is the identity |
| TimetableStore.ClockStaysOnDial | src/store/timetableStore.ts:30-52 | no sequence of actions takes the clock off the dial |
| TimetableStore.AlwaysOnDial | src/store/timetableStore.ts:23-52 | from the initial state, the clock is always on the dial |
| SettingsStore.Clamp | src/store/settingsStore.ts:82 | `max(lo, min(hi, x))` lies in [lo, hi], keeps in-range values, and sends values below or above to the nearest end |
| SettingsStore.ClampIdempotent | src/store/settingsStore.ts:82 | clamping twice is clamping once |
| SettingsStore.ClampMonotone | src/store/settingsStore.ts:82 | clamping preserves order |
| SettingsStore.WithSize | src/store/settingsStore.ts:80-118 | sets one marker's size and leaves the other sizes alone |
| SettingsStore.SetSize | src/store/settingsStore.ts:80-118 | each size setter stores a value in [0.5, 4], the requested one when it is in range, and changes nothing but that size |
| SettingsStore.SetRouteLineWidth | src/store/settingsStore.ts:125-128 | the width stored lies in [1, 15], is the requested one when in range, and nothing else changes |
| SettingsStore.SetSizeKeepsCurrent | src/store/settingsStore.ts:80-83 | setting a size to its current in-range value changes nothing |
| SettingsStore.ToggleSettingsPanel | src/store/settingsStore.ts:130-131 | flips the panel and keeps the markers |
| SettingsStore.ToggleSettingsPanelTwice | src/store/settingsStore.ts:130-131 | toggling twice is the identity |
| SettingsStore.ResetToDefaults | src/store/settingsStore.ts:133-134 | the markers return to those the store starts with, which are in range; the panel stays |
| SettingsStore.ResetForgets | src/store/settingsStore.ts:133-134 | after a reset, no earlier marker change matters, and a second reset changes nothing |
| SettingsStore.OnlyToggleMovesPanel | src/store/settingsStore.ts:75-134 | the panel flag changes exactly under the panel toggle |
| SettingsStore.ValidBySize | src/store/settingsStore.ts:16-33 | the range invariant is: every marker size in [0.5, 4] and the width in [1, 15] |
| SettingsStore.StepKeepsValid | src/store/settingsStore.ts:75-134 | no action moves a size or the width out of range |
| SettingsStore.AlwaysValid | src/store/settingsStore.ts:71-134 | from an in-range state, any sequence of actions keeps every size and the width in range |
| SettingsStore.Partialize | src/store/settingsStore.ts:138 | only the markers are stored, all of them |
| SettingsStore.Merge | src/store/settingsStore.ts:139-148 | the page state is kept; the markers are the defaults with every stored field winning, or the plain defaults when nothing was stored |
| SettingsStore.PersistRoundTrip | src/store/settingsStore.ts:138-148 | storing and loading gives back the markers, whatever page state loads them |
| SettingsStore.MergeValid | src/store/settingsStore.ts:139-148 | loading stays in range when what was stored is |
| SettingsStore.MergeDoesNotClamp | src/store/settingsStore.ts:143-146 | a stored size of 10 is loaded as is, out of range |
| UiStore.InitialState | src/store/uiStore.ts:35-47 | the sidebar is open, every layer but the stop arrows shows, and nothing is selected, expanded or searched |
| UiStore.Toggle | src/store/uiStore.ts:62-67 | the element's membership flips and no other element's does |
| UiStore.ToggleTwice | src/store/uiStore.ts:62-67 | toggling the same element twice gives the set back |
| UiStore.ToggleCommutes | src/store/uiStore.ts:62-67 | toggles of two elements can be done in either order |
| UiStore.ToggleRouteSelection | src/store/uiStore.ts:56-66 | flips one route and changes nothing else, trips included |
| UiStore.ToggleRouteType | src/store/uiStore.ts:70-79 | flips one route type and changes nothing else |
| UiStore.ToggleTripSelection | src/store/uiStore.ts:83-92 | flips one trip and changes nothing else |
| UiStore.TogglesUndo | src/store/uiStore.ts:56-92 | each toggle applied twice with the same id restores the state |
| UiStore.ClearRouteSelection | src/store/uiStore.ts:68 | no route and no trip stays selected; nothing else changes |
| UiStore.ClearRouteTypeFilter | src/store/uiStore.ts:81 | the route-type filter empties and nothing else changes |
| UiStore.ClearTripSelection | src/store/uiStore.ts:96 | no trip stays selected and nothing else changes |
| UiStore.ClearThenToggle | src/store/uiStore.ts:56-68 | after clearing, toggling a route selects exactly that route |
| UiStore.SetLayerVisibility | src/store/uiStore.ts:51-54 | the named layer takes the value; the other layers and all other fields are unchanged |
| UiStore.LayersDetermineVisibility | src/store/uiStore.ts:3-8 | two layer records agreeing on every layer are equal |
| UiStore.SetLayerVisibilityKeepsCurrent | src/store/uiStore.ts:51-54 | setting a layer to its current value changes nothing |
| UiStore.ToggleSidebar | src/store/uiStore.ts:49 | flips the sidebar and nothing else |
| UiStore.ToggleSidebarTwice | src/store/uiStore.ts:49 | toggling twice is the identity |
| JsText.NatToString | src/services/gtfs/vehicleInterpolator.ts:12 | `String(n)` for n >= 0: digits without a leading zero, reading back as n |
| JsText.IntToString | src/services/gtfs/vehicleInterpolator.ts:12 | `String(n)`: a minus sign before the digits of -n when negative |
| JsText.PadStart | src/services/gtfs/vehicleInterpolator.ts:12 | `padStart`: the text, preceded by fill characters up to the width, never shortened |
| JsText.PadStartDigits | src/services/gtfs/vehicleInterpolator.ts:12 | padding digits with zeros keeps their value |
| JsText.SliceIndex | src/services/gtfs/vehicleInterpolator.ts:18-25 | a negative index counts from the end; indices are clamped to the string |
| JsText.Slice | src/services/gtfs/vehicleInterpolator.ts:18-25 | `slice` yields the characters between the two resolved indices, or "" when they cross |
| JsText.Split | src/services/gtfs/vehicleInterpolator.ts:37 | `split(':')` yields at least one part, none containing the separator |
| JsText.SplitCons | src/services/gtfs/vehicleInterpolator.ts:37 | text without the separator, followed by the separator and a rest, splits into that text followed by the rest's parts |
| JsText.TrimStart | src/services/gtfs/vehicleInterpolator.ts:37 | the suffix left after leading white space |
| JsText.TrimEnd | src/services/gtfs/vehicleInterpolator.ts:37 | the prefix left before trailing white space |
| JsText.ParseInt | src/services/gtfs/vehicleInterpolator.ts:18-25 | `parseInt(s, 10)` is NaN exactly when no digit follows the leading white space and sign |
| JsText.ToNumber | src/services/gtfs/vehicleInterpolator.ts:37 | `Number` of blank text is 0; after trimming, the text is NaN exactly when it is not an optional sign followed by at least one digit and nothing else; otherwise it reads as that signed decimal value |
| JsText.ReadDigits | src/services/gtfs/vehicleInterpolator.ts:18-25 | on a non-empty digit string, both `parseInt` and `Number` give its decimal value |
| JsText.Rem | src/store/timetableStore.ts:32 | the truncating remainder: the sign of the dividend, smaller than the divisor in size, equal to `%` on non-negative dividends |
| JsText.RemWrap | src/store/timetableStore.ts:32 | `((a % n) + n) % n` is the floored remainder |
| SeqUtils.SortBy | src/services/gtfs/trajectoryPrecomputer.ts:58 | a permutation of the input, sorted by the key |
| SeqUtils.InsertBy | src/services/gtfs/trajectoryPrecomputer.ts:58 | inserting into a sorted list keeps it sorted and adds exactly that element |
| SeqUtils.FilterBy | src/services/gtfs/trajectoryPrecomputer.ts:286-291 | exactly the elements with the key, in order |
| SeqUtils.GroupBy | src/services/gtfs/trajectoryPrecomputer.ts:286-291 | keyed by exactly the keys present; each group is the elements with that key, in input order |
| SeqUtils.GroupByStep | src/services/gtfs/trajectoryPrecomputer.ts:288-290 | one `get() or [] / push / set` step keeps the map equal to the groups so far |
| SeqUtils.DistinctKeys | src/services/gtfs/shapesToGeoJson.ts:19-40 | each key present, once |
| SeqUtils.FirstWith | src/services/gtfs/shapesToGeoJson.ts:19-25 | the index of the first element with the key, or the length when none has it |
| SeqUtils.DistinctKeysInOrder | src/services/gtfs/shapesToGeoJson.ts:19-40 | the keys come out in the order of their first occurrence, as a JavaScript `Map` iterates keys in insertion order |
| SeqUtils.GroupSizesTotal | src/services/gtfs/shapesToGeoJson.ts:19-25 | the group sizes add up to the input length |
| SeqUtils.IndexBy | src/services/gtfs/trajectoryPrecomputer.ts:283 | `new Map(xs.map(x => [key(x), x]))`: keyed by exactly the keys present, each mapped to the last element with it |
| SeqUtils.Find | src/services/gtfs/vehicleInterpolator.ts:265 | `Map.get`: present exactly for the keys of the map, with their value |
| SeqUtils.Collect | src/services/gtfs/trajectoryPrecomputer.ts:324-351 | a map set in a loop that skips some elements: keyed by exactly the keys of produced elements, each value produced by one of them, with the last producer winning |

## Left out

- The great-circle distance and the bearing (`haversineDistance`, `calculateBearing`) are trigonometry on floating point. They are parameters (`GtfsTypes.Geo`); only a non-negative distance and a bearing in [0, 360) are assumed.
- Floating point, NaN and Infinity. Coordinates and the playback clock are exact reals; stop times, headways and the engine's current time are whole seconds.
  - The `Infinity` that starts the nearest-point scan is an absent distance.
  - `Number` is modelled on integer text only. Fractions, exponents, hexadecimal and `Infinity` are outside the model.
- The progress callbacks of `precomputeTrajectories` and `buildTimeIndex` are left out. They only report percentages.
- A `route_color` that the CSV layer typed as a number is left out. Colours are text, so `String(route.route_color)` is the identity here.
- A missing stop coordinate read by the engine counts as 0, as JavaScript arithmetic reads `null`. The GeoJSON layers filter such stops out, as the source does.
- StopsGeoJson.CalculateBounds: the running minima and maxima start from the first located stop, not from plus and minus infinity. After the first step the two agree.
- SeqUtils.SortBy: its contract says sorted permutation. It does not state that the sort is stable, which JavaScript's sort is. Ties in `shape_pt_sequence` or `stop_sequence` are not ordered by the model's contract.
- VehicleInterpolator.GetActiveVehicles and TimeIndex.ScheduleInstances: the results are stated as membership. The order in which a JavaScript `Map` iterates its trips is not part of the contract.
- VehicleInterpolator.InterpolateTimed carries the full contract of `interpolateVehiclePosition`. `InterpolateVehiclePosition` applies it to the parsed stop times. Its own contract states only the progress range, the next stop, and that there is no fix before the first arrival.
- ShapeInterpolator.InterpolateOnTrajectory: the exact point on a shape is stated only for segments whose distances never decrease, as the precomputation produces them. On other segments the contract says only that the point lies on the segment.
- The instance numbering and the clock of the engine are parameters.
  - `Numbering.PerWindow` and `Engine.AsWritten` are the code as written.
  - `PerTrip` and `Corrected` are the corrected versions described under Findings.
- VehicleInterpolator.GetVehiclePositions: the current time is a whole number of seconds. The map component passes the store's real-valued clock, which playback moves by fractions of a second; the engine at fractional times is not modelled.
- Where `getVehiclePositions` is called from the map component, with its argument wiring, is not part of this model.
- Nothing in the modelled files reads the time index back, so no lookup by bucket is modelled.
- The browser storage behind the settings store is left out; storage is a `Persisted` value handed to `Merge`. So is the store's storage key.
- The setters that only store their argument are modelled as plain field updates, without contracts of their own:
  - in the timetable store, `setIsPlaying`, `setPlaybackSpeed`, `setSelectedTrip` and `setVehiclePositions`;
  - in the settings store, the icon and colour setters;
  - in the interface store, `setSelectedTrips`, `setExpandedRoute`, `setSelectedStop` and `setSearchQuery`. These four are not modelled at all.
- Map.tsx and the other React components, CSV/ZIP/folder parsing, IndexedDB and the feed store are outside the modelled core.

## Findings

| source | as written | input that shows it | evidently intended | confidence | as-written member | corrected member |
|---|---|---|---|---|---|---|
| src/services/gtfs/vehicleInterpolator.ts:108-127 | `instanceNum` restarts at 0 for every frequency row, so two windows of one trip both produce `T_0`, `T_1`, … | trip `T` of duration 7200 with rows 60000–70000 and 70000–80000, headway 600, at 25200: vehicles departed at 21600 and 25200 are both `T_0` | instance ids unique per trip, numbering runs across the trip's windows | not executed | VehicleInterpolator.WindowNumberingDuplicates | VehicleInterpolator.PerTripInstanceIdsDistinct |
| src/services/gtfs/trajectoryPrecomputer.ts:407-434 | the same restart in the time index | the same two rows: instances 0 and 6 of trip `T` are both `T_0`, starting at 21600 and 25200 | distinct instance ids per trip | not executed | TimeIndex.WindowNumberingCollides | TimeIndex.PerTripIdsDistinct |
| src/services/gtfs/vehicleInterpolator.ts:256-262 | the time since the instance departed is compared with clock-time stop times, so a scheduled trip is asked about a time long before its first arrival | trip `T` from stop A at "08:00:00" to stop B at "08:10:00", both stops known, at 29100 (08:05): the trip is active but gets no position | the elapsed time counted from the trip's first departure, on the stop times' own clock | not executed | VehicleInterpolator.ScheduledTripVanishes | VehicleInterpolator.CorrectedScheduledVehiclePlaced |
