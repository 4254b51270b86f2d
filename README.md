# Bristol harbour ferry tracker: a verified Dafny model

This project models the position-estimation core of a web app that shows the
Bristol harbour ferries on a map. On every tick the tracker engine decides
where each vessel is:

- A vessel with a fresh GPS fix is shown **Live** where the fix put it.
- A GPS vessel whose fix is older than two minutes falls back to its
  timetable: it is placed and labelled as a timetable vessel would be. With
  no schedule, or when the stops it needs are unknown, it keeps its position
  and is shown **Estimated**.
- A timetable vessel is placed from its schedule:
  - at a stop while it dwells there: **Scheduled**, or **Moored** for a
    mooring id;
  - part-way along the harbour route while it sails between two stops:
    **Estimated**, at the share of the route's arc length that matches the
    share of the travel time gone;
  - at the first stop before the first arrival, and at the last stop after
    the last departure.

The route comes from OpenStreetMap. A build script stitches six ordered
ways into one polyline with no repeated node. The project also models the
fixed data: the seven stops, the 105-node route, and the two ferries, whose
schedules are built relative to the clock.

Modules:

- `Common` (common.dfy): an `Option` type, sequence reversal, and in-place
  array reversal (JavaScript's `reverse()`).
- `Geometry` (geometry.dfy): `calcDistance`, `getSubPath` and
  `interpolateAlongSubPath`. The loops are methods, each proved equal to a
  specification function (`SubPath`, `Interpolate`). Lemmas about those
  functions state what the result means: nearest nodes, the walk along the
  route, the arc length reached.
- `Data` (data.dfy): the record types, `generateDynamicSchedule`, and the
  constant stops, route and fleet.
- `Estimator` (estimator.dfy): the per-vessel decision rule of
  `updatePositions` and `interpolateTimetablePosition`, written as pure
  functions, with lemmas for each case of the rule.
- `Tracker` (engine.dfy): the `TrackerEngine` class. The constructor builds
  the stop directory once, proved equal to `Directory`; no other method
  writes it. The other methods update the vessel list, the subscribers and
  the timer in place:
  - `UpdatePositions` and `Start` are proved to leave the vessels equal to
    `EstimateAll` of the old vessels. `UpdateVessel` is proved equal to
    `Estimator.Estimate`, and `InterpolateTimetablePosition` to
    `Estimator.TimetableUpdate`.
  - `InjectGpsReading` is proved against `FindVessel` and `ApplyGpsReading`.
  - `AddVessel`, `Stop`, `OnUpdate` and `NotifyListeners` state their whole
    new state directly.
- `OsmStitch` (stitch.dfy): the node map and the way-stitching loop of
  `parse_osm.js`.

Inputs the code takes from the environment are parameters:

- The clock is an integer instant in milliseconds (`now`, `time`, and
  `clock1`/`clock2` for the two `Date.now()` calls the fleet makes).
- `Math.sqrt` is a parameter `sqrt: real -> real`. Lemmas that need it assume
  only `SqrtLaws`: `sqrt(0) = 0`, and `sqrt(x) >= 0` for `x >= 0`.
- A timer handle is a parameter of `Start`.
- A subscriber callback is an opaque token. Each notification is recorded in
  a ghost log `published`, as the pair of the current subscribers and the
  vessel snapshot they receive.

Two facts about the code that the model keeps:

- **Freshness boundary.** src/core/TrackerEngine.ts:137 tests
  `now - lastUpdated > 120000`, so a fix exactly 120000 ms old is still fresh
  and shows Live; it is stale one millisecond later
  (`Estimator.FreshnessBoundary`).
- **Moored status.** `VesselStatus` at src/data/mockData.ts:2 does not list
  `'Moored'`, although src/core/TrackerEngine.ts:176, 221 and 228 assign it.
  The model's `VesselStatus` includes it.

Rows whose third column starts with "helper:" are proof steps used by other
lemmas, not properties of the system in their own right. Rows that start with
"definition:" name a function whose body is the model of the cited code, and
then the lemmas or contract clauses that state what it means.

## Model

| member | source | states |
|---|---|---|
| Common.Reverse | src/core/TrackerEngine.ts:36 | definition: the reversed sequence; its own ensures give the same length and element k equal to element n-1-k of the input, and ReverseInPlace is proved against it |
| Common.ReverseInPlace | parse_osm.js:47 | after the in-place swap loop, the array holds the reverse of its old contents |
| Geometry.Dist | src/core/TrackerEngine.ts:5-9 | definition: calcDistance, the root of SqDist; its laws are in DistLaws |
| Geometry.SqDist | src/core/TrackerEngine.ts:5-9 | the squared Euclidean distance on (lon, lat) is non-negative and is zero for identical points |
| Geometry.DistLaws | src/core/TrackerEngine.ts:5-9 | calcDistance is non-negative and is zero between identical points |
| Geometry.NearestAmong | src/core/TrackerEngine.ts:18-30 | among the first n nodes, the index found has the least distance to the target, and no earlier index is just as close (first strict minimum) |
| Geometry.Nearest | src/core/TrackerEngine.ts:13-30 | over the whole non-empty route: the first node of least distance to the target |
| Geometry.NearestOfNode | src/core/TrackerEngine.ts:18-30 | when the target is itself route node k, the nearest index is at or before k, and its distance to the target is zero |
| Geometry.SubPath | src/core/TrackerEngine.ts:11-39 | definition: the value getSubPath returns, the slice between the two nearest nodes or its reverse; the empty route gives the empty sub-path. Its meaning is in SubPathWalk |
| Geometry.Run | src/core/TrackerEngine.ts:32-38 | definition: the slice from node i to node j, reversed when i lies after j; characterized in RunWalk |
| Geometry.SubPathWalk | src/core/TrackerEngine.ts:32-38 | the sub-path runs node by node from the start's nearest node to the end's nearest node, forwards or backwards; it has the right length and end points, and element k is node i+k or i-k |
| Geometry.RunWalk | src/core/TrackerEngine.ts:32-38 | helper: a run has length abs(j-i)+1, starts at node i, ends at node j, and element k is node i+k (forward) or i-k (backward) |
| Geometry.ForwardRun | src/core/TrackerEngine.ts:33 | helper: the forward slice has length j-i+1, runs from node i to node j, and element k is node i+k |
| Geometry.BackwardRun | src/core/TrackerEngine.ts:35-37 | helper: the reversed slice has length i-j+1, runs from node i to node j, and element k is node i-k |
| Geometry.GetSubPath | src/core/TrackerEngine.ts:11-39 | the scan, followed by the slice (or slice and reverse), returns exactly SubPath |
| Geometry.ScanNearest | src/core/TrackerEngine.ts:13-30 | the loop with its two running minima, each starting at Infinity, ends on the first nearest node to start and to end (both 0 on an empty route) |
| Geometry.ReversedRun | src/core/TrackerEngine.ts:35-37 | the slice from endIdx to startIdx, reversed in a fresh array, is the reverse of that run of the route |
| Geometry.Segments | src/core/TrackerEngine.ts:47-51 | definition: there is one segment per consecutive pair of nodes, and segment i is the distance from node i to node i+1; SegmentsNonNegative states that no segment is negative |
| Geometry.MeasureSegments | src/core/TrackerEngine.ts:45-51 | the first loop collects exactly Segments, and totalDist is their sum |
| Geometry.Reach | src/core/TrackerEngine.ts:58-70 | the segment where the walk stops lies at or after the starting segment |
| Geometry.WalkSegments | src/core/TrackerEngine.ts:56-70 | the second loop stops on the same segment as Reach, with the same accumulated length |
| Geometry.Interpolate | src/core/TrackerEngine.ts:41-73 | definition: the value interpolateAlongSubPath returns, with its fallbacks; its meaning is in InterpolateArcLength and InterpolateForward |
| Geometry.InterpolateAlongSubPath | src/core/TrackerEngine.ts:41-73 | the method equals Interpolate; an empty sub-path gives (0, 0); one node gives that node; zero total length gives the first node |
| Geometry.SumPrefix | src/core/TrackerEngine.ts:45-51 | for non-negative segments, every prefix sum lies between 0 and the total |
| Geometry.SumStep | src/core/TrackerEngine.ts:69 | helper: adding the next segment to the accumulator gives the next prefix sum |
| Geometry.SegmentsNonNegative | src/core/TrackerEngine.ts:47-51 | every segment length is non-negative |
| Geometry.ReachSpec | src/core/TrackerEngine.ts:58-70 | the accumulator is the sum of the segments before the stop; the stop is the first segment whose end reaches the target; if there is no stop, no prefix reaches the target |
| Geometry.ScaleWithin | src/core/TrackerEngine.ts:55 | helper: for progress in [0, 1], targetDist = totalDist * progress lies in [0, totalDist] |
| Geometry.WalkLands | src/core/TrackerEngine.ts:55-70 | for a target within the total, the walk always stops; the segment fraction is in [0, 1]; and the arc length up to the result is exactly the target |
| Geometry.InterpolateArcLength | src/core/TrackerEngine.ts:41-73 | for progress in [0, 1] on a sub-path of positive length, the result is the point at fraction t of segment i, where the arc length equals total * progress and no earlier node reaches it; the last-point fallback cannot be reached |
| Geometry.InterpolateOnSegment | src/core/TrackerEngine.ts:61-67 | helper: where the walk stops, the result is the linear interpolation of the segment's two ends at the segment fraction |
| Geometry.FractionWithin | src/core/TrackerEngine.ts:61 | segProgress lies in [0, 1], and acc + segProgress * segDist equals the target (a zero-length segment gives 0) |
| Geometry.LerpAtZero | src/core/TrackerEngine.ts:64-67 | helper: interpolation at fraction 0 gives the first point |
| Geometry.FractionMonotone | src/core/TrackerEngine.ts:61 | helper: on a fixed segment, segProgress grows with the target |
| Geometry.ReachOrdered | src/core/TrackerEngine.ts:55-70 | for targets a <= b within the total, the walk for b stops on a later segment than for a, or on the same segment at a fraction at least as large |
| Geometry.TargetsOrdered | src/core/TrackerEngine.ts:55 | helper: for progress p1 <= p2 in [0, 1], the two target distances are ordered within [0, total] |
| Geometry.MovesForward | src/core/TrackerEngine.ts:41-73 | definition: the point for progress p2 is no further back along the sub-path than the point for p1. The target arc length does not decrease; on a sub-path of positive length each point is the Lerp on the segment where the walk stops, and the second lies on a later segment, or on the same segment at a fraction at least as large; on a sub-path of zero length the two points are equal. InterpolateForward and BetweenArcLengthMonotone ensure it |
| Geometry.InterpolateForward | src/core/TrackerEngine.ts:41-73 | for progress 0 <= p1 <= p2 <= 1, MovesForward holds: a larger progress never places the point further back along the sub-path |
| Geometry.InterpolateAtZero | src/core/TrackerEngine.ts:41-73 | progress 0 gives the first node of the sub-path |
| Data.ScheduleFrom | src/data/mockData.ts:178-186 | one entry per stop id, in order; arrival is start + offset_i minutes; departure is arrival + dock_i minutes |
| Data.GenerateDynamicSchedule | src/data/mockData.ts:175-187 | entry i is at stop i, arrives at now + (startOffset + offset_i) minutes, and dwells dock_i minutes |
| Data.GeneratedScheduleWellFormed | src/data/mockData.ts:175-187 | with non-negative dwell times, and each offset beyond the previous arrival plus its dwell, the generated schedule is well formed (arrival ≤ departure, and each departure before the next arrival) |
| Data.GeneratedArrivalsMonotone | src/data/mockData.ts:175-187 | non-decreasing offsets give non-decreasing arrival times |
| Data.MockVessels | src/data/mockData.ts:189-220 | the fleet has two vessels, both timetable-driven with a schedule |
| Data.StopIdsUnique | src/data/mockData.ts:49-57 | the seven stop ids are pairwise distinct |
| Data.StopsOnRoute | src/data/mockData.ts:49-165 | each stop's water coordinate is a node of the route path, at indices 0, 17, 53, 66, 82, 96 and 104 |
| Data.StopsSnapExactly | src/data/mockData.ts:49-165 | the nearest route node to each stop is at distance zero, at or before its listed index |
| Data.FleetSchedulesWellFormed | src/data/mockData.ts:189-220 | both ferries' schedules are well formed, for any clock readings |
| Data.FleetStopsKnown | src/data/mockData.ts:189-220 | every stop id in the fleet's schedules names one of the seven stops |
| Estimator.IsStale | src/core/TrackerEngine.ts:134-142 | definition: no fix, or a fix more than 120000 ms old; its boundary is in FreshnessBoundary |
| Estimator.Scan | src/core/TrackerEngine.ts:167-198 | the forward scan stops at the first entry whose window holds now (AtStop), or at the first entry not yet arrived at (Approaching); every entry before the stop has passed; PastAll means every entry has passed |
| Estimator.ScanSkipsPassed | src/core/TrackerEngine.ts:167-198 | entries that have passed do not change the scan's outcome |
| Estimator.ScheduleOrdered | src/core/TrackerEngine.ts:167-198 | in a well-formed schedule, every departure comes before every later arrival |
| Estimator.LocateDwell | src/core/TrackerEngine.ts:172-187 | if now is in the window of entry i of a well-formed schedule, the scan finds AtStop(i) |
| Estimator.LocateBetween | src/core/TrackerEngine.ts:189-197 | if now is strictly between departure i-1 and arrival i, the scan finds Approaching(i) |
| Estimator.LocateAfterLast | src/core/TrackerEngine.ts:216-222 | after the last departure, the scan finds PastAll |
| Estimator.Progress | src/core/TrackerEngine.ts:205 | definition: (now - prevDep) / (nextArr - prevDep); its range is in ProgressWithin, its growth in ProgressMonotone |
| Estimator.Clamp01 | src/core/TrackerEngine.ts:206 | Math.max(0, Math.min(1, x)) lies in [0, 1]; it is x inside the range, 0 below it and 1 above it |
| Estimator.ProgressWithin | src/core/TrackerEngine.ts:205-206 | strictly between the departure and the arrival, progress lies strictly in (0, 1), so clamping leaves it unchanged |
| Estimator.ProgressMonotone | src/core/TrackerEngine.ts:205 | progress does not decrease as time goes on |
| Estimator.SnapTo | src/core/TrackerEngine.ts:173-177 | definition: the vessel at a known stop's coordinate, Moored or Scheduled by the id's prefix; unchanged for an unknown stop. The same step appears at lines 217-229; its uses are characterized in DwellAtStop, BeforeFirst and PastFinal |
| Estimator.MoveBetween | src/core/TrackerEngine.ts:200-215 | definition: the vessel Estimated at Interpolate of the sub-path at the clamped progress, when both stops are known; characterized in BetweenStops and BetweenPlacement |
| Estimator.TimetableUpdate | src/core/TrackerEngine.ts:161-231 | the timetable rule changes only the position, status, next stop and next arrival |
| Estimator.Estimate | src/core/TrackerEngine.ts:131-156 | one tick of the per-vessel rule changes only the position, status, next stop and next arrival |
| Estimator.DwellAtStop | src/core/TrackerEngine.ts:172-187 | while dwelling at entry i, the vessel stands at the stop's coordinate with Moored or Scheduled by id; the next stop is entry i+1, or none after the last entry; an unknown stop leaves position and status as they were |
| Estimator.BetweenStops | src/core/TrackerEngine.ts:189-215 | between entries i-1 and i, the next stop is entry i; if both stops are known, the vessel is Estimated at Interpolate(SubPath(route, prev, next), p), with p in (0, 1); otherwise position and status are kept |
| Estimator.BeforeFirst | src/core/TrackerEngine.ts:189-229 | (the scan at 189-197 and the snap at 223-229) before the first arrival, the next stop is the first entry and the vessel snaps to the first stop |
| Estimator.PastFinal | src/core/TrackerEngine.ts:216-222 | after the last departure, the vessel snaps to the last stop with its status by id, and the next stop is left as it was |
| Estimator.PositionFromSchedule | src/core/TrackerEngine.ts:161-231 | when the stops the rule consults are known, the new position and status do not depend on the old ones; otherwise the old ones are kept |
| Estimator.TimetableNeverLive | src/core/TrackerEngine.ts:161-231 | the timetable rule never produces Live; it can only keep a Live status it already had |
| Estimator.TimetableIdempotent | src/core/TrackerEngine.ts:161-231 | applying the timetable rule twice at the same instant gives the same vessel as applying it once |
| Estimator.EstimateIdempotent | src/core/TrackerEngine.ts:131-156 | two ticks at the same instant give the same vessel as one tick (no hidden state) |
| Estimator.LiveIffFresh | src/core/TrackerEngine.ts:132-152 | a GPS vessel shows Live after a tick exactly when its fix is fresh; a fresh vessel keeps everything except its status |
| Estimator.StaleFallsBack | src/core/TrackerEngine.ts:144-149 | a stale GPS vessel is marked Estimated, then placed by the timetable rule if it has a schedule |
| Estimator.FreshnessBoundary | src/core/TrackerEngine.ts:134-142 | a fix exactly 120000 ms old is fresh, one 120001 ms old is stale, and a vessel with no fix is always stale |
| Estimator.BetweenPlacement | src/core/TrackerEngine.ts:200-215 | between two known stops, on a sub-path of positive length, the vessel stands on the segment where the walk stops for total * progress, at the fraction that lands exactly on it; on a degenerate sub-path it stands at a point that does not depend on the time |
| Estimator.PlacedAtProgress | src/core/TrackerEngine.ts:200-215 | helper: between two known stops the vessel stands at Interpolate of the sub-path at the unclamped progress, which lies in (0, 1) |
| Estimator.BetweenArcLengthMonotone | src/core/TrackerEngine.ts:200-215 | for two instants now1 <= now2 between the same two stops, TimetableUpdate places the vessel at Interpolate of the sub-path at each instant's progress, and MovesForward holds for the two progresses: the target arc length does not decrease, the later point lies on a later segment or on the same segment at a fraction at least as large, and on a degenerate sub-path the two points are equal |
| Estimator.HalfwayProgress | src/core/TrackerEngine.ts:205 | helper: for a crossing that departs at t0 + 300 s and arrives at t0 + 1200 s, progress at t0 + 750 s is 0.5 |
| Estimator.ExampleMidway | src/core/TrackerEngine.ts:200-215 | 12.5 minutes into a schedule (dep +5 min, arr +20 min), the vessel is Estimated, halfway along the route from a to b, heading for b |
| Estimator.ExampleDocked | src/core/TrackerEngine.ts:172-187 | two minutes in, the vessel is at a, Scheduled, heading for b |
| Estimator.ExampleAfter | src/core/TrackerEngine.ts:216-222 | after the last departure, the vessel is at b with b's status, and its next stop is unchanged |
| Tracker.Directory | src/core/TrackerEngine.ts:85 | the stop directory's keys are exactly the stop ids |
| Tracker.DirectoryLastWins | src/core/TrackerEngine.ts:85 | a stop whose id is not repeated later in the list is what the directory holds for that id (Map.set overwrites) |
| Tracker.BristolDirectory | src/core/TrackerEngine.ts:85 | every one of the seven Bristol stops is found by its id |
| Tracker.FindVessel | src/core/TrackerEngine.ts:118 | Array.find returns the first vessel with the id, or none when no vessel has it |
| Tracker.ApplyGpsReading | src/core/TrackerEngine.ts:120-123 | definition: the vessel with source GPS, the fix's coordinates, status Live and the fix's time; its lifetime is in FixLastsTwoMinutes |
| Tracker.FixLastsTwoMinutes | src/core/TrackerEngine.ts:117-156 | a pushed fix survives every tick for 120000 ms untouched; after that the vessel is marked Estimated and handed to the timetable rule |
| Tracker.EstimateAll | src/core/TrackerEngine.ts:131-156 | definition: the tick maps the per-vessel rule over the collection, in order, keeping its length; characterized in EstimateAllKeepsIdentity and EstimateAllIdempotent |
| Tracker.EstimateAllKeepsIdentity | src/core/TrackerEngine.ts:131-156 | a tick keeps each vessel's id, position source and schedule |
| Tracker.EstimateAllIdempotent | src/core/TrackerEngine.ts:131-156 | two ticks at the same instant give the same collection as one |
| Tracker.TrackerEngine.constructor | src/core/TrackerEngine.ts:76-87 | copies the initial vessels, indexes the stops by id, and starts with no subscribers, no timer and nothing published |
| Tracker.TrackerEngine.NotifyListeners | src/core/TrackerEngine.ts:233-236 | appends one publication of the current vessels to the current subscribers |
| Tracker.TrackerEngine.AddVessel | src/core/TrackerEngine.ts:90-93 | appends the vessel, then publishes the new collection |
| Tracker.TrackerEngine.Start | src/core/TrackerEngine.ts:99-104 | runs one tick, publishes, arms a 1000 ms timer, and records its handle |
| Tracker.TrackerEngine.Stop | src/core/TrackerEngine.ts:106-111 | clears an armed timer and forgets its handle; with no timer, nothing happens |
| Tracker.TrackerEngine.OnUpdate | src/core/TrackerEngine.ts:113-115 | appends the subscriber |
| Tracker.TrackerEngine.InjectGpsReading | src/core/TrackerEngine.ts:117-126 | the first vessel with the id becomes GPS, Live, at the fix, stamped with the time, and the collection is published; an unknown id changes nothing and publishes nothing |
| Tracker.TrackerEngine.UpdatePositions | src/core/TrackerEngine.ts:128-159 | every vessel goes through the per-vessel rule, in order, followed by one publication |
| Tracker.TrackerEngine.UpdateVessel | src/core/TrackerEngine.ts:131-156 | the forEach body for one vessel matches Estimate |
| Tracker.TrackerEngine.InterpolateTimetablePosition | src/core/TrackerEngine.ts:161-231 | the scan loop with its return, break and three fallback branches matches TimetableUpdate |
| Tracker.TrackerEngine.MoveAlongRoute | src/core/TrackerEngine.ts:200-215 | the between-stops branch (progress, clamp, getSubPath, interpolateAlongSubPath) leaves the vessel equal to MoveBetween |
| OsmStitch.NodeMap | parse_osm.js:6-11 | the map's keys are exactly the ids of the node elements |
| OsmStitch.NodeMapLastWins | parse_osm.js:6-11 | a node id that is not repeated later maps to that node's lat/lon |
| OsmStitch.BuildNodeMap | parse_osm.js:6-11 | the forEach loop builds exactly NodeMap |
| OsmStitch.Ways | parse_osm.js:13 | every way kept is a way element, and every way element is kept |
| OsmStitch.WaysAppend | parse_osm.js:13 | filter keeps input order: the ways of a concatenation are the ways of the first part followed by those of the second |
| OsmStitch.WaysAround | parse_osm.js:13 | helper: the ways split around the way element at index k |
| OsmStitch.WaysFindFirst | parse_osm.js:13-36 | `ways.find` on the filtered ways returns the first way element with the id, with its node list |
| OsmStitch.WaysFindNone | parse_osm.js:13-40 | `ways.find` comes back empty exactly when no way element has the id |
| OsmStitch.FindWay | parse_osm.js:36 | the first way with the id, or none when no way has it |
| OsmStitch.FindWayAt | parse_osm.js:36 | helper: a way with the id, preceded by none, is the one find returns |
| OsmStitch.Orient | parse_osm.js:43-49 | definition: the way's nodes, reversed when the path is non-empty and the way ends at the path's last node; characterized in OrientJoins |
| OsmStitch.AppendUnseen | parse_osm.js:51-57 | definition: the inner loop over one way's node ids as a function on (fullPath, seenNodes); characterized in AppendUnseenSpec |
| OsmStitch.Unseen | parse_osm.js:51-57 | definition: the independent reference for the inner loop's output, namely each id of the way not already seen, at its first occurrence, in the way's order, with its position |
| OsmStitch.UnseenSnoc | parse_osm.js:51-57 | helper: one more id at the end of the way adds its entry at the end, unless it was seen before or occurs earlier in the way |
| OsmStitch.StitchStep | parse_osm.js:35-57 | definition: one iteration of the outer loop, where a missing way is skipped and a found way is oriented and its unseen nodes appended |
| OsmStitch.Stitch | parse_osm.js:32-58 | definition: the state after the outer loop has processed the way ids in order; characterized in StitchSpec, StitchGrows and MissingWaySkipped |
| OsmStitch.StitchPath | parse_osm.js:32-58 | the loop over the ordered way ids, with its skip, orientation and inner loop, builds exactly Stitch(...).path |
| OsmStitch.ReversedCopy | parse_osm.js:47 | `[...nodesInWay].reverse()` is the reverse of the way's nodes |
| OsmStitch.PushUnseen | parse_osm.js:51-57 | the inner loop matches AppendUnseen on both the path and the seen set |
| OsmStitch.ParseOsm | parse_osm.js:6-58 | from the parsed elements, the script's path is Stitch over the way elements, the node map and the six ordered way ids |
| OsmStitch.AppendUnseenSpec | parse_osm.js:51-57 | the inner loop keeps the invariant (no duplicate id, seen set equal to the path's ids, each entry carrying its node's position) and appends exactly Unseen(seen, nodesInWay), so the way's new ids come in the way's order; afterwards the path's ids are the old ids plus the way's ids |
| OsmStitch.PushKeepsConsistent | parse_osm.js:51-55 | helper: pushing an id not yet seen, with its position, keeps the invariant and adds exactly that id to the path's ids |
| OsmStitch.ReverseElements | parse_osm.js:47 | reversal keeps the set of node ids |
| OsmStitch.OrientJoins | parse_osm.js:43-49 | a way is reversed only when the path is non-empty, and then its traversal starts at the path's last node; orientation keeps the way's nodes |
| OsmStitch.StitchSpec | parse_osm.js:32-58 | after any ordered list of way ids: the path has no duplicate node, the seen set is its ids, and its ids are exactly the nodes of the ways found; the last way id, if found, appends Unseen of the path's ids over the way's oriented nodes, in that order |
| OsmStitch.StitchGrows | parse_osm.js:35-58 | each way only appends: the path after the first k ways is a prefix of the final path |
| OsmStitch.StitchStepGrows | parse_osm.js:35-58 | helper: one more way id only appends to the path |
| OsmStitch.MissingWaySkipped | parse_osm.js:36-40 | a way id with no way changes nothing |

## Left out

- ISO 8601 strings: arrival, departure and `lastUpdated` are integer millisecond instants, and the Date parsing and formatting round trip is not modelled. The NaN a malformed date would give is not modelled.
- Floating point: coordinates, distances and progress are exact reals. `Math.sqrt` is a parameter; the model assumes only that the root of 0 is 0 and that no root of a non-negative number is negative. It does not assume that positive numbers have positive roots, and nothing in the model needs that.
- Geometry.SqDist: states only non-negativity and zero between identical points, not the converse (that needs the positivity of a sum of squares of reals that are not both zero, which nothing in the model uses).
- Data.GenerateDynamicSchedule: requires an offset and a dock duration for every stop id. With fewer, the source computes NaN for the missing times and `toISOString` throws a RangeError (src/data/mockData.ts:179-184); the model does not represent that exception.
- Schedules where a departure equals the next arrival: every case lemma (DwellAtStop, BetweenStops, PastFinal, BetweenPlacement, BetweenArcLengthMonotone and the Locate lemmas) requires `WellFormedSchedule`, which asks for each departure to come strictly before the next arrival. The code also accepts the equal case, and then the shared instant belongs to the earlier entry, because the scan stops at the first window that holds it. `Estimator.TimetableUpdate` and `Estimator.Scan` model that case exactly, but no lemma characterizes it.
- `getCurrentTime`: the clock is not modelled; each tick takes the instant as a parameter.
- Real timers: `window.setInterval` is a recorded `Timer` (handle, period) in a ghost log and `clearInterval` a recorded handle; the timer firing is a later call of `UpdatePositions`. The code does not stop a running timer when `start` is called twice, and the model does not either: the earlier handle is overwritten.
- Subscriber callbacks are tokens; the model records what each would receive (the snapshot of `JSON.parse(JSON.stringify(...))`) but does not run them.
- Aliasing: vessels are values in a sequence field, so the code's in-place mutation of vessel objects shared with the caller's initial list is not modelled. The constructor's `[...initialVessels]` copy is implicit, because sequences are values.
- The default argument of `injectGpsReading` (`new Date()`) and of the constructor's empty route are not modelled; both are always passed.
- parse_osm.js file reading, JSON parsing and console output (lines 1-3, 38, 60-65); the model starts from the parsed element list and ends with the stitched path. A way whose last node is undefined in JavaScript (an empty way) is never reversed, as in the code.
- `bristolFerriesRoute` is modelled as a constant with no contract of its own.
- The UI, the map rendering, `landCoords` lookups and the other build scripts are not part of this model.
