// The per-vessel decision rule of the tracker engine (src/core/TrackerEngine.ts,
// lines 128-231), as functions of the vessel, the current instant, the stop
// directory and the route path: GPS freshness, the forward scan of a timetable,
// and the position, status and next stop it produces. The engine's methods are
// proved against these functions.
module Estimator {
  import opened Common
  import opened Geometry
  import opened Data

  /** A GPS fix older than this many milliseconds no longer counts as live. */
  const StaleAfterMs: int := 120000

  /** A GPS vessel is stale when it has no fix, or when strictly more than
      StaleAfterMs have passed since its fix. */
  predicate IsStale(lastUpdated: Option<int>, now: int)
  {
    lastUpdated.None? || now - lastUpdated.value > StaleAfterMs
  }

  /** The mooring-id convention: ids starting with "mooring". */
  predicate IsMooring(stopId: string)
  {
    "mooring" <= stopId
  }

  /** The status of a vessel standing at a stop. */
  function StatusAt(stopId: string): VesselStatus
  {
    if IsMooring(stopId) then Moored else Scheduled
  }

  // ---------------------------------------------------------------------------
  // The forward scan of the schedule
  // ---------------------------------------------------------------------------

  /** The dwell window, inclusive at both ends. */
  predicate InWindow(e: StopTime, now: int)
  {
    e.arrivalTime <= now <= e.departureTime
  }

  /** An entry the scan moves past: neither in its window nor still ahead. */
  predicate Passed(e: StopTime, now: int)
  {
    e.arrivalTime <= now && e.departureTime < now
  }

  /** Where the scan ends: docked in the window of entry i, approaching entry i
      (the first still ahead), or past every entry. */
  datatype Phase = AtStop(i: nat) | Approaching(i: nat) | PastAll

  /** The loop of interpolateTimetablePosition from entry k on. */
  function Scan(s: seq<StopTime>, now: int, k: nat): (ph: Phase)
    requires k <= |s|
    ensures ph.AtStop? ==> k <= ph.i < |s| && InWindow(s[ph.i], now)
    ensures ph.Approaching? ==> k <= ph.i < |s| && now < s[ph.i].arrivalTime
    ensures !ph.PastAll? ==> forall j :: k <= j < ph.i ==> Passed(s[j], now)
    ensures ph.PastAll? ==> forall j :: k <= j < |s| ==> Passed(s[j], now)
    decreases |s| - k
  {
    if k == |s| then PastAll
    else if InWindow(s[k], now) then AtStop(k)
    else if now < s[k].arrivalTime then Approaching(k)
    else Scan(s, now, k + 1)
  }

  /** The scan moves over passed entries without changing its outcome. */
  lemma {:induction false} ScanSkipsPassed(s: seq<StopTime>, now: int, k: nat, i: nat)
    requires k <= i <= |s|
    requires forall j :: k <= j < i ==> Passed(s[j], now)
    ensures Scan(s, now, k) == Scan(s, now, i)
    decreases i - k
  {
    if k < i {
      ScanSkipsPassed(s, now, k + 1, i);
    }
  }

  /** In a well-formed schedule every entry departs before any later one arrives. */
  lemma {:induction false} ScheduleOrdered(s: seq<StopTime>, j: int, i: int)
    requires WellFormedSchedule(s)
    requires 0 <= j < i < |s|
    ensures s[j].departureTime < s[i].arrivalTime
    decreases i - j
  {
    if j < i - 1 {
      ScheduleOrdered(s, j, i - 1);
    }
  }

  /** Inside the dwell window of entry i of a well-formed schedule, the scan stops at i. */
  lemma LocateDwell(s: seq<StopTime>, now: int, i: int)
    requires WellFormedSchedule(s)
    requires 0 <= i < |s| && InWindow(s[i], now)
    ensures Scan(s, now, 0) == AtStop(i)
  {
    forall j | 0 <= j < i ensures Passed(s[j], now) {
      ScheduleOrdered(s, j, i);
    }
    ScanSkipsPassed(s, now, 0, i);
  }

  /** Strictly between the departure from entry i-1 and the arrival at entry i,
      the scan stops approaching i. */
  lemma LocateBetween(s: seq<StopTime>, now: int, i: int)
    requires WellFormedSchedule(s)
    requires 0 < i < |s| && s[i - 1].departureTime < now < s[i].arrivalTime
    ensures Scan(s, now, 0) == Approaching(i)
  {
    forall j | 0 <= j < i ensures Passed(s[j], now) {
      if j < i - 1 {
        ScheduleOrdered(s, j, i - 1);
      }
    }
    ScanSkipsPassed(s, now, 0, i);
  }

  /** After the last departure of a well-formed schedule, the scan passes everything. */
  lemma LocateAfterLast(s: seq<StopTime>, now: int)
    requires WellFormedSchedule(s)
    requires 0 < |s| && s[|s| - 1].departureTime < now
    ensures Scan(s, now, 0) == PastAll
  {
    var n := |s|;
    forall j | 0 <= j < n ensures Passed(s[j], now) {
      if j < n - 1 {
        ScheduleOrdered(s, j, n - 1);
      }
    }
    ScanSkipsPassed(s, now, 0, n);
  }

  // ---------------------------------------------------------------------------
  // Progress between two stops
  // ---------------------------------------------------------------------------

  /** The fraction of the time from the departure dep to the arrival arr that has elapsed at now. */
  function Progress(now: int, dep: int, arr: int): real
    requires dep < arr
  {
    (now - dep) as real / (arr - dep) as real
  }

  /** Math.max(0, Math.min(1, x)). */
  function Clamp01(x: real): (c: real)
    ensures 0.0 <= c <= 1.0
    ensures 0.0 <= x <= 1.0 ==> c == x
    ensures x < 0.0 ==> c == 0.0
    ensures 1.0 < x ==> c == 1.0
  {
    if x < 0.0 then 0.0 else if x > 1.0 then 1.0 else x
  }

  /** Strictly between departure and arrival the progress lies strictly inside
      (0, 1), so the clamp leaves it unchanged. */
  lemma ProgressWithin(now: int, dep: int, arr: int)
    requires dep < now < arr
    ensures 0.0 < Progress(now, dep, arr) < 1.0
    ensures Clamp01(Progress(now, dep, arr)) == Progress(now, dep, arr)
  {
    var p := Progress(now, dep, arr);
    var d := (arr - dep) as real;
    assert p * d == (now - dep) as real;
  }

  /** Progress never decreases as time goes on. */
  lemma ProgressMonotone(now1: int, now2: int, dep: int, arr: int)
    requires dep < arr && now1 <= now2
    ensures Progress(now1, dep, arr) <= Progress(now2, dep, arr)
  {
    var d := (arr - dep) as real;
    var p1, p2 := Progress(now1, dep, arr), Progress(now2, dep, arr);
    assert p1 * d == (now1 - dep) as real;
    assert p2 * d == (now2 - dep) as real;
  }

  // ---------------------------------------------------------------------------
  // The timetable rule
  // ---------------------------------------------------------------------------

  /** Snap to the water coordinate of an entry's stop, when the stop resolves. */
  function SnapTo(v: Vessel, e: StopTime, stops: map<string, Stop>): Vessel
  {
    if e.stopId in stops then v.(currentCoords := Some(stops[e.stopId].coords), status := Some(StatusAt(e.stopId)))
    else v
  }

  /** Between the departure from prev and the arrival at next: the point at the
      clamped progress along the route between the two stops, when both resolve. */
  function MoveBetween(v: Vessel, prev: StopTime, next: StopTime, now: int, stops: map<string, Stop>, path: seq<Coord>, sqrt: real -> real): Vessel
    requires prev.departureTime < next.arrivalTime
  {
    var progress := Clamp01(Progress(now, prev.departureTime, next.arrivalTime));
    if prev.stopId in stops && next.stopId in stops then
      var sub := SubPath(path, stops[prev.stopId].coords, stops[next.stopId].coords, sqrt);
      v.(currentCoords := Some(Interpolate(sub, progress, sqrt)), status := Some(Estimated))
    else v
  }

  /** The vessel after interpolateTimetablePosition with schedule s at instant now.
      Only the position, the status and the next stop can change. */
  function TimetableUpdate(v: Vessel, s: seq<StopTime>, now: int, stops: map<string, Stop>, path: seq<Coord>, sqrt: real -> real): (r: Vessel)
    ensures r == v.(currentCoords := r.currentCoords, status := r.status, nextStopId := r.nextStopId, nextArrivalTime := r.nextArrivalTime)
  {
    match Scan(s, now, 0)
    case AtStop(i) =>
      var v1 := SnapTo(v, s[i], stops);
      if i + 1 < |s| then v1.(nextStopId := Some(s[i + 1].stopId), nextArrivalTime := Some(s[i + 1].arrivalTime))
      else v1.(nextStopId := None, nextArrivalTime := None)
    case Approaching(i) =>
      var v1 := v.(nextStopId := Some(s[i].stopId), nextArrivalTime := Some(s[i].arrivalTime));
      if i == 0 then SnapTo(v1, s[0], stops)
      else MoveBetween(v1, s[i - 1], s[i], now, stops, path, sqrt)
    case PastAll =>
      if |s| > 0 then SnapTo(v, s[|s| - 1], stops) else v
  }

  /** The vessel after one tick of updatePositions at instant now. */
  function Estimate(v: Vessel, now: int, stops: map<string, Stop>, path: seq<Coord>, sqrt: real -> real): (r: Vessel)
    ensures r == v.(currentCoords := r.currentCoords, status := r.status, nextStopId := r.nextStopId, nextArrivalTime := r.nextArrivalTime)
  {
    if v.positionSource == Gps then
      if IsStale(v.lastUpdated, now) then
        var v1 := v.(status := Some(Estimated));
        if v1.schedule.Some? then TimetableUpdate(v1, v1.schedule.value, now, stops, path, sqrt) else v1
      else v.(status := Some(Live))
    else if v.schedule.Some? then TimetableUpdate(v, v.schedule.value, now, stops, path, sqrt)
    else v
  }

  // ---------------------------------------------------------------------------
  // What the timetable rule promises
  // ---------------------------------------------------------------------------

  /** In the dwell window of entry i the vessel stands at that stop with the stop's
      status, and the next stop is the following entry, or none after the last.
      An unresolved stop id leaves position and status as they were. */
  lemma DwellAtStop(v: Vessel, s: seq<StopTime>, now: int, stops: map<string, Stop>, path: seq<Coord>, sqrt: real -> real, i: int)
    requires WellFormedSchedule(s)
    requires 0 <= i < |s| && InWindow(s[i], now)
    ensures var r := TimetableUpdate(v, s, now, stops, path, sqrt);
      && (s[i].stopId in stops ==> r.currentCoords == Some(stops[s[i].stopId].coords) && r.status == Some(StatusAt(s[i].stopId)))
      && (s[i].stopId !in stops ==> r.currentCoords == v.currentCoords && r.status == v.status)
      && (i + 1 < |s| ==> r.nextStopId == Some(s[i + 1].stopId) && r.nextArrivalTime == Some(s[i + 1].arrivalTime))
      && (i + 1 == |s| ==> r.nextStopId.None? && r.nextArrivalTime.None?)
  {
    LocateDwell(s, now, i);
  }

  /** Strictly between the departure from entry i-1 and the arrival at entry i, the
      progress p lies inside (0, 1), the next stop is entry i, and when both stops
      resolve the vessel is Estimated at fraction p of the arc length of the route
      between them; otherwise position and status are left as they were. */
  lemma BetweenStops(v: Vessel, s: seq<StopTime>, now: int, stops: map<string, Stop>, path: seq<Coord>, sqrt: real -> real, i: int)
    requires WellFormedSchedule(s)
    requires 0 < i < |s| && s[i - 1].departureTime < now < s[i].arrivalTime
    ensures var r := TimetableUpdate(v, s, now, stops, path, sqrt);
      var p := Progress(now, s[i - 1].departureTime, s[i].arrivalTime);
      && 0.0 < p < 1.0
      && r.nextStopId == Some(s[i].stopId) && r.nextArrivalTime == Some(s[i].arrivalTime)
      && (s[i - 1].stopId in stops && s[i].stopId in stops ==>
            r.status == Some(Estimated)
            && r.currentCoords == Some(Interpolate(SubPath(path, stops[s[i - 1].stopId].coords, stops[s[i].stopId].coords, sqrt), p, sqrt)))
      && (s[i - 1].stopId !in stops || s[i].stopId !in stops ==> r.currentCoords == v.currentCoords && r.status == v.status)
  {
    LocateBetween(s, now, i);
    ProgressWithin(now, s[i - 1].departureTime, s[i].arrivalTime);
  }

  /** Before the first arrival the vessel snaps to the first stop, and the next
      stop is the first entry. */
  lemma BeforeFirst(v: Vessel, s: seq<StopTime>, now: int, stops: map<string, Stop>, path: seq<Coord>, sqrt: real -> real)
    requires 0 < |s| && now < s[0].arrivalTime
    ensures var r := TimetableUpdate(v, s, now, stops, path, sqrt);
      && r.nextStopId == Some(s[0].stopId) && r.nextArrivalTime == Some(s[0].arrivalTime)
      && (s[0].stopId in stops ==> r.currentCoords == Some(stops[s[0].stopId].coords) && r.status == Some(StatusAt(s[0].stopId)))
      && (s[0].stopId !in stops ==> r.currentCoords == v.currentCoords && r.status == v.status)
  {
    assert Scan(s, now, 0) == Approaching(0);
  }

  /** After the last departure the vessel snaps to the last stop and the next stop
      is left as it was. */
  lemma PastFinal(v: Vessel, s: seq<StopTime>, now: int, stops: map<string, Stop>, path: seq<Coord>, sqrt: real -> real)
    requires WellFormedSchedule(s)
    requires 0 < |s| && s[|s| - 1].departureTime < now
    ensures var r := TimetableUpdate(v, s, now, stops, path, sqrt); var last := s[|s| - 1];
      && r.nextStopId == v.nextStopId && r.nextArrivalTime == v.nextArrivalTime
      && (last.stopId in stops ==> r.currentCoords == Some(stops[last.stopId].coords) && r.status == Some(StatusAt(last.stopId)))
      && (last.stopId !in stops ==> r.currentCoords == v.currentCoords && r.status == v.status)
  {
    LocateAfterLast(s, now);
  }

  /** Whether the stops the rule consults at instant now are in the directory:
      the dwell stop; the first stop before the first arrival; both stops between
      two entries; the last stop after the last departure. */
  predicate Resolves(s: seq<StopTime>, now: int, stops: map<string, Stop>)
  {
    match Scan(s, now, 0)
    case AtStop(i) => s[i].stopId in stops
    case Approaching(i) => s[i].stopId in stops && (i == 0 || s[i - 1].stopId in stops)
    case PastAll => |s| > 0 && s[|s| - 1].stopId in stops
  }

  /** When the consulted stops resolve, the new position and status do not depend
      on the old ones; when one does not, position and status are left as they were. */
  lemma PositionFromSchedule(v: Vessel, c: Option<Coord>, st: Option<VesselStatus>, s: seq<StopTime>, now: int, stops: map<string, Stop>, path: seq<Coord>, sqrt: real -> real)
    ensures var r, w := TimetableUpdate(v, s, now, stops, path, sqrt), TimetableUpdate(v.(currentCoords := c, status := st), s, now, stops, path, sqrt);
      && (Resolves(s, now, stops) ==> w == r)
      && (!Resolves(s, now, stops) ==> r.currentCoords == v.currentCoords && r.status == v.status && w == r.(currentCoords := c, status := st))
  {
  }

  /** The timetable rule never produces Live: it only keeps a Live status it finds. */
  lemma TimetableNeverLive(v: Vessel, s: seq<StopTime>, now: int, stops: map<string, Stop>, path: seq<Coord>, sqrt: real -> real)
    ensures TimetableUpdate(v, s, now, stops, path, sqrt).status == Some(Live) ==> v.status == Some(Live)
  {
  }

  /** Applying the timetable rule twice at the same instant changes nothing more. */
  lemma TimetableIdempotent(v: Vessel, s: seq<StopTime>, now: int, stops: map<string, Stop>, path: seq<Coord>, sqrt: real -> real)
    ensures var r := TimetableUpdate(v, s, now, stops, path, sqrt);
      TimetableUpdate(r, s, now, stops, path, sqrt) == r
  {
  }

  /** A tick at the same instant twice gives the same vessel as one tick: there is
      no hidden state beyond the fields the rule overwrites or keeps. */
  lemma EstimateIdempotent(v: Vessel, now: int, stops: map<string, Stop>, path: seq<Coord>, sqrt: real -> real)
    ensures var r := Estimate(v, now, stops, path, sqrt);
      Estimate(r, now, stops, path, sqrt) == r
  {
    var r := Estimate(v, now, stops, path, sqrt);
    if v.positionSource == Gps && IsStale(v.lastUpdated, now) && v.schedule.Some? {
      var v1 := v.(status := Some(Estimated));
      TimetableIdempotent(v1, v.schedule.value, now, stops, path, sqrt);
      PositionFromSchedule(r, r.currentCoords, Some(Estimated), v.schedule.value, now, stops, path, sqrt);
    } else if v.positionSource == Timetable && v.schedule.Some? {
      TimetableIdempotent(v, v.schedule.value, now, stops, path, sqrt);
    }
  }

  /** A GPS vessel shows Live after a tick exactly when its fix is fresh; a fresh
      vessel keeps its position, next stop and everything else. */
  lemma LiveIffFresh(v: Vessel, now: int, stops: map<string, Stop>, path: seq<Coord>, sqrt: real -> real)
    requires v.positionSource == Gps
    ensures var r := Estimate(v, now, stops, path, sqrt);
      && (r.status == Some(Live) <==> !IsStale(v.lastUpdated, now))
      && (!IsStale(v.lastUpdated, now) ==> r == v.(status := Some(Live)))
  {
    if IsStale(v.lastUpdated, now) && v.schedule.Some? {
      TimetableNeverLive(v.(status := Some(Estimated)), v.schedule.value, now, stops, path, sqrt);
    }
  }

  /** A stale GPS vessel is marked Estimated and, when it has a schedule, placed by
      the timetable rule. */
  lemma StaleFallsBack(v: Vessel, now: int, stops: map<string, Stop>, path: seq<Coord>, sqrt: real -> real)
    requires v.positionSource == Gps && IsStale(v.lastUpdated, now)
    ensures var r := Estimate(v, now, stops, path, sqrt); var v1 := v.(status := Some(Estimated));
      && (v.schedule.Some? ==> r == TimetableUpdate(v1, v.schedule.value, now, stops, path, sqrt))
      && (v.schedule.None? ==> r == v1)
  {
  }

  /** The freshness boundary: a fix exactly StaleAfterMs old is still fresh; one
      millisecond later it is stale. */
  lemma FreshnessBoundary(t: int)
    ensures !IsStale(Some(t), t + 120000)
    ensures IsStale(Some(t), t + 120001)
    ensures forall now :: IsStale(None, now)
  {
  }

  /** Where the timetable rule places a vessel between stops i-1 and i. On a
      sub-path of positive length: on the segment where the walk stops for the
      target arc length total * progress, at the fraction that lands on it. On a
      degenerate sub-path: at a point that does not depend on the time. */
  lemma BetweenPlacement(v: Vessel, s: seq<StopTime>, now: int, stops: map<string, Stop>, path: seq<Coord>, sqrt: real -> real, i: int)
    requires SqrtLaws(sqrt)
    requires WellFormedSchedule(s)
    requires 0 < i < |s| && s[i - 1].departureTime < now < s[i].arrivalTime
    requires s[i - 1].stopId in stops && s[i].stopId in stops
    ensures var sub := SubPath(path, stops[s[i - 1].stopId].coords, stops[s[i].stopId].coords, sqrt);
      var segs := Segments(sub, sqrt);
      var target := TargetLength(Sum(segs), Progress(now, s[i - 1].departureTime, s[i].arrivalTime));
      var r := TimetableUpdate(v, s, now, stops, path, sqrt);
      && (1 < |sub| && Sum(segs) != 0.0 ==>
            var h := Reach(segs, target, 0, 0.0);
            && h.Some?
            && var t := SegmentFraction(target, h.value.before, segs[h.value.index]);
            && StopsAt(segs, target, h.value.index, t)
            && r.currentCoords == Some(Lerp(sub[h.value.index], sub[h.value.index + 1], t)))
      && (|sub| <= 1 || Sum(segs) == 0.0 ==> r.currentCoords == Some(Interpolate(sub, 0.0, sqrt)))
  {
    var sub := SubPath(path, stops[s[i - 1].stopId].coords, stops[s[i].stopId].coords, sqrt);
    var p := Progress(now, s[i - 1].departureTime, s[i].arrivalTime);
    BetweenStops(v, s, now, stops, path, sqrt, i);
    if 1 < |sub| && Sum(Segments(sub, sqrt)) != 0.0 {
      InterpolateArcLength(sub, p, sqrt);
    }
  }

  /** As time goes on between two stops, the vessel's placement only moves
      forward along the route between them: it stands at Interpolate of the
      sub-path at each instant's progress, and the later point is no further back
      along the sub-path (MovesForward): the target arc length does not
      decrease, and the vessel stands on a later segment, or on the same segment
      at a fraction at least as large. On a degenerate sub-path it stays put. */
  lemma BetweenArcLengthMonotone(v: Vessel, s: seq<StopTime>, now1: int, now2: int, stops: map<string, Stop>, path: seq<Coord>, sqrt: real -> real, i: int)
    requires SqrtLaws(sqrt)
    requires WellFormedSchedule(s)
    requires 0 < i < |s| && s[i - 1].departureTime < now1 <= now2 < s[i].arrivalTime
    requires s[i - 1].stopId in stops && s[i].stopId in stops
    ensures var sub := SubPath(path, stops[s[i - 1].stopId].coords, stops[s[i].stopId].coords, sqrt);
      var p1 := Progress(now1, s[i - 1].departureTime, s[i].arrivalTime);
      var p2 := Progress(now2, s[i - 1].departureTime, s[i].arrivalTime);
      && TimetableUpdate(v, s, now1, stops, path, sqrt).currentCoords == Some(Interpolate(sub, p1, sqrt))
      && TimetableUpdate(v, s, now2, stops, path, sqrt).currentCoords == Some(Interpolate(sub, p2, sqrt))
      && MovesForward(sub, p1, p2, sqrt)
  {
    var sub := SubPath(path, stops[s[i - 1].stopId].coords, stops[s[i].stopId].coords, sqrt);
    var dep, arr := s[i - 1].departureTime, s[i].arrivalTime;
    PlacedAtProgress(v, s, now1, stops, path, sqrt, i);
    PlacedAtProgress(v, s, now2, stops, path, sqrt, i);
    ProgressMonotone(now1, now2, dep, arr);
    InterpolateForward(sub, Progress(now1, dep, arr), Progress(now2, dep, arr), sqrt);
  }

  /** Between two known stops the vessel stands at Interpolate of the sub-path at
      the unclamped progress, which lies in (0, 1). */
  lemma PlacedAtProgress(v: Vessel, s: seq<StopTime>, now: int, stops: map<string, Stop>, path: seq<Coord>, sqrt: real -> real, i: int)
    requires WellFormedSchedule(s)
    requires 0 < i < |s| && s[i - 1].departureTime < now < s[i].arrivalTime
    requires s[i - 1].stopId in stops && s[i].stopId in stops
    ensures var p := Progress(now, s[i - 1].departureTime, s[i].arrivalTime);
      && 0.0 < p < 1.0
      && TimetableUpdate(v, s, now, stops, path, sqrt).currentCoords
           == Some(Interpolate(SubPath(path, stops[s[i - 1].stopId].coords, stops[s[i].stopId].coords, sqrt), p, sqrt))
  {
    BetweenStops(v, s, now, stops, path, sqrt, i);
  }

  /** An example schedule: one entry at stop a from t0 for five minutes, one at
      stop b from t0 + 20 minutes for two. */
  function ExampleSchedule(a: Stop, b: Stop, t0: int): seq<StopTime>
  {
    [StopTime(a.id, t0, t0 + 5 * MsPerMinute), StopTime(b.id, t0 + 20 * MsPerMinute, t0 + 22 * MsPerMinute)]
  }

  /** 7.5 of the 15 minutes between the departure and the arrival have gone. */
  lemma HalfwayProgress(t0: int)
    ensures Progress(t0 + 750000, t0 + 300000, t0 + 1200000) == 0.5
  {
    assert (t0 + 750000 - (t0 + 300000)) as real == 450000.0;
    assert (t0 + 1200000 - (t0 + 300000)) as real == 900000.0;
  }

  /** Halfway through the gap, at t0 + 12.5 minutes, the vessel is Estimated at half
      the arc length of the route from a to b, heading for b. */
  lemma ExampleMidway(v: Vessel, a: Stop, b: Stop, t0: int, path: seq<Coord>, sqrt: real -> real)
    requires a.id != b.id
    ensures var r := TimetableUpdate(v, ExampleSchedule(a, b, t0), t0 + 750000, map[a.id := a, b.id := b], path, sqrt);
      && r.status == Some(Estimated) && r.nextStopId == Some(b.id)
      && r.currentCoords == Some(Interpolate(SubPath(path, a.coords, b.coords, sqrt), 0.5, sqrt))
  {
    var s := ExampleSchedule(a, b, t0);
    var stops := map[a.id := a, b.id := b];
    assert WellFormedSchedule(s);
    assert s[0].stopId == a.id && s[1].stopId == b.id;
    assert s[0].departureTime == t0 + 300000 && s[1].arrivalTime == t0 + 1200000;
    assert stops[a.id] == a && stops[b.id] == b;
    HalfwayProgress(t0);
    BetweenStops(v, s, t0 + 750000, stops, path, sqrt, 1);
  }

  /** Two minutes in, the vessel stands at a, Scheduled, heading for b. */
  lemma ExampleDocked(v: Vessel, a: Stop, b: Stop, t0: int, path: seq<Coord>, sqrt: real -> real)
    requires a.id != b.id && !IsMooring(a.id)
    ensures var r := TimetableUpdate(v, ExampleSchedule(a, b, t0), t0 + 2 * MsPerMinute, map[a.id := a, b.id := b], path, sqrt);
      r.currentCoords == Some(a.coords) && r.status == Some(Scheduled) && r.nextStopId == Some(b.id)
  {
    var s := ExampleSchedule(a, b, t0);
    assert WellFormedSchedule(s);
    DwellAtStop(v, s, t0 + 2 * MsPerMinute, map[a.id := a, b.id := b], path, sqrt, 0);
  }

  /** After the last departure, at t0 + 25 minutes, the vessel stands at b with b's status. */
  lemma ExampleAfter(v: Vessel, a: Stop, b: Stop, t0: int, path: seq<Coord>, sqrt: real -> real)
    requires a.id != b.id
    ensures var r := TimetableUpdate(v, ExampleSchedule(a, b, t0), t0 + 25 * MsPerMinute, map[a.id := a, b.id := b], path, sqrt);
      r.currentCoords == Some(b.coords) && r.status == Some(StatusAt(b.id)) && r.nextStopId == v.nextStopId
  {
    var s := ExampleSchedule(a, b, t0);
    assert WellFormedSchedule(s);
    PastFinal(v, s, t0 + 25 * MsPerMinute, map[a.id := a, b.id := b], path, sqrt);
  }
}
