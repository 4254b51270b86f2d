// The TrackerEngine class (src/core/TrackerEngine.ts, lines 75-237): it owns the
// vessel list and the stop directory, ticks every vessel through the decision
// rule of module Estimator, accepts pushed GPS fixes, and publishes a copy of the
// vessel list to its subscribers after every change.
//
// The clock (getCurrentTime, new Date()) is a parameter `now` of the operations
// that read it. The platform timer is represented by the handle that
// window.setInterval returns, passed to Start, and by ghost logs of the timers
// registered and cleared. Subscribers are opaque tokens, and each publication is
// recorded in a ghost log together with the subscribers it reached.
module Tracker {
  import opened Common
  import opened Geometry
  import opened Data
  import opened Estimator

  /** A registered update callback, identified by a token. */
  datatype Subscriber = Subscriber(token: nat)

  /** One publication: the snapshot handed, in order, to each listed subscriber. */
  datatype Publication = Publication(audience: seq<Subscriber>, snapshot: seq<Vessel>)

  /** A periodic timer registered with the host: its handle and period. */
  datatype Timer = Timer(handle: nat, periodMs: nat)

  /** The tick period. */
  const RefreshRateMs: nat := 1000

  /** The stop directory built by the constructor: every stop is indexed by its id,
      and when two stops share an id the later one wins. */
  function Directory(stops: seq<Data.Stop>): (m: map<string, Data.Stop>)
    ensures m.Keys == set k | 0 <= k < |stops| :: stops[k].id
  {
    if stops == [] then map[]
    else
      var n := |stops| - 1;
      var init := stops[..n];
      assert forall k :: 0 <= k < n ==> init[k] == stops[k];
      assert (set k | 0 <= k < |stops| :: stops[k].id) == (set k | 0 <= k < n :: init[k].id) + {stops[n].id};
      Directory(init)[stops[n].id := stops[n]]
  }

  /** The directory holds, under each id, the last stop with that id. */
  lemma {:induction false} DirectoryLastWins(stops: seq<Data.Stop>, k: int)
    requires 0 <= k < |stops|
    requires forall j :: k < j < |stops| ==> stops[j].id != stops[k].id
    ensures stops[k].id in Directory(stops) && Directory(stops)[stops[k].id] == stops[k]
  {
    var n := |stops| - 1;
    if k < n {
      var init := stops[..n];
      assert init[k] == stops[k];
      DirectoryLastWins(init, k);
    }
  }

  /** With the Bristol stops, whose ids are distinct, the directory returns each stop under its own id. */
  lemma BristolDirectory()
    ensures forall k :: 0 <= k < |Stops| ==> Stops[k].id in Directory(Stops) && Directory(Stops)[Stops[k].id] == Stops[k]
  {
    StopIdsUnique();
    forall k | 0 <= k < |Stops| ensures Stops[k].id in Directory(Stops) && Directory(Stops)[Stops[k].id] == Stops[k] {
      DirectoryLastWins(Stops, k);
    }
  }

  /** Array.prototype.find by id: the first vessel with that id, if any. */
  function FindVessel(vs: seq<Vessel>, id: string): (r: Option<nat>)
    ensures r.Some? ==> r.value < |vs| && vs[r.value].id == id && forall j :: 0 <= j < r.value ==> vs[j].id != id
    ensures r.None? ==> forall j :: 0 <= j < |vs| ==> vs[j].id != id
  {
    if |vs| == 0 then None
    else if vs[0].id == id then Some(0)
    else
      match FindVessel(vs[1..], id)
      case None => None
      case Some(k) => Some(k + 1)
  }

  /** The vessel after a GPS fix at coords, taken at instant time. */
  function ApplyGpsReading(v: Vessel, coords: Coord, time: int): Vessel
  {
    v.(positionSource := Gps, currentCoords := Some(coords), status := Some(Live), lastUpdated := Some(time))
  }

  /** A pushed fix survives every tick for two minutes untouched, and the tick
      after that marks the vessel Estimated and hands it to the timetable rule. */
  lemma FixLastsTwoMinutes(v: Vessel, coords: Coord, time: int, now: int, stops: map<string, Data.Stop>, path: seq<Coord>, sqrt: real -> real)
    ensures var g := ApplyGpsReading(v, coords, time); var r := Estimate(g, now, stops, path, sqrt);
      && (now <= time + StaleAfterMs ==> r == g)
      && (time + StaleAfterMs < now && v.schedule.None? ==> r == g.(status := Some(Estimated)))
      && (time + StaleAfterMs < now && v.schedule.Some? ==>
            r == TimetableUpdate(g.(status := Some(Estimated)), v.schedule.value, now, stops, path, sqrt))
  {
    LiveIffFresh(ApplyGpsReading(v, coords, time), now, stops, path, sqrt);
  }

  /** Every vessel after one tick, in collection order. */
  function EstimateAll(vs: seq<Vessel>, now: int, stops: map<string, Data.Stop>, path: seq<Coord>, sqrt: real -> real): (r: seq<Vessel>)
    ensures |r| == |vs|
    ensures forall j :: 0 <= j < |vs| ==> r[j] == Estimate(vs[j], now, stops, path, sqrt)
  {
    seq(|vs|, j requires 0 <= j < |vs| => Estimate(vs[j], now, stops, path, sqrt))
  }

  /** A tick keeps every vessel's identity, source and schedule. */
  lemma EstimateAllKeepsIdentity(vs: seq<Vessel>, now: int, stops: map<string, Data.Stop>, path: seq<Coord>, sqrt: real -> real)
    ensures var r := EstimateAll(vs, now, stops, path, sqrt);
      forall j :: 0 <= j < |vs| ==> r[j].id == vs[j].id && r[j].positionSource == vs[j].positionSource && r[j].schedule == vs[j].schedule
  {
  }

  /** Two ticks at the same instant give the same collection as one. */
  lemma EstimateAllIdempotent(vs: seq<Vessel>, now: int, stops: map<string, Data.Stop>, path: seq<Coord>, sqrt: real -> real)
    ensures var r := EstimateAll(vs, now, stops, path, sqrt);
      EstimateAll(r, now, stops, path, sqrt) == r
  {
    var r := EstimateAll(vs, now, stops, path, sqrt);
    forall j | 0 <= j < |vs| ensures Estimate(r[j], now, stops, path, sqrt) == r[j] {
      EstimateIdempotent(vs[j], now, stops, path, sqrt);
    }
  }

  class TrackerEngine {
    var vessels: seq<Vessel>
    var stops: map<string, Data.Stop>
    const routePath: seq<Coord>
    /** The square root used by the distance computations. */
    const sqrt: real -> real
    var updateCallbacks: seq<Subscriber>
    var updateInterval: Option<nat>
    /** Every publication so far, oldest first. */
    ghost var published: seq<Publication>
    /** Every timer registered with the host, and every handle cleared. */
    ghost var timers: seq<Timer>
    ghost var cleared: seq<nat>

    /** A shallow copy of the initial vessels, the directory of the stops, and the route path. */
    constructor(initialVessels: seq<Vessel>, stopList: seq<Data.Stop>, routePath: seq<Coord>, sqrt: real -> real)
      ensures vessels == initialVessels
      ensures stops == Directory(stopList)
      ensures this.routePath == routePath && this.sqrt == sqrt
      ensures updateCallbacks == [] && updateInterval.None?
      ensures published == [] && timers == [] && cleared == []
    {
      vessels := initialVessels;
      var m: map<string, Data.Stop> := map[];
      for i := 0 to |stopList|
        invariant m == Directory(stopList[..i])
      {
        assert stopList[..i + 1][..i] == stopList[..i];
        m := m[stopList[i].id := stopList[i]];
      }
      assert stopList[..|stopList|] == stopList;
      stops := m;
      this.routePath := routePath;
      this.sqrt := sqrt;
      updateCallbacks := [];
      updateInterval := None;
      published := [];
      timers := [];
      cleared := [];
    }

    /** notifyListeners: every subscriber, in registration order, receives one
        copy of the current vessel list. */
    method NotifyListeners()
      modifies this`published
      ensures published == old(published) + [Publication(updateCallbacks, vessels)]
    {
      var copy := vessels;
      published := published + [Publication(updateCallbacks, copy)];
    }

    /** addVessel: appends the vessel, then publishes. */
    method AddVessel(vessel: Vessel)
      modifies this`vessels, this`published
      ensures vessels == old(vessels) + [vessel]
      ensures published == old(published) + [Publication(updateCallbacks, vessels)]
    {
      vessels := vessels + [vessel];
      NotifyListeners();
    }

    /** start: one tick at once, then a periodic timer whose handle is kept. */
    method Start(now: int, handle: nat)
      modifies this`vessels, this`published, this`timers, this`updateInterval
      ensures vessels == EstimateAll(old(vessels), now, stops, routePath, sqrt)
      ensures published == old(published) + [Publication(updateCallbacks, vessels)]
      ensures timers == old(timers) + [Timer(handle, RefreshRateMs)]
      ensures updateInterval == Some(handle)
    {
      UpdatePositions(now);
      timers := timers + [Timer(handle, RefreshRateMs)];
      updateInterval := Some(handle);
    }

    /** stop: clears the running timer, if there is one; calling it again does nothing. */
    method Stop()
      modifies this`updateInterval, this`cleared
      ensures updateInterval.None?
      ensures old(updateInterval).Some? ==> cleared == old(cleared) + [old(updateInterval).value]
      ensures old(updateInterval).None? ==> cleared == old(cleared)
    {
      if updateInterval.Some? {
        cleared := cleared + [updateInterval.value];
        updateInterval := None;
      }
    }

    /** onUpdate: registers a subscriber after the existing ones. */
    method OnUpdate(callback: Subscriber)
      modifies this`updateCallbacks
      ensures updateCallbacks == old(updateCallbacks) + [callback]
    {
      updateCallbacks := updateCallbacks + [callback];
    }

    /** injectGpsReading: the first vessel with the id takes the fix and the engine
        publishes; an unknown id changes nothing and publishes nothing. */
    method InjectGpsReading(vesselId: string, coords: Coord, time: int)
      modifies this`vessels, this`published
      ensures FindVessel(old(vessels), vesselId).None? ==> vessels == old(vessels) && published == old(published)
      ensures FindVessel(old(vessels), vesselId).Some? ==>
        var k := FindVessel(old(vessels), vesselId).value;
        && vessels == old(vessels)[k := ApplyGpsReading(old(vessels)[k], coords, time)]
        && published == old(published) + [Publication(updateCallbacks, vessels)]
    {
      var found := FindVessel(vessels, vesselId);
      if found.Some? {
        var k := found.value;
        var vessel := vessels[k];
        vessel := vessel.(positionSource := Gps, currentCoords := Some(coords), status := Some(Live), lastUpdated := Some(time));
        vessels := vessels[k := vessel];
        NotifyListeners();
      }
    }

    /** updatePositions: every vessel through the decision rule, in order, then one publication. */
    method UpdatePositions(now: int)
      modifies this`vessels, this`published
      ensures vessels == EstimateAll(old(vessels), now, stops, routePath, sqrt)
      ensures published == old(published) + [Publication(updateCallbacks, vessels)]
    {
      var n := |vessels|;
      for i := 0 to n
        invariant |vessels| == n
        invariant published == old(published)
        invariant forall j :: 0 <= j < i ==> vessels[j] == Estimate(old(vessels)[j], now, stops, routePath, sqrt)
        invariant forall j :: i <= j < n ==> vessels[j] == old(vessels)[j]
      {
        var updated := UpdateVessel(vessels[i], now);
        vessels := vessels[i := updated];
      }
      NotifyListeners();
    }

    /** The forEach callback of updatePositions for one vessel. */
    method UpdateVessel(vessel: Vessel, now: int) returns (r: Vessel)
      ensures r == Estimate(vessel, now, stops, routePath, sqrt)
    {
      r := vessel;
      if r.positionSource == Gps {
        var isStale := false;
        if r.lastUpdated.Some? {
          if now - r.lastUpdated.value > StaleAfterMs {
            isStale := true;
          }
        } else {
          isStale := true;
        }
        if isStale {
          r := r.(status := Some(Estimated));
          if r.schedule.Some? {
            r := InterpolateTimetablePosition(r, now);
          }
        } else {
          r := r.(status := Some(Live));
        }
      } else if r.positionSource == Timetable && r.schedule.Some? {
        r := InterpolateTimetablePosition(r, now);
      }
    }

    /** interpolateTimetablePosition: scans the schedule for the dwell window or the
        first entry still ahead, then places the vessel at the stop, between the
        two stops along the route, or at the first or last stop. */
    method InterpolateTimetablePosition(vessel: Vessel, now: int) returns (r: Vessel)
      requires vessel.schedule.Some?
      ensures r == TimetableUpdate(vessel, vessel.schedule.value, now, stops, routePath, sqrt)
    {
      var schedule := vessel.schedule.value;
      r := vessel;
      var previousStop: Option<StopTime> := None;
      var nextStop: Option<StopTime> := None;
      var i := 0;
      while i < |schedule|
        invariant 0 <= i <= |schedule|
        invariant Scan(schedule, now, 0) == Scan(schedule, now, i)
        invariant r == vessel && previousStop.None? && nextStop.None?
      {
        var stopTime := schedule[i];
        if stopTime.arrivalTime <= now && now <= stopTime.departureTime {
          if stopTime.stopId in stops {
            var stop := stops[stopTime.stopId];
            r := r.(currentCoords := Some(stop.coords), status := Some(if "mooring" <= stopTime.stopId then Moored else Scheduled));
          }
          if i + 1 < |schedule| {
            r := r.(nextStopId := Some(schedule[i + 1].stopId), nextArrivalTime := Some(schedule[i + 1].arrivalTime));
          } else {
            r := r.(nextStopId := None, nextArrivalTime := None);
          }
          assert Scan(schedule, now, 0) == AtStop(i);
          return;
        }
        if now < stopTime.arrivalTime {
          nextStop := Some(stopTime);
          r := r.(nextStopId := Some(stopTime.stopId), nextArrivalTime := Some(stopTime.arrivalTime));
          if i > 0 {
            previousStop := Some(schedule[i - 1]);
          }
          break;
        }
        i := i + 1;
      }
      assert nextStop.Some? ==> i < |schedule| && Scan(schedule, now, 0) == Approaching(i) && nextStop.value == schedule[i];
      assert nextStop.None? ==> i == |schedule| && Scan(schedule, now, 0) == PastAll;
      assert nextStop.None? ==> r == vessel && previousStop.None?;
      assert nextStop.Some? ==> r == vessel.(nextStopId := Some(schedule[i].stopId), nextArrivalTime := Some(schedule[i].arrivalTime));
      assert nextStop.Some? ==> (previousStop.Some? <==> i > 0) && (i > 0 ==> previousStop.value == schedule[i - 1]);
      ghost var v1 := r;

      if previousStop.Some? && nextStop.Some? {
        r := MoveAlongRoute(r, previousStop.value, nextStop.value, now);
        assert r == MoveBetween(v1, schedule[i - 1], schedule[i], now, stops, routePath, sqrt);
      } else if nextStop.None? && |schedule| > 0 {
        var lastStop := schedule[|schedule| - 1];
        if lastStop.stopId in stops {
          var stop := stops[lastStop.stopId];
          r := r.(currentCoords := Some(stop.coords), status := Some(if "mooring" <= lastStop.stopId then Moored else Scheduled));
        }
        assert r == SnapTo(vessel, lastStop, stops);
      } else if previousStop.None? && |schedule| > 0 {
        var firstStop := schedule[0];
        if firstStop.stopId in stops {
          var stop := stops[firstStop.stopId];
          r := r.(currentCoords := Some(stop.coords), status := Some(if "mooring" <= firstStop.stopId then Moored else Scheduled));
        }
        assert r == SnapTo(v1, firstStop, stops);
      }
    }

    /** The between-stops branch of interpolateTimetablePosition: the elapsed share
        of the travel time, clamped to [0, 1], placed along the route between the
        two stops when both resolve. */
    method MoveAlongRoute(vessel: Vessel, previousStop: StopTime, nextStop: StopTime, now: int) returns (r: Vessel)
      requires previousStop.departureTime < nextStop.arrivalTime
      ensures r == MoveBetween(vessel, previousStop, nextStop, now, stops, routePath, sqrt)
    {
      r := vessel;
      var prevDep := previousStop.departureTime;
      var nextArr := nextStop.arrivalTime;
      var curr := now;
      var progress := (curr - prevDep) as real / (nextArr - prevDep) as real;
      var clampedProgress := Clamp01(progress);
      if previousStop.stopId in stops && nextStop.stopId in stops {
        var startStop := stops[previousStop.stopId];
        var endStop := stops[nextStop.stopId];
        var subPath := GetSubPath(routePath, startStop.coords, endStop.coords, sqrt);
        var p := InterpolateAlongSubPath(subPath, clampedProgress, sqrt);
        r := r.(currentCoords := Some(p), status := Some(Estimated));
      }
      assert progress == Progress(now, prevDep, nextArr);
    }
  }
}
