// The data model and the fixed configuration of the tracker (src/data/mockData.ts):
// stops, schedule entries, vessels and routes; the schedule generator; and the
// Bristol Harbour stops, route path and fleet, with their consistency lemmas.
//
// Instants are integer milliseconds since the epoch. The ISO 8601 strings of the
// source are the textual form of these instants and are not modelled.
module Data {
  import opened Common
  import opened Geometry

  /** Which rule governs a vessel's position. */
  datatype PositionSource = Timetable | Gps

  /** The statuses a vessel can show. Moored is assigned by the engine for stop
      ids with the mooring prefix, although the declared status type omits it. */
  datatype VesselStatus = Scheduled | Estimated | Live | ActualPosition | Moored

  datatype VesselType = PassengerFerry | Workboat

  /** A stop: coords is the water point used for routing; landCoords only places a marker. */
  datatype Stop = Stop(id: string, name: string, coords: Coord, landCoords: Option<Coord>)

  /** One timetable entry: the vessel is at stopId from arrivalTime to departureTime. */
  datatype StopTime = StopTime(stopId: string, arrivalTime: int, departureTime: int)

  /** A vessel record; the last five fields are the ones the engine updates. */
  datatype Vessel = Vessel(
    id: string,
    name: string,
    kind: VesselType,
    positionSource: PositionSource,
    color: Option<string>,
    textInitial: string,
    avatarUrl: Option<string>,
    schedule: Option<seq<StopTime>>,
    currentCoords: Option<Coord>,
    status: Option<VesselStatus>,
    lastUpdated: Option<int>,
    nextStopId: Option<string>,
    nextArrivalTime: Option<int>)

  datatype Route = Route(id: string, name: string, stops: seq<Stop>, path: seq<Coord>)

  const MsPerMinute: int := 60000

  /** The entries of generateDynamicSchedule for the first |stopIds| stops, all
      times counted from startTimeMs; the map callback applied element by element. */
  function ScheduleFrom(stopIds: seq<string>, offsets: seq<int>, docks: seq<int>, startTimeMs: int): (r: seq<StopTime>)
    requires |offsets| >= |stopIds| && |docks| >= |stopIds|
    ensures |r| == |stopIds|
    ensures forall i :: 0 <= i < |r| ==> r[i].stopId == stopIds[i]
    ensures forall i :: 0 <= i < |r| ==> r[i].arrivalTime == startTimeMs + offsets[i] * MsPerMinute
    ensures forall i :: 0 <= i < |r| ==> r[i].departureTime == r[i].arrivalTime + docks[i] * MsPerMinute
  {
    if |stopIds| == 0 then []
    else
      var n := |stopIds| - 1;
      var arrival := startTimeMs + offsets[n] * MsPerMinute;
      ScheduleFrom(stopIds[..n], offsets, docks, startTimeMs) + [StopTime(stopIds[n], arrival, arrival + docks[n] * MsPerMinute)]
  }

  /** generateDynamicSchedule, with the clock reading now passed in: one entry per
      stop id, in order, arriving offsets[i] minutes after the start, which lies
      startOffset minutes from now, and staying docks[i] minutes. The source needs
      an offset and a duration for every stop: a missing one makes the date
      conversion throw. */
  function GenerateDynamicSchedule(stopIds: seq<string>, offsets: seq<int>, docks: seq<int>, startOffset: int, now: int): (r: seq<StopTime>)
    requires |offsets| >= |stopIds| && |docks| >= |stopIds|
    ensures |r| == |stopIds|
    ensures forall i :: 0 <= i < |r| ==> r[i].stopId == stopIds[i]
    ensures forall i :: 0 <= i < |r| ==> r[i].arrivalTime == now + (startOffset + offsets[i]) * MsPerMinute
    ensures forall i :: 0 <= i < |r| ==> r[i].departureTime - r[i].arrivalTime == docks[i] * MsPerMinute
  {
    ScheduleFrom(stopIds, offsets, docks, now + startOffset * MsPerMinute)
  }

  /** A schedule in which every entry departs no earlier than it arrives and
      departs strictly before the next entry arrives. */
  predicate WellFormedSchedule(s: seq<StopTime>)
  {
    && (forall i :: 0 <= i < |s| ==> s[i].arrivalTime <= s[i].departureTime)
    && (forall i :: 0 < i < |s| ==> s[i - 1].departureTime < s[i].arrivalTime)
  }

  /** Non-negative dwell times, and offsets spaced more than the dwell apart, give
      a well-formed schedule. */
  lemma GeneratedScheduleWellFormed(stopIds: seq<string>, offsets: seq<int>, docks: seq<int>, startOffset: int, now: int)
    requires |offsets| >= |stopIds| && |docks| >= |stopIds|
    requires forall i :: 0 <= i < |stopIds| ==> 0 <= docks[i]
    requires forall i :: 0 < i < |stopIds| ==> offsets[i - 1] + docks[i - 1] < offsets[i]
    ensures WellFormedSchedule(GenerateDynamicSchedule(stopIds, offsets, docks, startOffset, now))
  {
    var r := GenerateDynamicSchedule(stopIds, offsets, docks, startOffset, now);
    forall i | 0 < i < |r| ensures r[i - 1].departureTime < r[i].arrivalTime {
      assert (offsets[i - 1] + docks[i - 1]) * MsPerMinute < offsets[i] * MsPerMinute;
    }
  }

  /** Non-decreasing offsets give non-decreasing arrival times. */
  lemma GeneratedArrivalsMonotone(stopIds: seq<string>, offsets: seq<int>, docks: seq<int>, startOffset: int, now: int, i: int, j: int)
    requires |offsets| >= |stopIds| && |docks| >= |stopIds|
    requires forall k :: 0 < k < |stopIds| ==> offsets[k - 1] <= offsets[k]
    requires 0 <= i <= j < |stopIds|
    ensures var r := GenerateDynamicSchedule(stopIds, offsets, docks, startOffset, now);
      r[i].arrivalTime <= r[j].arrivalTime
    decreases j - i
  {
    if i < j {
      GeneratedArrivalsMonotone(stopIds, offsets, docks, startOffset, now, i + 1, j);
    }
  }

  // ---------------------------------------------------------------------------
  // Bristol Harbour configuration
  // ---------------------------------------------------------------------------

  /** The seven stops, with their water coordinates. */
  const Stops: seq<Stop> := [
    Stop("temple-meads", "Temple Meads", Coord(51.4515123, -2.5812173), None),
    Stop("castle-park", "Castle Park", Coord(51.4549873, -2.5887009), None),
    Stop("city-centre", "City Centre", Coord(51.4520327, -2.597747), None),
    Stop("wapping-wharf", "Wapping Wharf", Coord(51.4475188, -2.6016256), Some(Coord(51.447470, -2.601550))),
    Stop("ss-great-britain", "ss Great Britain", Coord(51.4490229, -2.6070286), None),
    Stop("mardyke", "Mardyke", Coord(51.4491382, -2.613091), None),
    Stop("hotwells", "Hotwells", Coord(51.4471483, -2.6158254), None)
  ]

  /** The route nodes from Temple Meads to Castle Park. */
  const FromTempleMeads: seq<Coord> := [
    Coord(51.4515123, -2.5812173),
    Coord(51.4515617, -2.5811997),
    Coord(51.451631, -2.581217),
    Coord(51.4516863, -2.5812624),
    Coord(51.4517283, -2.5813284),
    Coord(51.4521979, -2.5825564),
    Coord(51.4526703, -2.5839593),
    Coord(51.4531901, -2.5853322),
    Coord(51.4535473, -2.5862154),
    Coord(51.4538, -2.5865842),
    Coord(51.4541102, -2.5870134),
    Coord(51.4543937, -2.5873481),
    Coord(51.4546451, -2.5877859),
    Coord(51.4547606, -2.5882233),
    Coord(51.4547839, -2.5884579),
    Coord(51.4548536, -2.5886072),
    Coord(51.454936, -2.5886755)
  ]

  /** The route nodes from Castle Park to City Centre. */
  const FromCastlePark: seq<Coord> := [
    Coord(51.4549873, -2.5887009),
    Coord(51.4549529, -2.5887041),
    Coord(51.4548699, -2.588757),
    Coord(51.4548015, -2.5889079),
    Coord(51.4547813, -2.5890916),
    Coord(51.4547098, -2.5894271),
    Coord(51.4546076, -2.5896827),
    Coord(51.4541958, -2.5904638),
    Coord(51.4538321, -2.5910045),
    Coord(51.4535433, -2.5914165),
    Coord(51.4532491, -2.5916912),
    Coord(51.4528908, -2.59188),
    Coord(51.4525618, -2.5919698),
    Coord(51.4519616, -2.5920512),
    Coord(51.451559, -2.5920173),
    Coord(51.450885, -2.5919487),
    Coord(51.4502806, -2.5919487),
    Coord(51.4498333, -2.5919486),
    Coord(51.4496056, -2.5920396),
    Coord(51.4493685, -2.5921908),
    Coord(51.4491321, -2.5923496),
    Coord(51.4489438, -2.5926412),
    Coord(51.4487986, -2.5930147),
    Coord(51.4486605, -2.5937291),
    Coord(51.4485734, -2.5944813),
    Coord(51.4485984, -2.5964715),
    Coord(51.4485717, -2.5969129),
    Coord(51.4485697, -2.5978331),
    Coord(51.4486052, -2.5980108),
    Coord(51.4486857, -2.5981454),
    Coord(51.4487468, -2.5981974),
    Coord(51.448836, -2.5981989),
    Coord(51.4502239, -2.5979518),
    Coord(51.4509143, -2.5976536),
    Coord(51.4515204, -2.5975985),
    Coord(51.4517996, -2.5976974)
  ]

  /** The route nodes from City Centre to Wapping Wharf. */
  const FromCityCentre: seq<Coord> := [
    Coord(51.4520327, -2.597747),
    Coord(51.451911, -2.597759),
    Coord(51.4517956, -2.5977623),
    Coord(51.4515171, -2.5976638),
    Coord(51.4509188, -2.5977182),
    Coord(51.4502309, -2.5980067),
    Coord(51.4484079, -2.5983449),
    Coord(51.4481213, -2.5987317),
    Coord(51.4479455, -2.5990883),
    Coord(51.4475657, -2.6001221),
    Coord(51.4474728, -2.6008459),
    Coord(51.4474836, -2.6012706),
    Coord(51.4475015, -2.6014411)
  ]

  /** The route nodes from Wapping Wharf to ss Great Britain. */
  const FromWappingWharf: seq<Coord> := [
    Coord(51.4475188, -2.6016256),
    Coord(51.4474838, -2.6018036),
    Coord(51.4474038, -2.6019388),
    Coord(51.447297, -2.6020316),
    Coord(51.4473519, -2.6020079),
    Coord(51.4474669, -2.6020357),
    Coord(51.4475626, -2.6021417),
    Coord(51.4476196, -2.6023044),
    Coord(51.4477397, -2.6029399),
    Coord(51.448184, -2.6047497),
    Coord(51.4483325, -2.6051372),
    Coord(51.4486654, -2.6058541),
    Coord(51.4490757, -2.6065937),
    Coord(51.4491145, -2.6067096),
    Coord(51.4491172, -2.6068228),
    Coord(51.4490875, -2.6069305)
  ]

  /** The route nodes from ss Great Britain to Mardyke. */
  const FromSsGreatBritain: seq<Coord> := [
    Coord(51.4490229, -2.6070286),
    Coord(51.4490913, -2.6069618),
    Coord(51.4492054, -2.6069258),
    Coord(51.4493177, -2.6069739),
    Coord(51.4494055, -2.6070962),
    Coord(51.4495531, -2.6075302),
    Coord(51.4497384, -2.6083121),
    Coord(51.449812, -2.608836),
    Coord(51.4498085, -2.6094454),
    Coord(51.4496934, -2.6102563),
    Coord(51.4494753, -2.611228),
    Coord(51.4490898, -2.6125482),
    Coord(51.4490556, -2.6127265),
    Coord(51.4490737, -2.6129108)
  ]

  /** The route nodes from Mardyke to Hotwells, Hotwells included. */
  const FromMardyke: seq<Coord> := [
    Coord(51.4491382, -2.613091),
    Coord(51.449024, -2.6130638),
    Coord(51.4489196, -2.6131458),
    Coord(51.4488482, -2.613293),
    Coord(51.4480748, -2.6154301),
    Coord(51.4478991, -2.6157395),
    Coord(51.4476647, -2.6159233),
    Coord(51.4474047, -2.6159558),
    Coord(51.4471483, -2.6158254)
  ]

  /** The waterway centre line from Temple Meads to Hotwells, one entry per OSM
      node, written leg by leg: each leg starts at a stop's water coordinate. */
  const RoutePath: seq<Coord> := FromTempleMeads + FromCastlePark + FromCityCentre + FromWappingWharf + FromSsGreatBritain + FromMardyke

  const BristolFerriesRoute: Route := Route("bristol-ferries-main", "Bristol Ferries Main Route", Stops, RoutePath)

  const MatildaStopIds: seq<string> := ["temple-meads", "castle-park", "city-centre", "wapping-wharf", "ss-great-britain", "mardyke", "hotwells"]
  const MatildaOffsets: seq<int> := [0, 10, 20, 27, 34, 42, 50]
  const MatildaDocks: seq<int> := [5, 2, 3, 2, 2, 2, 5]
  const BrigantiaStopIds: seq<string> := ["hotwells", "mardyke", "ss-great-britain", "wapping-wharf", "city-centre", "castle-park", "temple-meads"]
  const BrigantiaOffsets: seq<int> := [0, 16, 22, 28, 35, 42, 48]
  const BrigantiaDocks: seq<int> := [5, 2, 2, 2, 3, 2, 5]

  /** The demo fleet. Each schedule reads the clock separately, so the two readings
      are parameters: Matilda started 20 minutes before clock1, Brigantia 15
      minutes before clock2. */
  function MockVessels(clock1: int, clock2: int): (fleet: seq<Vessel>)
    ensures |fleet| == 2
    ensures forall k :: 0 <= k < |fleet| ==> fleet[k].positionSource == Timetable && fleet[k].schedule.Some?
  {
    [ Vessel("ferry-1", "Matilda", PassengerFerry, Timetable, Some("#fada5e"), "M", Some("assets/matilda.png"),
        Some(GenerateDynamicSchedule(MatildaStopIds, MatildaOffsets, MatildaDocks, -20, clock1)),
        None, None, None, None, None),
      Vessel("ferry-2", "Brigantia", PassengerFerry, Timetable, Some("#005b96"), "B", Some("assets/brigantia.png"),
        Some(GenerateDynamicSchedule(BrigantiaStopIds, BrigantiaOffsets, BrigantiaDocks, -15, clock2)),
        None, None, None, None, None) ]
  }

  /** No two stops share an id. */
  lemma StopIdsUnique()
    ensures forall i, j :: 0 <= i < j < |Stops| ==> Stops[i].id != Stops[j].id
  {
  }

  /** The position of each stop's water coordinate in the route path. */
  const StopNodeIndex: seq<nat> := [0, 17, 53, 66, 82, 96, 104]

  /** Each stop's water coordinate is exactly a node of the route path. */
  lemma StopsOnRoute()
    ensures |StopNodeIndex| == |Stops|
    ensures forall k :: 0 <= k < |Stops| ==> StopNodeIndex[k] < |RoutePath| && RoutePath[StopNodeIndex[k]] == Stops[k].coords
  {
    assert |FromTempleMeads| == 17 && |FromCastlePark| == 36 && |FromCityCentre| == 13;
    assert |FromWappingWharf| == 16 && |FromSsGreatBritain| == 14 && |FromMardyke| == 9;
    assert |RoutePath| == 105;
    assert RoutePath[0] == FromTempleMeads[0] == Stops[0].coords;
    assert RoutePath[17] == FromCastlePark[0] == Stops[1].coords;
    assert RoutePath[53] == FromCityCentre[0] == Stops[2].coords;
    assert RoutePath[66] == FromWappingWharf[0] == Stops[3].coords;
    assert RoutePath[82] == FromSsGreatBritain[0] == Stops[4].coords;
    assert RoutePath[96] == FromMardyke[0] == Stops[5].coords;
    assert RoutePath[104] == FromMardyke[8] == Stops[6].coords;
  }

  /** So every stop snaps to a route node at distance 0, no later than its own node. */
  lemma StopsSnapExactly(sqrt: real -> real, k: int)
    requires SqrtLaws(sqrt)
    requires 0 <= k < |Stops|
    ensures Nearest(RoutePath, Stops[k].coords, sqrt) <= StopNodeIndex[k]
    ensures Dist(RoutePath[Nearest(RoutePath, Stops[k].coords, sqrt)], Stops[k].coords, sqrt) == 0.0
  {
    StopsOnRoute();
    NearestOfNode(RoutePath, Stops[k].coords, sqrt, StopNodeIndex[k]);
  }

  /** Both fleet schedules are well formed, whatever the clock readings. */
  lemma FleetSchedulesWellFormed(clock1: int, clock2: int)
    ensures forall k :: 0 <= k < |MockVessels(clock1, clock2)| ==> WellFormedSchedule(MockVessels(clock1, clock2)[k].schedule.value)
  {
    GeneratedScheduleWellFormed(MatildaStopIds, MatildaOffsets, MatildaDocks, -20, clock1);
    GeneratedScheduleWellFormed(BrigantiaStopIds, BrigantiaOffsets, BrigantiaDocks, -15, clock2);
  }

  /** Every stop id in the fleet's schedules names one of the stops. */
  lemma FleetStopsKnown(clock1: int, clock2: int)
    ensures forall k, e :: 0 <= k < |MockVessels(clock1, clock2)| && e in MockVessels(clock1, clock2)[k].schedule.value ==>
      exists s :: s in Stops && s.id == e.stopId
  {
    var fleet := MockVessels(clock1, clock2);
    forall k, e | 0 <= k < |fleet| && e in fleet[k].schedule.value
      ensures exists s :: s in Stops && s.id == e.stopId
    {
      var ids := if k == 0 then MatildaStopIds else BrigantiaStopIds;
      var i :| 0 <= i < |fleet[k].schedule.value| && fleet[k].schedule.value[i] == e;
      assert e.stopId == ids[i];
      var n := if ids[i] == "temple-meads" then 0 else if ids[i] == "castle-park" then 1
        else if ids[i] == "city-centre" then 2 else if ids[i] == "wapping-wharf" then 3
        else if ids[i] == "ss-great-britain" then 4 else if ids[i] == "mardyke" then 5 else 6;
      assert Stops[n].id == e.stopId;
    }
  }
}
