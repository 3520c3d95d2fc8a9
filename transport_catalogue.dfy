/** The entity store (transport-catalogue/transport_catalogue.cpp): stops and
    buses kept in insertion order, name indices over them, the set of bus names
    serving every stop and the directed table of road distances. */
module Catalogue {
  import opened Wrappers
  import opened Ordered
  import opened Domain

  const STOP_NOT_FOUND := "Stop from route not found in catalogue"
  const ROUTE_NOT_FOUND := "Route not found in catalogue"
  const STOP_SET_NOT_FOUND := "Stop not found in catalogue"
  const NO_DISTANCE := "No route between these stops in catalogue"

  /** The distinct elements of a sequence of ids. */
  function Distinct(ids: seq<nat>): set<nat> {
    set k | 0 <= k < |ids| :: ids[k]
  }

  /** There are never more distinct ids than ids, and at least one in a
      non-empty sequence. */
  lemma {:induction false} DistinctBounds(ids: seq<nat>)
    ensures |Distinct(ids)| <= |ids|
    ensures |ids| > 0 ==> |Distinct(ids)| >= 1
  {
    if |ids| > 0 {
      var front := ids[..|ids| - 1];
      DistinctBounds(front);
      assert Distinct(ids) == Distinct(front) + {ids[|ids| - 1]} by {
        forall x ensures x in Distinct(ids) <==> x in Distinct(front) + {ids[|ids| - 1]} {
          if x in Distinct(ids) {
            var k :| 0 <= k < |ids| && ids[k] == x;
            if k < |ids| - 1 {
              assert front[k] == x;
            }
          }
          if x in Distinct(front) {
            var k :| 0 <= k < |front| && front[k] == x;
            assert ids[k] == x;
          }
        }
      }
      assert ids[|ids| - 1] in Distinct(ids);
    }
  }

  /** The names of a route list, in its order. */
  function RouteNames(routes: seq<(string, BusId)>): (r: seq<string>)
    ensures |r| == |routes| && forall k :: 0 <= k < |routes| ==> r[k] == routes[k].0
  {
    seq(|routes|, k requires 0 <= k < |routes| => routes[k].0)
  }

  /** The stop bus sets after `bus` has been inserted, in order, into the set
      of each stop named in `names`. */
  ghost function WithBus(m: map<string, seq<string>>, names: seq<string>, bus: string): (w: map<string, seq<string>>)
    requires forall n :: n in m ==> StrictlySorted(m[n])
    requires forall k :: 0 <= k < |names| ==> names[k] in m
    ensures w.Keys == m.Keys && forall n :: n in w ==> StrictlySorted(w[n])
  {
    if names == [] then m
    else
      var w := WithBus(m, names[..|names| - 1], bus);
      var last := names[|names| - 1];
      w[last := Insert(w[last], bus)]
  }

  /** Stop by stop: a named stop's set gains the bus (once, however often the
      stop is named) and every other set is unchanged. */
  lemma {:induction false} WithBusPointwise(m: map<string, seq<string>>, names: seq<string>, bus: string)
    requires forall n :: n in m ==> StrictlySorted(m[n])
    requires forall k :: 0 <= k < |names| ==> names[k] in m
    ensures forall n :: n in m ==> WithBus(m, names, bus)[n] == if n in names then Insert(m[n], bus) else m[n]
  {
    if names != [] {
      var front := names[..|names| - 1];
      WithBusPointwise(m, front, bus);
      var last := names[|names| - 1];
      assert names == front + [last];
      forall n | n in m ensures WithBus(m, names, bus)[n] == if n in names then Insert(m[n], bus) else m[n] {
        if n == last && n in front {
          assert Insert(Insert(m[n], bus), bus) == Insert(m[n], bus);
        }
      }
    }
  }

  class TransportCatalogue {
    /** Every stop record ever added, in order; a record is never removed. */
    var stops: seq<Stop>
    /** Every bus record ever added, in order. */
    var buses: seq<Bus>
    /** Name to the most recently added stop record of that name. */
    var stopIndex: map<string, StopId>
    /** Name to the most recently added bus record of that name. */
    var busIndex: map<string, BusId>
    /** Stop name to the names of the buses through it, as a sorted set. */
    var stopBuses: map<string, seq<string>>
    /** Road distance from the first stop record to the second. */
    var distances: map<(StopId, StopId), int>

    /** The links between the indices and the storage that every operation keeps. */
    ghost predicate Valid()
      reads this
    {
      && (forall n :: n in stopIndex ==> stopIndex[n] < |stops| && stops[stopIndex[n]].name == n)
      && (forall n :: n in busIndex ==> busIndex[n] < |buses| && buses[busIndex[n]].name == n)
      && (forall s :: 0 <= s < |stops| ==> stops[s].name in stopIndex)
      && (forall b, k :: 0 <= b < |buses| && 0 <= k < |buses[b].stops| ==> buses[b].stops[k] < |stops|)
      && stopBuses.Keys == stopIndex.Keys
      && (forall n :: n in stopBuses ==> StrictlySorted(stopBuses[n]))
      && (forall p :: p in distances ==> p.0 < |stops| && p.1 < |stops|)
    }

    constructor()
      ensures Valid()
      ensures stops == [] && buses == [] && distances == map[]
      ensures stopIndex == map[] && busIndex == map[] && stopBuses == map[]
    {
      stops := [];
      buses := [];
      stopIndex := map[];
      busIndex := map[];
      stopBuses := map[];
      distances := map[];
    }

    /** Appends a stop record; the name now means this record, and its bus set is
        empty again. An earlier record of the same name stays in storage. */
    method AddStop(name: string, coords: Coordinates)
      requires Valid()
      modifies this
      ensures Valid()
      ensures stops == old(stops) + [Stop(name, coords)]
      ensures stopIndex == old(stopIndex)[name := |old(stops)|]
      ensures stopBuses == old(stopBuses)[name := []]
      ensures buses == old(buses) && busIndex == old(busIndex) && distances == old(distances)
    {
      stops := stops + [Stop(name, coords)];
      stopIndex := stopIndex[name := |stops| - 1];
      stopBuses := stopBuses[name := []];
    }

    /** Looks a stop up by name. */
    function GetStop(name: string): (r: Result<StopId>)
      reads this
      requires Valid()
      ensures r.Success? <==> name in stopIndex
      ensures r.Success? ==> r.value == stopIndex[name] && r.value < |stops| && stops[r.value].name == name
      ensures r.Failure? ==> r.error == InvalidArgument(STOP_NOT_FOUND)
    {
      if name !in stopIndex then Failure(InvalidArgument(STOP_NOT_FOUND)) else Success(stopIndex[name])
    }

    /** Looks a bus up by name. */
    function GetBus(name: string): (r: Result<BusId>)
      reads this
      requires Valid()
      ensures r.Success? <==> name in busIndex
      ensures r.Success? ==> r.value == busIndex[name] && r.value < |buses| && buses[r.value].name == name
      ensures r.Failure? ==> r.error == InvalidArgument(ROUTE_NOT_FOUND)
    {
      if name !in busIndex then Failure(InvalidArgument(ROUTE_NOT_FOUND)) else Success(busIndex[name])
    }

    /** The stop records `names` denote, resolved one by one with GetStop; the
        first unknown name fails. */
    method ResolveStops(names: seq<string>) returns (r: Result<seq<StopId>>)
      requires Valid()
      ensures r.Success? <==> forall k :: 0 <= k < |names| ==> names[k] in stopIndex
      ensures r.Failure? ==> r.error == InvalidArgument(STOP_NOT_FOUND)
      ensures r.Success? ==> |r.value| == |names|
      ensures r.Success? ==> forall k :: 0 <= k < |names| ==> r.value[k] == stopIndex[names[k]]
    {
      var ids: seq<StopId> := [];
      for k := 0 to |names|
        invariant |ids| == k
        invariant forall i :: 0 <= i < k ==> names[i] in stopIndex && ids[i] == stopIndex[names[i]]
      {
        var stop := GetStop(names[k]);
        if stop.Failure? {
          return Failure(stop.error);
        }
        ids := ids + [stop.value];
      }
      return Success(ids);
    }

    /** The bus sets once `bus` is added to the set of each stop record in
        `ids`, found by the record's name. */
    method StopSetsWithBus(ids: seq<StopId>, names: seq<string>, bus: string) returns (sets: map<string, seq<string>>)
      requires Valid()
      requires |ids| == |names|
      requires forall k :: 0 <= k < |ids| ==> ids[k] < |stops| && stops[ids[k]].name == names[k]
      ensures sets == WithBus(stopBuses, names, bus)
    {
      sets := stopBuses;
      for k := 0 to |ids|
        invariant sets == WithBus(stopBuses, names[..k], bus)
      {
        var stopName := stops[ids[k]].name;
        assert names[..k + 1][..k] == names[..k];
        sets := sets[stopName := Insert(sets[stopName], bus)];
      }
      assert names[..|ids|] == names;
    }

    /** Resolves every stop name first; an unknown name fails before anything is
        changed. Otherwise appends the bus record, points the name at it and adds
        the bus name to the set of every stop it visits. */
    method AddBus(name: string, stopNames: seq<string>, isRound: bool) returns (r: Outcome)
      requires Valid()
      modifies this
      ensures Valid()
      ensures r.Pass? <==> forall k :: 0 <= k < |stopNames| ==> stopNames[k] in old(stopIndex)
      ensures r.Fail? ==> r.error == InvalidArgument(STOP_NOT_FOUND)
      ensures r.Fail? ==> buses == old(buses) && busIndex == old(busIndex) && stopBuses == old(stopBuses)
      ensures stops == old(stops) && stopIndex == old(stopIndex) && distances == old(distances)
      ensures r.Pass? ==>
        && |buses| == |old(buses)| + 1 && buses[..|old(buses)|] == old(buses)
        && buses[|old(buses)|].name == name && buses[|old(buses)|].isRound == isRound
        && |buses[|old(buses)|].stops| == |stopNames|
        && (forall k :: 0 <= k < |stopNames| ==> buses[|old(buses)|].stops[k] == stopIndex[stopNames[k]])
        && busIndex == old(busIndex)[name := |old(buses)|]
        && stopBuses == WithBus(old(stopBuses), stopNames, name)
    {
      var ids := ResolveStops(stopNames);
      if ids.Failure? {
        return Fail(ids.error);
      }
      var sets := StopSetsWithBus(ids.value, stopNames, name);
      AppendBus(Bus(name, ids.value, isRound), sets);
      return Pass;
    }

    /** Stores a bus record whose stops are all known, points its name at it and
        installs the updated stop bus sets. */
    method AppendBus(bus: Bus, sets: map<string, seq<string>>)
      requires Valid()
      requires forall k :: 0 <= k < |bus.stops| ==> bus.stops[k] < |stops|
      requires sets.Keys == stopIndex.Keys && forall n :: n in sets ==> StrictlySorted(sets[n])
      modifies this
      ensures Valid()
      ensures buses == old(buses) + [bus] && busIndex == old(busIndex)[bus.name := |old(buses)|]
      ensures stopBuses == sets
      ensures stops == old(stops) && stopIndex == old(stopIndex) && distances == old(distances)
    {
      buses := buses + [bus];
      busIndex := busIndex[bus.name := |buses| - 1];
      stopBuses := sets;
    }

    /** Stores the distance from `from` to `to`; only that ordered pair changes. */
    method AddDistance(from: string, to: string, distance: int) returns (r: Outcome)
      requires Valid()
      modifies this
      ensures Valid()
      ensures r.Pass? <==> from in stopIndex && to in stopIndex
      ensures r.Fail? ==> r.error == InvalidArgument(STOP_NOT_FOUND) && distances == old(distances)
      ensures r.Pass? ==> distances == old(distances)[(stopIndex[from], stopIndex[to]) := distance]
      ensures r.Pass? ==> GetDistance(from, to) == Success(distance)
      ensures stops == old(stops) && buses == old(buses) && stopIndex == old(stopIndex)
      ensures busIndex == old(busIndex) && stopBuses == old(stopBuses)
    {
      var a := GetStop(from);
      var b := GetStop(to);
      if a.Failure? {
        return Fail(a.error);
      }
      if b.Failure? {
        return Fail(b.error);
      }
      distances := distances[(a.value, b.value) := distance];
      return Pass;
    }

    /** The names of the buses through a stop, in sorted order; empty, not an
        error, for a stop no bus serves. */
    function GetBusesToStop(stopName: string): (r: Result<seq<string>>)
      reads this
      requires Valid()
      ensures r.Success? <==> stopName in stopIndex
      ensures r.Success? ==> StrictlySorted(r.value) && r.value == stopBuses[stopName]
      ensures r.Failure? ==> r.error == InvalidArgument(STOP_SET_NOT_FOUND)
    {
      if stopName !in stopBuses then Failure(InvalidArgument(STOP_SET_NOT_FOUND))
      else Success(stopBuses[stopName])
    }

    /** The number of stops a bus visits, repeats included. */
    function ComputeStopsCount(busName: string): (r: Result<int>)
      reads this
      requires Valid()
      ensures r.Success? <==> busName in busIndex
      ensures r.Success? ==> r.value == |buses[busIndex[busName]].stops|
      ensures r.Failure? ==> r.error == InvalidArgument(ROUTE_NOT_FOUND)
    {
      var bus :- GetBus(busName);
      Success(|buses[bus].stops|)
    }

    /** The number of distinct stop records a bus visits: never more than
        ComputeStopsCount, and at least one for a bus with stops. */
    function ComputeUniqueStopsCount(busName: string): (r: Result<int>)
      reads this
      requires Valid()
      ensures r.Success? <==> busName in busIndex
      ensures r.Success? ==> r.value == |Distinct(buses[busIndex[busName]].stops)|
      ensures r.Success? ==> r.value <= ComputeStopsCount(busName).value
      ensures r.Success? && ComputeStopsCount(busName).value > 0 ==> r.value >= 1
      ensures r.Failure? ==> r.error == InvalidArgument(ROUTE_NOT_FOUND)
    {
      var bus :- GetBus(busName);
      DistinctBounds(buses[bus].stops);
      Success(|Distinct(buses[bus].stops)|)
    }

    /** A distance is stored for the ordered pair or for its reverse. */
    predicate HasDistance(a: StopId, b: StopId)
      reads this
    {
      (a, b) in distances || (b, a) in distances
    }

    /** The distance between two named stops: the stored (from, to) entry, else
        the (to, from) entry, else an error. */
    function GetDistance(from: string, to: string): (r: Result<int>)
      reads this
      requires Valid()
      ensures from !in stopIndex ==> r == Failure(InvalidArgument(STOP_NOT_FOUND))
      ensures from in stopIndex && to !in stopIndex ==> r == Failure(InvalidArgument(STOP_NOT_FOUND))
      ensures from in stopIndex && to in stopIndex ==>
        var (a, b) := (stopIndex[from], stopIndex[to]);
        && (r.Success? <==> HasDistance(a, b))
        && ((a, b) in distances ==> r == Success(distances[(a, b)]))
        && ((a, b) !in distances && (b, a) in distances ==> r == Success(distances[(b, a)]))
        && (!HasDistance(a, b) ==> r == Failure(InvalidArgument(NO_DISTANCE)))
    {
      var a :- GetStop(from);
      var b :- GetStop(to);
      if (a, b) !in distances && (b, a) !in distances then Failure(InvalidArgument(NO_DISTANCE))
      else if (a, b) in distances then Success(distances[(a, b)])
      else Success(distances[(b, a)])
    }

    /** A distance stored in one direction only serves both directions. */
    lemma {:induction false} GetDistanceOneWay(from: string, to: string)
      requires Valid() && from in stopIndex && to in stopIndex
      requires (stopIndex[from], stopIndex[to]) in distances
      requires (stopIndex[to], stopIndex[from]) !in distances
      ensures GetDistance(to, from) == GetDistance(from, to) == Success(distances[(stopIndex[from], stopIndex[to])])
    {
    }

    /** The road length of a stop sequence: the sum of GetDistance over
        consecutive pairs, each looked up by the records' names. The first pair
        without a distance fails the whole sum. */
    function RouteLength(ids: seq<StopId>): (r: Result<int>)
      reads this
      requires Valid()
      requires forall k :: 0 <= k < |ids| ==> ids[k] < |stops|
    {
      if |ids| < 2 then Success(0)
      else
        var front :- RouteLength(ids[..|ids| - 1]);
        var d :- GetDistance(stops[ids[|ids| - 2]].name, stops[ids[|ids| - 1]].name);
        Success(front + d)
    }

    /** The pair at position k of `ids`, read as GetDistance reads it: through
        the records' names. */
    predicate HopHasDistance(ids: seq<StopId>, k: nat)
      reads this
      requires Valid()
      requires 1 <= k < |ids| && ids[k - 1] < |stops| && ids[k] < |stops|
    {
      HasDistance(stopIndex[stops[ids[k - 1]].name], stopIndex[stops[ids[k]].name])
    }

    /** The length fails exactly when some consecutive pair has no distance in
        either direction; a single stop has length 0. */
    lemma {:induction false} RouteLengthFails(ids: seq<StopId>)
      requires Valid()
      requires forall k :: 0 <= k < |ids| ==> ids[k] < |stops|
      ensures RouteLength(ids).Failure? <==> exists k :: 1 <= k < |ids| && !HopHasDistance(ids, k)
      ensures RouteLength(ids).Failure? ==> RouteLength(ids).error == InvalidArgument(NO_DISTANCE)
      ensures |ids| <= 1 ==> RouteLength(ids) == Success(0)
    {
      if |ids| >= 2 {
        var front := ids[..|ids| - 1];
        RouteLengthFails(front);
        forall k | 1 <= k < |front| ensures HopHasDistance(front, k) == HopHasDistance(ids, k) {
        }
        if !HopHasDistance(ids, |ids| - 1) {
          assert RouteLength(ids).Failure?;
        }
      }
    }

    /** Once a prefix of `ids` fails, the whole sequence fails the same way. */
    lemma {:induction false} RouteLengthPrefixFails(ids: seq<StopId>, k: nat)
      requires Valid()
      requires forall i :: 0 <= i < |ids| ==> ids[i] < |stops|
      requires k <= |ids| && RouteLength(ids[..k]).Failure?
      ensures RouteLength(ids) == RouteLength(ids[..k])
      decreases |ids|
    {
      if k < |ids| {
        var front := ids[..|ids| - 1];
        assert front[..k] == ids[..k];
        RouteLengthPrefixFails(front, k);
      } else {
        assert ids[..k] == ids;
      }
    }

    /** The road length of a bus, summed pair by pair along its stops. */
    method ComputeRouteLength(busName: string) returns (r: Result<int>)
      requires Valid()
      ensures busName !in busIndex ==> r == Failure(InvalidArgument(ROUTE_NOT_FOUND))
      ensures busName in busIndex ==> r == RouteLength(buses[busIndex[busName]].stops)
    {
      var bus := GetBus(busName);
      if bus.Failure? {
        return Failure(bus.error);
      }
      var ids := buses[bus.value].stops;
      var length := 0;
      if |ids| < 2 {
        return Success(0);
      }
      for k := 1 to |ids|
        invariant RouteLength(ids[..k]) == Success(length)
      {
        assert ids[..k + 1][..k] == ids[..k];
        var d := GetDistance(stops[ids[k - 1]].name, stops[ids[k]].name);
        if d.Failure? {
          RouteLengthPrefixFails(ids, k + 1);
          return Failure(d.error);
        }
        length := length + d.value;
      }
      assert ids[..|ids|] == ids;
      return Success(length);
    }

    /** `GetRoutes`: bus names with their records, in name order (`std::map`). */
    function GetRoutes(): (r: seq<(string, BusId)>)
      reads this
      requires Valid()
      ensures |r| == |busIndex|
      ensures StrictlySorted(RouteNames(r))
      ensures forall n :: n in busIndex <==> exists k :: 0 <= k < |r| && r[k].0 == n
      ensures forall k :: 0 <= k < |r| ==> r[k].0 in busIndex && r[k].1 == busIndex[r[k].0] && r[k].1 < |buses|
    {
      var names := SortSet(busIndex.Keys);
      SortSetSorted(busIndex.Keys);
      var index := busIndex;
      var r := seq(|names|, k requires 0 <= k < |names| => (names[k], index[names[k]]));
      assert RouteNames(r) == names;
      r
    }
  }
}
