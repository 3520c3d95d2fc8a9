/** The JSON front end (transport-catalogue/json_reader.cpp): it loads the
    queued base requests into the catalogue, builds the routing graph when a
    route is asked for, and answers the queued stat requests as one JSON array
    of dictionaries. The request queue is taken as already parsed. */
module Reader {
  import opened Wrappers
  import opened Strings
  import opened Ordered
  import opened Domain
  import opened Catalogue
  import opened Router
  import opened Json
  import opened JsonBuilder
  import Svg
  import MapRenderer

  // ---------------------------------------------------------------------
  // Bus stop lists

  /** A non-round request needs a stop: the source steps a reverse iterator
      one past the start of the list before walking it. */
  predicate Expandable(request: BusRequest) {
    request.isRound || request.stops != []
  }

  /** The stop names a bus request is stored with: a round trip as listed, any
      other bus there and back, turning at its last stop. */
  function ExpandStops(stops: seq<string>, isRound: bool): (r: seq<string>)
    requires isRound || stops != []
    ensures |r| == if isRound then |stops| else 2 * |stops| - 1
    ensures forall k :: 0 <= k < |r| ==> r[k] == stops[if k < |stops| then k else 2 * |stops| - 2 - k]
  {
    if isRound then stops
    else stops + Reverse(stops[..|stops| - 1])
  }

  /** A round trip keeps its list; any other bus is stored as the list followed
      by the list reversed without its last stop: 2n - 1 stops that read the
      same both ways, starting and ending at the first stop. */
  lemma {:induction false} ExpandStopsShape(stops: seq<string>, isRound: bool)
    requires isRound || stops != []
    ensures isRound ==> ExpandStops(stops, isRound) == stops
    ensures !isRound ==>
      var r := ExpandStops(stops, isRound);
      && |r| == 2 * |stops| - 1
      && r[..|stops|] == stops
      && Reverse(r) == r
      && r[0] == r[|r| - 1] == stops[0]
  {
    var r := ExpandStops(stops, isRound);
    if !isRound {
      ExpandedPalindrome(stops);
      assert r[..|stops|] == stops;
    }
  }

  lemma ExpandedPalindrome(stops: seq<string>)
    requires stops != []
    ensures Reverse(ExpandStops(stops, false)) == ExpandStops(stops, false)
  {
    var n := |stops|;
    var r := ExpandStops(stops, false);
    forall k | 0 <= k < |r|
      ensures Reverse(r)[k] == r[k]
    {
      assert Reverse(r)[k] == r[2 * n - 2 - k];
    }
  }

  /** What the reversing loop of ProcessingBusRequest leaves is the expanded list. */
  lemma {:induction false} ExpandedByLoop(given: seq<string>, isRound: bool, stops: seq<string>)
    requires isRound ==> stops == given
    requires !isRound ==> given != [] && |stops| == 2 * |given| - 1
    requires !isRound ==> forall i :: 0 <= i < |given| ==> stops[i] == given[i]
    requires !isRound ==> forall i :: |given| <= i < |stops| ==> stops[i] == given[2 * |given| - 2 - i]
    ensures stops == ExpandStops(given, isRound)
  {
    if !isRound {
      var expanded := ExpandStops(given, isRound);
      assert forall i :: |given| <= i < |expanded| ==> expanded[i] == given[2 * |given| - 2 - i];
    }
  }

  /** The expanded list names a stop only if the request does, and every stop
      the request names. */
  lemma {:induction false} ExpandedKnown(names: set<string>, request: BusRequest)
    requires Expandable(request)
    ensures var r := ExpandStops(request.stops, request.isRound);
      (forall k :: 0 <= k < |r| ==> r[k] in names) <==> BusKnown(names, request)
  {
    var r := ExpandStops(request.stops, request.isRound);
    var n := |request.stops|;
    if forall k :: 0 <= k < |r| ==> r[k] in names {
      forall k | 0 <= k < n
        ensures request.stops[k] in names
      {
        assert r[k] == request.stops[k];
      }
    }
  }

  lemma {:induction false} SnocParts<T>(s: seq<T>, m: nat)
    requires |s| == m + 1
    ensures s == s[..m] + [s[m]]
  {
  }

  /** The stop records of a name list. */
  function StopIds(index: map<string, StopId>, names: seq<string>): (r: seq<StopId>)
    requires forall k :: 0 <= k < |names| ==> names[k] in index
    ensures |r| == |names| && forall k :: 0 <= k < |names| ==> r[k] == index[names[k]]
  {
    seq(|names|, k requires 0 <= k < |names| => index[names[k]])
  }

  /** Every stop a bus request names is known. */
  predicate BusKnown(names: set<string>, request: BusRequest) {
    forall k :: 0 <= k < |request.stops| ==> request.stops[k] in names
  }

  /** The record a bus request is stored as, its stops resolved with `index`. */
  function BusRecord(index: map<string, StopId>, request: BusRequest): Bus
    requires Expandable(request) && BusKnown(index.Keys, request)
  {
    ExpandedKnown(index.Keys, request);
    Bus(request.name, StopIds(index, ExpandStops(request.stops, request.isRound)), request.isRound)
  }

  /** The stored record of a non-round bus reads the same both ways, so the
      graph builder's backward pass repeats its forward pass: every edge of
      such a bus is added twice. */
  lemma {:induction false} NonRoundEdgesTwice(settings: RouterSettings, distances: Distances, index: map<string, StopId>, request: BusRequest)
    requires settings.busVelocity > 0.0
    requires !request.isRound && |request.stops| >= 2 && BusKnown(index.Keys, request)
    ensures var bus := BusRecord(index, request);
      BusEdges(settings, distances, request.name, bus)
        == Forward(settings, distances, bus.stops, request.name) + Forward(settings, distances, bus.stops, request.name)
  {
    BusRecordPalindrome(index, request);
    PalindromeEdgesTwice(settings, distances, request.name, BusRecord(index, request));
  }

  lemma {:induction false} BusRecordPalindrome(index: map<string, StopId>, request: BusRequest)
    requires !request.isRound && request.stops != [] && BusKnown(index.Keys, request)
    ensures Reverse(BusRecord(index, request).stops) == BusRecord(index, request).stops
  {
    var names := ExpandStops(request.stops, false);
    ExpandStopsShape(request.stops, false);
    var ids := BusRecord(index, request).stops;
    forall k | 0 <= k < |ids|
      ensures Reverse(ids)[k] == ids[k]
    {
      assert Reverse(names)[k] == names[k];
    }
  }

  // ---------------------------------------------------------------------
  // Loading: what the catalogue holds once the requests are processed

  function StopRecord(request: StopRequest): Stop {
    Stop(request.name, Coordinates(request.lat, request.lng))
  }

  /** The stop records the requests add, in request order. */
  function StopRecords(reqs: seq<StopRequest>): (r: seq<Stop>)
    ensures |r| == |reqs| && forall k :: 0 <= k < |reqs| ==> r[k] == StopRecord(reqs[k])
  {
    seq(|reqs|, k requires 0 <= k < |reqs| => StopRecord(reqs[k]))
  }

  /** The stop name index once the requests' records are stored after `base`
      earlier ones. */
  function IndexStops(index: map<string, StopId>, base: nat, reqs: seq<StopRequest>): (r: map<string, StopId>)
    ensures index.Keys <= r.Keys && forall k :: 0 <= k < |reqs| ==> reqs[k].name in r
  {
    if reqs == [] then index
    else IndexStops(index, base, reqs[..|reqs| - 1])[reqs[|reqs| - 1].name := base + |reqs| - 1]
  }

  /** The stop bus sets once the requests' stops are stored: each of them
      starts with no bus. */
  function ClearSets(sets: map<string, seq<string>>, reqs: seq<StopRequest>): map<string, seq<string>>
  {
    if reqs == [] then sets
    else ClearSets(sets, reqs[..|reqs| - 1])[reqs[|reqs| - 1].name := []]
  }

  /** The names a list of stop requests declares. */
  function RequestNames(reqs: seq<StopRequest>): set<string> {
    set k | 0 <= k < |reqs| :: reqs[k].name
  }

  lemma {:induction false} RequestNamesSnoc(reqs: seq<StopRequest>)
    requires reqs != []
    ensures RequestNames(reqs) == RequestNames(reqs[..|reqs| - 1]) + {reqs[|reqs| - 1].name}
  {
    var front := reqs[..|reqs| - 1];
    forall k | 0 <= k < |reqs| - 1
      ensures reqs[k].name in RequestNames(front)
    {
      assert front[k] == reqs[k];
    }
    forall k | 0 <= k < |front|
      ensures front[k].name in RequestNames(reqs)
    {
      assert front[k] == reqs[k];
    }
  }

  /** Storing the stops adds exactly the requested names to the index and to
      the bus sets; a set is either empty or what it was. */
  lemma {:induction false} StoredKeys(index: map<string, StopId>, sets: map<string, seq<string>>, base: nat, reqs: seq<StopRequest>)
    ensures IndexStops(index, base, reqs).Keys == index.Keys + RequestNames(reqs)
    ensures ClearSets(sets, reqs).Keys == sets.Keys + RequestNames(reqs)
    ensures forall n :: n in ClearSets(sets, reqs) ==> ClearSets(sets, reqs)[n] == [] || (n in sets && ClearSets(sets, reqs)[n] == sets[n])
  {
    if reqs != [] {
      StoredKeys(index, sets, base, reqs[..|reqs| - 1]);
      RequestNamesSnoc(reqs);
    }
  }

  /** After loading, a known name that no request repeats keeps its record. */
  lemma {:induction false} IndexStopsKeeps(index: map<string, StopId>, base: nat, reqs: seq<StopRequest>)
    ensures forall n :: n in index && n !in RequestNames(reqs) ==> IndexStops(index, base, reqs)[n] == index[n]
  {
    if reqs != [] {
      IndexStopsKeeps(index, base, reqs[..|reqs| - 1]);
      RequestNamesSnoc(reqs);
    }
  }

  /** After loading, a requested name points at the record of the LAST request
      with that name. */
  lemma {:induction false} IndexStopsLatest(index: map<string, StopId>, base: nat, reqs: seq<StopRequest>, k: nat)
    requires k < |reqs|
    ensures var v := IndexStops(index, base, reqs)[reqs[k].name];
      && base + k <= v < base + |reqs|
      && reqs[v - base].name == reqs[k].name
      && forall j :: v - base < j < |reqs| ==> reqs[j].name != reqs[k].name
  {
    IndexStopsKeeps(index, base, reqs);
    var front := reqs[..|reqs| - 1];
    if k < |reqs| - 1 && reqs[k].name != reqs[|reqs| - 1].name {
      IndexStopsLatest(index, base, front, k);
      assert front[k] == reqs[k];
      var v := IndexStops(index, base, front)[reqs[k].name];
      assert front[v - base] == reqs[v - base];
      forall j | v - base < j < |reqs|
        ensures reqs[j].name != reqs[k].name
      {
        if j < |reqs| - 1 {
          assert front[j] == reqs[j];
        }
      }
    }
  }

  /** Every stop a request declares can be stored: the request's own stop, if
      it declares any distance, and every target are known. */
  predicate DistancesKnown(index: map<string, StopId>, request: StopRequest) {
    (request.dists != [] ==> request.name in index) && TargetsKnown(index, request.dists)
  }

  predicate TargetsKnown(index: map<string, StopId>, dists: seq<(string, int)>) {
    forall j :: 0 <= j < |dists| ==> dists[j].0 in index
  }

  predicate AllDistancesKnown(index: map<string, StopId>, reqs: seq<StopRequest>) {
    forall k :: 0 <= k < |reqs| ==> DistancesKnown(index, reqs[k])
  }

  lemma {:induction false} TargetsKnownSnoc(index: map<string, StopId>, dists: seq<(string, int)>, j: nat)
    requires j < |dists| && TargetsKnown(index, dists[..j]) && dists[j].0 in index
    ensures TargetsKnown(index, dists[..j + 1])
  {
    assert forall i :: 0 <= i <= j ==> dists[..j + 1][i] == dists[i];
    assert forall i :: 0 <= i < j ==> dists[..j][i] == dists[i];
  }

  /** The distance table once the distances from stop `name` are stored, in
      order. */
  function DistancesFrom(table: Distances, index: map<string, StopId>, name: string, dists: seq<(string, int)>): Distances
    requires dists != [] ==> name in index
    requires TargetsKnown(index, dists)
  {
    if dists == [] then table
    else
      var (to, d) := dists[|dists| - 1];
      DistancesFrom(table, index, name, dists[..|dists| - 1])[(index[name], index[to]) := d]
  }

  /** One more distance is stored over the table so far. */
  lemma DistancesFromSnoc(table: Distances, index: map<string, StopId>, name: string, dists: seq<(string, int)>, j: nat)
    requires j < |dists| && name in index && TargetsKnown(index, dists[..j]) && dists[j].0 in index
    ensures TargetsKnown(index, dists[..j + 1])
    ensures DistancesFrom(table, index, name, dists[..j + 1]) ==
      DistancesFrom(table, index, name, dists[..j])[(index[name], index[dists[j].0]) := dists[j].1]
  {
    TargetsKnownSnoc(index, dists, j);
    assert dists[..j + 1][..j] == dists[..j];
  }

  /** A distance whose stop or target is unknown makes the request's
      distances unknown. */
  lemma NotKnownAt(index: map<string, StopId>, request: StopRequest, j: nat)
    requires j < |request.dists| && !(request.name in index && request.dists[j].0 in index)
    ensures !DistancesKnown(index, request)
  {
  }

  /** The distance table once every request's distances are stored, request
      by request. */
  function Declared(table: Distances, index: map<string, StopId>, reqs: seq<StopRequest>): Distances
    requires AllDistancesKnown(index, reqs)
  {
    if reqs == [] then table
    else
      var request := reqs[|reqs| - 1];
      DistancesFrom(Declared(table, index, reqs[..|reqs| - 1]), index, request.name, request.dists)
  }

  /** Storing distances only adds or overwrites entries. */
  lemma {:induction false} DistancesFromGrows(table: Distances, index: map<string, StopId>, name: string, dists: seq<(string, int)>)
    requires dists != [] ==> name in index
    requires TargetsKnown(index, dists)
    ensures table.Keys <= DistancesFrom(table, index, name, dists).Keys
    ensures forall j :: 0 <= j < |dists| ==> (index[name], index[dists[j].0]) in DistancesFrom(table, index, name, dists)
  {
    if dists != [] {
      DistancesFromGrows(table, index, name, dists[..|dists| - 1]);
      assert forall j :: 0 <= j < |dists| - 1 ==> dists[..|dists| - 1][j] == dists[j];
    }
  }

  /** Every declared distance ends up in the table, under the records its
      names point at, and no earlier entry is dropped. */
  lemma {:induction false} DeclaredStored(table: Distances, index: map<string, StopId>, reqs: seq<StopRequest>)
    requires AllDistancesKnown(index, reqs)
    ensures table.Keys <= Declared(table, index, reqs).Keys
    ensures forall k, j :: 0 <= k < |reqs| && 0 <= j < |reqs[k].dists| ==>
      (index[reqs[k].name], index[reqs[k].dists[j].0]) in Declared(table, index, reqs)
  {
    if reqs != [] {
      var front := reqs[..|reqs| - 1];
      var request := reqs[|reqs| - 1];
      DeclaredStored(table, index, front);
      var before := Declared(table, index, front);
      DistancesFromGrows(before, index, request.name, request.dists);
      forall k, j | 0 <= k < |reqs| && 0 <= j < |reqs[k].dists|
        ensures (index[reqs[k].name], index[reqs[k].dists[j].0]) in Declared(table, index, reqs)
      {
        if k < |reqs| - 1 {
          assert front[k] == reqs[k];
        }
      }
    }
  }

  /** Every stop is stored before any distance: a distance to a stop whose
      request comes later in the list is known all the same. */
  lemma {:induction false} TargetsOfLaterRequestsKnown(index: map<string, StopId>, base: nat, reqs: seq<StopRequest>)
    requires forall k, j :: 0 <= k < |reqs| && 0 <= j < |reqs[k].dists| ==>
      reqs[k].dists[j].0 in index || exists i :: 0 <= i < |reqs| && reqs[i].name == reqs[k].dists[j].0
    ensures AllDistancesKnown(IndexStops(index, base, reqs), reqs)
  {
    IndexStopsKeeps(index, base, reqs);
    var loaded := IndexStops(index, base, reqs);
    forall k | 0 <= k < |reqs|
      ensures DistancesKnown(loaded, reqs[k])
    {
      assert reqs[k].name in RequestNames(reqs);
      forall j | 0 <= j < |reqs[k].dists|
        ensures reqs[k].dists[j].0 in loaded
      {
        if reqs[k].dists[j].0 !in index {
          var i :| 0 <= i < |reqs| && reqs[i].name == reqs[k].dists[j].0;
          assert reqs[i].name in RequestNames(reqs);
        }
      }
    }
  }

  predicate AllExpandable(reqs: seq<BusRequest>) {
    forall k :: 0 <= k < |reqs| ==> Expandable(reqs[k])
  }

  predicate AllBusesKnown(names: set<string>, reqs: seq<BusRequest>) {
    forall k :: 0 <= k < |reqs| ==> BusKnown(names, reqs[k])
  }

  /** The bus records the requests add, in request order. */
  function BusRecords(index: map<string, StopId>, reqs: seq<BusRequest>): (r: seq<Bus>)
    requires AllExpandable(reqs) && AllBusesKnown(index.Keys, reqs)
    ensures |r| == |reqs| && forall k :: 0 <= k < |reqs| ==> r[k] == BusRecord(index, reqs[k])
  {
    seq(|reqs|, k requires 0 <= k < |reqs| => BusRecord(index, reqs[k]))
  }

  // ---------------------------------------------------------------------
  // The three loading phases of UpdateCatalogue, on a snapshot of the catalogue

  /** What the catalogue stores. */
  datatype Tables = Tables(
    stops: seq<Stop>, stopIndex: map<string, StopId>, stopBuses: map<string, seq<string>>,
    distances: Distances, buses: seq<Bus>, busIndex: map<string, BusId>)

  ghost function TablesOf(c: TransportCatalogue): Tables
    reads c
  {
    Tables(c.stops, c.stopIndex, c.stopBuses, c.distances, c.buses, c.busIndex)
  }

  /** One sorted bus set per known stop name, as in every valid catalogue. */
  predicate SetsMatch(t: Tables) {
    t.stopBuses.Keys == t.stopIndex.Keys && forall n :: n in t.stopBuses ==> StrictlySorted(t.stopBuses[n])
  }

  /** Phase one: every stop request's record is stored. */
  function StopsLoaded(t: Tables, reqs: seq<StopRequest>): (r: Tables)
    ensures SetsMatch(t) ==> SetsMatch(r)
  {
    StoredKeys(t.stopIndex, t.stopBuses, |t.stops|, reqs);
    t.(stops := t.stops + StopRecords(reqs),
       stopIndex := IndexStops(t.stopIndex, |t.stops|, reqs),
       stopBuses := ClearSets(t.stopBuses, reqs))
  }

  /** Phase two: every declared distance is stored. */
  function DistancesLoaded(t: Tables, reqs: seq<StopRequest>): Tables
    requires AllDistancesKnown(t.stopIndex, reqs)
  {
    t.(distances := Declared(t.distances, t.stopIndex, reqs))
  }

  /** One bus request stored: its record appended, its name indexed, and the
      bus inserted into the set of every stop it visits. */
  ghost function BusAdded(t: Tables, request: BusRequest): (r: Tables)
    requires SetsMatch(t) && Expandable(request) && BusKnown(t.stopIndex.Keys, request)
    ensures SetsMatch(r) && r.stopIndex == t.stopIndex && r.stops == t.stops && r.distances == t.distances
  {
    var names := ExpandStops(request.stops, request.isRound);
    ExpandedKnown(t.stopIndex.Keys, request);
    t.(buses := t.buses + [BusRecord(t.stopIndex, request)],
       busIndex := t.busIndex[request.name := |t.buses|],
       stopBuses := WithBus(t.stopBuses, names, request.name))
  }

  /** Phase three: every bus is stored, in request order, its stops resolved
      by name. */
  ghost function BusesLoaded(t: Tables, reqs: seq<BusRequest>): (r: Tables)
    requires SetsMatch(t) && AllExpandable(reqs) && AllBusesKnown(t.stopIndex.Keys, reqs)
    ensures SetsMatch(r) && r.stopIndex == t.stopIndex && r.stops == t.stops && r.distances == t.distances
  {
    if reqs == [] then t
    else BusAdded(BusesLoaded(t, reqs[..|reqs| - 1]), reqs[|reqs| - 1])
  }

  /** The stored buses are the requests' records, appended in request order. */
  lemma {:induction false} BusesLoadedRecords(t: Tables, reqs: seq<BusRequest>)
    requires SetsMatch(t) && AllExpandable(reqs) && AllBusesKnown(t.stopIndex.Keys, reqs)
    ensures BusesLoaded(t, reqs).buses == t.buses + BusRecords(t.stopIndex, reqs)
  {
    if reqs != [] {
      var m := |reqs| - 1;
      BusRecordsSnoc(t.stopIndex, reqs, m);
      BusesLoadedRecords(t, reqs[..m]);
      var prev := BusesLoaded(t, reqs[..m]);
      assert BusesLoaded(t, reqs) == BusAdded(prev, reqs[m]);
      assert BusAdded(prev, reqs[m]).buses == prev.buses + [BusRecord(t.stopIndex, reqs[m])];
    }
  }

  lemma {:induction false} BusRecordsSnoc(index: map<string, StopId>, reqs: seq<BusRequest>, m: nat)
    requires |reqs| == m + 1 && AllExpandable(reqs) && AllBusesKnown(index.Keys, reqs)
    ensures AllExpandable(reqs[..m]) && AllBusesKnown(index.Keys, reqs[..m])
    ensures BusRecords(index, reqs) == BusRecords(index, reqs[..m]) + [BusRecord(index, reqs[m])]
  {
  }

  /** Loading succeeds: once every stop is stored, every declared distance and
      every bus names known stops only. */
  predicate Loadable(t: Tables, q: RequestQueue) {
    var stored := StopsLoaded(t, q.stopsRequests);
    AllDistancesKnown(stored.stopIndex, q.stopsRequests) && AllBusesKnown(stored.stopIndex.Keys, q.busesRequests)
  }

  /** The catalogue after UpdateCatalogue: all stops first, then all distances,
      then all buses, the last two resolved against the full stop index. */
  ghost function Loaded(t: Tables, q: RequestQueue): Tables
    requires SetsMatch(t) && AllExpandable(q.busesRequests) && Loadable(t, q)
  {
    var stored := StopsLoaded(t, q.stopsRequests);
    BusesLoaded(DistancesLoaded(stored, q.stopsRequests), q.busesRequests)
  }

  /** Every indexed bus can be fed to the graph builder: each hop it rides has
      a stored distance in some direction. */
  ghost predicate Resolvable(t: Tables) {
    forall n :: n in t.busIndex ==> t.busIndex[n] < |t.buses| && BusResolvable(t.buses[t.busIndex[n]], t.distances)
  }

  /** The demand the graph builder makes of the loaded catalogue. */
  ghost predicate Routable(t: Tables, q: RequestQueue)
    requires SetsMatch(t) && AllExpandable(q.busesRequests)
  {
    Loadable(t, q) ==> Resolvable(Loaded(t, q))
  }

  lemma {:induction false} StopsLoadedSnoc(t: Tables, reqs: seq<StopRequest>, k: nat)
    requires k < |reqs|
    ensures var before := StopsLoaded(t, reqs[..k]);
      StopsLoaded(t, reqs[..k + 1]) == before.(
        stops := before.stops + [StopRecord(reqs[k])],
        stopIndex := before.stopIndex[reqs[k].name := |before.stops|],
        stopBuses := before.stopBuses[reqs[k].name := []])
  {
    assert reqs[..k + 1][..k] == reqs[..k];
    assert StopRecords(reqs[..k + 1]) == StopRecords(reqs[..k]) + [StopRecord(reqs[k])];
  }

  lemma {:induction false} AllDistancesKnownSnoc(index: map<string, StopId>, reqs: seq<StopRequest>, k: nat)
    requires k < |reqs| && AllDistancesKnown(index, reqs[..k]) && DistancesKnown(index, reqs[k])
    ensures AllDistancesKnown(index, reqs[..k + 1])
  {
    assert forall i :: 0 <= i <= k ==> reqs[..k + 1][i] == reqs[i];
    assert forall i :: 0 <= i < k ==> reqs[..k][i] == reqs[i];
  }

  lemma {:induction false} DistancesLoadedSnoc(t: Tables, reqs: seq<StopRequest>, k: nat)
    requires k < |reqs| && AllDistancesKnown(t.stopIndex, reqs[..k + 1])
    ensures AllDistancesKnown(t.stopIndex, reqs[..k])
    ensures DistancesLoaded(t, reqs[..k + 1]).distances
      == DistancesFrom(DistancesLoaded(t, reqs[..k]).distances, t.stopIndex, reqs[k].name, reqs[k].dists)
  {
    assert reqs[..k + 1][..k] == reqs[..k];
    assert forall i :: 0 <= i < k ==> reqs[..k][i] == reqs[..k + 1][i];
  }

  lemma {:induction false} AllBusesKnownSnoc(names: set<string>, reqs: seq<BusRequest>, k: nat)
    requires k < |reqs| && AllBusesKnown(names, reqs[..k]) && BusKnown(names, reqs[k])
    ensures AllBusesKnown(names, reqs[..k + 1])
  {
    assert forall i :: 0 <= i <= k ==> reqs[..k + 1][i] == reqs[i];
    assert forall i :: 0 <= i < k ==> reqs[..k][i] == reqs[i];
  }

  lemma {:induction false} BusesLoadedSnoc(t: Tables, reqs: seq<BusRequest>, k: nat)
    requires SetsMatch(t) && k < |reqs| && AllExpandable(reqs) && AllBusesKnown(t.stopIndex.Keys, reqs[..k + 1])
    ensures AllExpandable(reqs[..k]) && AllBusesKnown(t.stopIndex.Keys, reqs[..k])
    ensures BusesLoaded(t, reqs[..k + 1]) == BusAdded(BusesLoaded(t, reqs[..k]), reqs[k])
  {
    assert reqs[..k + 1][..k] == reqs[..k];
    assert forall i :: 0 <= i < k ==> reqs[..k][i] == reqs[..k + 1][i];
  }

  /** Some queued output request asks for a route. */
  predicate AnyRoute(reqs: seq<OutputRequest>) {
    exists k :: 0 <= k < |reqs| && reqs[k].Route?
  }

  /** The flag loop of UpdateCatalogue. */
  method RouteRequested(reqs: seq<OutputRequest>) returns (isRoute: bool)
    ensures isRoute <==> AnyRoute(reqs)
  {
    isRoute := false;
    for k := 0 to |reqs|
      invariant isRoute <==> exists i :: 0 <= i < k && reqs[i].Route?
    {
      if reqs[k].Route? {
        isRoute := true;
      }
    }
  }

  const INVALID_ROUTER_SETTINGS := "Invalid value in router_settings"

  /** The bounds `ParseRoutingSettings` enforces. */
  predicate SettingsInRange(settings: RouterSettings) {
    1 <= settings.busWaitTime <= 1000 && 1.0 <= settings.busVelocity <= 1000.0
  }

  /** Reads `routing_settings`: a Dict whose `bus_wait_time` is an int and
      whose `bus_velocity` is a number, both in [1, 1000]. A value out of range
      is a logic_error; a missing key or a value of the wrong kind fails as
      `.at` and the accessors do. The narrowing of the wait time to 16 bits
      changes nothing once it is in range. */
  function ReadRoutingSettings(node: Node): (r: Result<RouterSettings>)
    ensures r.Success? ==> SettingsInRange(r.value)
    ensures r.Success? ==>
      && node.Dict? && "bus_wait_time" in node.entries && "bus_velocity" in node.entries
      && node.entries["bus_wait_time"] == Int(r.value.busWaitTime)
      && AsDouble(node.entries["bus_velocity"]) == Success(r.value.busVelocity)
    ensures (&& node.Dict? && "bus_wait_time" in node.entries && "bus_velocity" in node.entries
             && node.entries["bus_wait_time"].Int? && IsDouble(node.entries["bus_velocity"])) ==>
      var wait := node.entries["bus_wait_time"].i;
      var velocity := AsDouble(node.entries["bus_velocity"]).value;
      (r.Success? <==> 1 <= wait <= 1000 && 1.0 <= velocity <= 1000.0)
      && (r.Failure? ==> r.error == LogicError(INVALID_ROUTER_SETTINGS))
    ensures !node.Dict? ==> r == Failure(LogicError(BAD_VARIANT))
    ensures node.Dict? && "bus_wait_time" !in node.entries ==> r == Failure(OutOfRange)
  {
    var request :- AsMap(node);
    var waitNode :- At(request, "bus_wait_time");
    var wait := AsInt(waitNode);
    if wait.Failure? then Failure(wait.error)
    else
      var velocityNode :- At(request, "bus_velocity");
      var velocity :- AsDouble(velocityNode);
      if wait.value < 1 || wait.value > 1000 || velocity < 1.0 || velocity > 1000.0 then
        Failure(LogicError(INVALID_ROUTER_SETTINGS))
      else
        Success(RouterSettings(wait.value, velocity))
  }

  // ---------------------------------------------------------------------
  // Answers: each stat request is answered by one Dict, written field by field

  const NOT_FOUND := "not found"

  /** Fields with pairwise distinct keys are accepted by the builder: no key
      repeats within the Dict. */
  lemma {:induction false} KeysDistinct(fields: seq<Field>)
    requires forall i, j :: 0 <= i < j < |fields| ==> fields[i].key != fields[j].key
    ensures NewKeys(FieldKeys(fields), {})
  {
    DistinctKeysAreNew(FieldKeys(fields), {});
  }

  /** A field written with one `Key` and one `Value` call. */
  function Plain(key: string, value: Node): Field {
    Field(key, value, false)
  }

  /** The answer to a request whose stop, bus or route is unknown. */
  function NotFoundAnswer(id: Int32): (r: seq<Field>)
    ensures NewKeys(FieldKeys(r), {})
  {
    var r := [Plain("request_id", Int(id)), Plain("error_message", Str(NOT_FOUND))];
    KeysDistinct(r);
    r
  }

  function Strs(names: seq<string>): (r: seq<Node>)
    ensures |r| == |names| && forall k :: 0 <= k < |names| ==> r[k] == Str(names[k])
  {
    seq(|names|, k requires 0 <= k < |names| => Str(names[k]))
  }

  /** A stop's answer: the buses through it, written one `Value` at a time
      inside `StartArray`/`EndArray`, then the request id. */
  function StopAnswer(id: Int32, buses: seq<string>): (r: seq<Field>)
    ensures NewKeys(FieldKeys(r), {})
  {
    var r := [Field("buses", Array(Strs(buses)), true), Plain("request_id", Int(id))];
    KeysDistinct(r);
    r
  }

  /** A bus's answer. The route length is an `int` sum returned as a double;
      the stop counts are container sizes cast to `int`. */
  function BusAnswer(id: Int32, curvature: real, length: int, stopCount: int, uniqueCount: int): (r: seq<Field>)
    ensures NewKeys(FieldKeys(r), {})
  {
    var r := [Plain("curvature", Double(curvature)), Plain("request_id", Int(id)),
      Plain("route_length", Double(length as real)), Plain("stop_count", Int(ToInt32(stopCount))),
      Plain("unique_stop_count", Int(ToInt32(uniqueCount)))];
    KeysDistinct(r);
    r
  }

  /** The map's answer: the rendered SVG text, then the request id. */
  function MapAnswer(id: Int32, mapText: string): (r: seq<Field>)
    ensures NewKeys(FieldKeys(r), {})
  {
    var r := [Plain("map", Str(mapText)), Plain("request_id", Int(id))];
    KeysDistinct(r);
    r
  }

  /** What the Map branch takes from `render_settings`: the palette, the
      projection of a stop's coordinates onto the canvas and the line width,
      and `text`, the SVG text of a document's shapes (the projector and
      `Document::Render` are not part of this model). */
  datatype MapSettings = MapSettings(palette: seq<Svg.Color>, proj: Coordinates -> Svg.Point, lineWidth: real,
                                     text: seq<Svg.Shape> -> string)

  /** The text of the map RenderMap draws for the catalogue's routes, or the
      exception it throws: `GetColor` on an empty palette throws out_of_range
      as soon as a bus with stops is drawn. */
  function RenderedMap(c: TransportCatalogue, settings: MapSettings): (r: Result<string>)
    reads c
    requires c.Valid()
    ensures r.Failure? <==> |settings.palette| == 0 && MapRenderer.SomeBusHasStops(c)
    ensures r.Failure? ==> r.error == OutOfRange
  {
    var routes := MapRenderer.CatalogueRoutes(c);
    MapRenderer.CatalogueDrawn(c);
    if |settings.palette| == 0 then
      if MapRenderer.Drawn(routes) != [] then Failure(OutOfRange) else Success(settings.text([]))
    else
      Success(settings.text(MapRenderer.MapShapes(routes, settings.palette, settings.proj, settings.lineWidth)))
  }

  /** The answer to a stat request, as ComputeStatRequest writes it; None for
      a request type it does not know, which writes nothing. Stop and Bus
      lookups that throw `invalid_argument` are answered "not found": an
      unknown stop, an unknown bus, or a bus with a hop that has no distance
      (the curvature is computed first, and it sums the road length). A Map
      request is answered with the `rendered` map; of the exceptions
      rendering throws only `invalid_argument` is caught, any other one
      escapes. */
  function StatAnswer(c: TransportCatalogue, request: StatRequest, curvature: real, rendered: Result<string>)
    : (r: Result<Option<seq<Field>>>)
    reads c
    requires c.Valid()
    ensures r.Failure? <==> request.kind == "Map" && rendered.Failure? && !rendered.error.InvalidArgument?
    ensures r.Failure? ==> r.error == rendered.error
    ensures r.Success? ==> (r.value.None? <==> request.kind != "Stop" && request.kind != "Bus" && request.kind != "Map")
    ensures r.Success? && r.value.Some? ==> NewKeys(FieldKeys(r.value.value), {})
    ensures request.kind == "Stop" ==>
      r == Success(Some(if request.name in c.stopIndex then StopAnswer(request.id, c.stopBuses[request.name]) else NotFoundAnswer(request.id)))
    ensures request.kind == "Bus" ==>
      (r == Success(Some(NotFoundAnswer(request.id))) <==>
        request.name !in c.busIndex || c.RouteLength(c.buses[c.busIndex[request.name]].stops).Failure?)
    ensures request.kind == "Bus" && request.name in c.busIndex ==>
      var bus := c.buses[c.busIndex[request.name]];
      var length := c.RouteLength(bus.stops);
      length.Success? ==>
        r == Success(Some(BusAnswer(request.id, curvature, length.value, |bus.stops|, |Distinct(bus.stops)|)))
    ensures request.kind == "Map" && rendered.Success? ==> r == Success(Some(MapAnswer(request.id, rendered.value)))
    ensures request.kind == "Map" && rendered.Failure? && rendered.error.InvalidArgument? ==>
      r == Success(Some(NotFoundAnswer(request.id)))
  {
    if request.kind == "Stop" then
      var buses := c.GetBusesToStop(request.name);
      Success(Some(if buses.Failure? then NotFoundAnswer(request.id) else StopAnswer(request.id, buses.value)))
    else if request.kind == "Bus" then
      var bus := c.GetBus(request.name);
      if bus.Failure? then Success(Some(NotFoundAnswer(request.id)))
      else
        var length := c.RouteLength(c.buses[bus.value].stops);
        if length.Failure? then Success(Some(NotFoundAnswer(request.id)))
        else
          Success(Some(BusAnswer(request.id, curvature, length.value,
            c.ComputeStopsCount(request.name).value, c.ComputeUniqueStopsCount(request.name).value)))
    else if request.kind == "Map" then
      match rendered
      case Success(text) => Success(Some(MapAnswer(request.id, text)))
      case Failure(e) => if e.InvalidArgument? then Success(Some(NotFoundAnswer(request.id))) else Failure(e)
    else
      Success(None)
  }

  /** What the router returns for a pair of vertices: the total weight and
      the edges taken, as indices into the graph's edge list. */
  datatype RouteInfo = RouteInfo(weight: real, edges: seq<nat>)

  /** The two items of one edge of a route: waiting at the edge's first stop,
      then riding its bus. */
  function WaitFields(wait: nat, stopName: string): seq<Field> {
    [Plain("time", Int(ToInt32(wait))), Plain("type", Str("Wait")), Plain("stop_name", Str(stopName))]
  }

  function RideFields(edge: Edge, wait: nat): seq<Field> {
    [Plain("time", Double(edge.weight - wait as real)), Plain("span_count", Int(ToInt32(edge.spanCount))),
     Plain("bus", Str(edge.busName)), Plain("type", Str("Bus"))]
  }

  /** The Dicts those fields build. */
  function WaitItem(wait: nat, stopName: string): Node {
    Dict(map["time" := Int(ToInt32(wait)), "type" := Str("Wait"), "stop_name" := Str(stopName)])
  }

  function RideItem(edge: Edge, wait: nat): Node {
    Dict(map["time" := Double(edge.weight - wait as real), "span_count" := Int(ToInt32(edge.spanCount)),
             "bus" := Str(edge.busName), "type" := Str("Bus")])
  }

  /** Each item is built by its own Builder: `StartDict`, the fields, `EndDict`,
      `Build`; the keys are distinct, so the Dict holds every field. */
  lemma {:induction false} WaitBuilt(wait: nat, stopName: string)
    ensures Run(START, DictCalls(WaitFields(wait, stopName))).Success?
    ensures Built(Run(START, DictCalls(WaitFields(wait, stopName))).value) == Success(WaitItem(wait, stopName))
  {
    var f := WaitFields(wait, stopName);
    KeysDistinct(f);
    BuildFields(f);
    WaitDict(wait, stopName);
  }

  lemma {:induction false} WaitDict(wait: nat, stopName: string)
    ensures FieldDict(WaitFields(wait, stopName)) == WaitItem(wait, stopName)
  {
    var f := WaitFields(wait, stopName);
    assert FieldMap(f[2..]) == map[f[2].key := f[2].value] by {
      assert f[2..][1..] == [];
    }
    assert FieldMap(f[1..]) == FieldMap(f[2..])[f[1].key := f[1].value] by {
      assert f[1..][1..] == f[2..];
    }
    var m := FieldMap(f);
    var e := WaitItem(wait, stopName).entries;
    assert m == FieldMap(f[1..])[f[0].key := f[0].value];
    assert m.Keys == e.Keys;
    assert forall k :: k in m ==> m[k] == e[k];
    assert m == e;
  }

  lemma {:induction false} RideBuilt(edge: Edge, wait: nat)
    ensures Run(START, DictCalls(RideFields(edge, wait))).Success?
    ensures Built(Run(START, DictCalls(RideFields(edge, wait))).value) == Success(RideItem(edge, wait))
  {
    var f := RideFields(edge, wait);
    KeysDistinct(f);
    BuildFields(f);
    RideDict(edge, wait);
  }

  lemma {:induction false} RideDict(edge: Edge, wait: nat)
    ensures FieldDict(RideFields(edge, wait)) == RideItem(edge, wait)
  {
    var f := RideFields(edge, wait);
    RideTail(edge, wait);
    var m := FieldMap(f);
    var e := RideItem(edge, wait).entries;
    assert m == FieldMap(f[1..])[f[0].key := f[0].value];
    assert m.Keys == e.Keys;
    assert forall k :: k in m ==> m[k] == e[k];
    assert m == e;
  }

  lemma RideTail(edge: Edge, wait: nat)
    ensures var f := RideFields(edge, wait);
      FieldMap(f[1..]) == map[f[3].key := f[3].value][f[2].key := f[2].value][f[1].key := f[1].value]
  {
    var f := RideFields(edge, wait);
    assert FieldMap(f[3..]) == map[f[3].key := f[3].value] by {
      assert f[3..][1..] == [];
    }
    assert FieldMap(f[2..]) == FieldMap(f[3..])[f[2].key := f[2].value] by {
      assert f[2..][1..] == f[3..];
    }
    assert f[1..][1..] == f[2..];
  }

  /** The route items of a list of edge ids, two per edge; `GetEdge` and the
      stop lookup `at(edge.from)` throw `out_of_range` for an id past the end. */
  function RouteItems(stops: seq<Stop>, edges: seq<Edge>, wait: nat, ids: seq<nat>): Result<seq<Node>>
  {
    if ids == [] then Success([])
    else
      var front :- RouteItems(stops, edges, wait, ids[..|ids| - 1]);
      var id := ids[|ids| - 1];
      if id >= |edges| || edges[id].from >= |stops| then Failure(OutOfRange)
      else
        var edge := edges[id];
        Success(front + [WaitItem(wait, stops[edge.from].name), RideItem(edge, wait)])
  }

  /** Every edge id of a route names an edge, and every such edge leaves from
      a stored stop. */
  predicate EdgesKnown(stops: seq<Stop>, edges: seq<Edge>, ids: seq<nat>) {
    forall k :: 0 <= k < |ids| ==> ids[k] < |edges| && edges[ids[k]].from < |stops|
  }

  /** The route items exist exactly when every edge id resolves. */
  lemma {:induction false} RouteItemsKnown(stops: seq<Stop>, edges: seq<Edge>, wait: nat, ids: seq<nat>)
    ensures RouteItems(stops, edges, wait, ids).Success? <==> EdgesKnown(stops, edges, ids)
    ensures RouteItems(stops, edges, wait, ids).Failure? ==> RouteItems(stops, edges, wait, ids).error == OutOfRange
  {
    if ids != [] {
      var m := |ids| - 1;
      var front := ids[..m];
      RouteItemsKnown(stops, edges, wait, front);
      assert forall k :: 0 <= k < m ==> front[k] == ids[k];
      if !EdgesKnown(stops, edges, front) {
        var k :| 0 <= k < m && !(front[k] < |edges| && edges[front[k]].from < |stops|);
        assert !(ids[k] < |edges| && edges[ids[k]].from < |stops|);
      }
    }
  }

  /** Two items per edge, in route order: the wait at the edge's first stop,
      then the ride. */
  lemma {:induction false} RouteItemsPairs(stops: seq<Stop>, edges: seq<Edge>, wait: nat, ids: seq<nat>)
    requires EdgesKnown(stops, edges, ids)
    ensures RouteItems(stops, edges, wait, ids).Success?
    ensures
      var items := RouteItems(stops, edges, wait, ids).value;
      && |items| == 2 * |ids|
      && forall k :: 0 <= k < |ids| ==>
           && items[2 * k] == WaitItem(wait, stops[edges[ids[k]].from].name)
           && items[2 * k + 1] == RideItem(edges[ids[k]], wait)
  {
    RouteItemsKnown(stops, edges, wait, ids);
    if ids != [] {
      var m := |ids| - 1;
      var front := ids[..m];
      assert forall k :: 0 <= k < m ==> front[k] == ids[k];
      RouteItemsPairs(stops, edges, wait, front);
      var before := RouteItems(stops, edges, wait, front).value;
      var items := RouteItems(stops, edges, wait, ids).value;
      assert items == before + [WaitItem(wait, stops[edges[ids[m]].from].name), RideItem(edges[ids[m]], wait)];
      forall k | 0 <= k < m
        ensures items[2 * k] == before[2 * k] && items[2 * k + 1] == before[2 * k + 1]
      {
      }
    }
  }

  /** The `time` an item carries, as a number. */
  function TimeOf(item: Node): real {
    if item.Dict? && "time" in item.entries then
      match item.entries["time"]
      case Int(i) => i as real
      case Double(d) => d
      case _ => 0.0
    else 0.0
  }

  function TotalTime(items: seq<Node>): real {
    if items == [] then 0.0 else TotalTime(items[..|items| - 1]) + TimeOf(items[|items| - 1])
  }

  /** The summed weight of the edges a route takes. */
  function EdgesWeight(edges: seq<Edge>, ids: seq<nat>): real
    requires forall k :: 0 <= k < |ids| ==> ids[k] < |edges|
  {
    if ids == [] then 0.0 else EdgesWeight(edges, ids[..|ids| - 1]) + edges[ids[|ids| - 1]].weight
  }

  /** Each edge's wait and ride times add up to its weight, so the items'
      times add up to the weight of the edges taken; the answer's
      `total_time`, the router's weight, is that sum when the router reports
      the sum of its edges. */
  lemma {:induction false} RouteItemsTime(stops: seq<Stop>, edges: seq<Edge>, wait: nat, ids: seq<nat>)
    requires wait <= INT_MAX && EdgesKnown(stops, edges, ids)
    ensures RouteItems(stops, edges, wait, ids).Success?
    ensures TotalTime(RouteItems(stops, edges, wait, ids).value) == EdgesWeight(edges, ids)
  {
    RouteItemsKnown(stops, edges, wait, ids);
    if ids != [] {
      var m := |ids| - 1;
      var front := ids[..m];
      assert EdgesKnown(stops, edges, front) by {
        assert forall k :: 0 <= k < m ==> front[k] == ids[k];
      }
      RouteItemsTime(stops, edges, wait, front);
      var before := RouteItems(stops, edges, wait, front).value;
      var edge := edges[ids[m]];
      TotalTimePair(before, WaitItem(wait, stops[edge.from].name), RideItem(edge, wait));
      PairTime(edge, wait, stops[edge.from].name);
    }
  }

  /** Two more items add their two times. */
  lemma TotalTimePair(before: seq<Node>, w: Node, b: Node)
    ensures TotalTime(before + [w, b]) == TotalTime(before) + TimeOf(w) + TimeOf(b)
  {
    var items := before + [w, b];
    assert items[..|items| - 1] == before + [w];
    assert (before + [w])[..|before|] == before;
  }

  /** An edge's wait and ride items take its weight between them. */
  lemma PairTime(edge: Edge, wait: nat, stopName: string)
    requires wait <= INT_MAX
    ensures TimeOf(WaitItem(wait, stopName)) + TimeOf(RideItem(edge, wait)) == edge.weight
  {
    assert TimeOf(WaitItem(wait, stopName)) == wait as real;
    assert TimeOf(RideItem(edge, wait)) == edge.weight - wait as real;
  }

  /** The answer to a route between two distinct stops the router connects. */
  function FoundRouteAnswer(id: Int32, weight: real, items: seq<Node>): (r: seq<Field>)
    ensures NewKeys(FieldKeys(r), {})
  {
    var r := [Plain("total_time", Double(weight)), Plain("request_id", Int(id)), Plain("items", Array(items))];
    KeysDistinct(r);
    r
  }

  /** The answer to a route from a stop to itself: no time, no items. */
  function SameStopsAnswer(id: Int32): (r: seq<Field>)
    ensures NewKeys(FieldKeys(r), {})
  {
    var r := [Plain("total_time", Int(0)), Plain("request_id", Int(id)), Field("items", Array([]), true)];
    KeysDistinct(r);
    r
  }

  /** The answer to a route request, as ComputeRouteRequest writes it. Both
      stops are looked up first, and an unknown one throws out of the whole
      computation; `route` stands for the router built over the graph. */
  function RouteAnswer(index: map<string, StopId>, stops: seq<Stop>, edges: seq<Edge>, wait: nat,
                       request: RouteRequest, route: (StopId, StopId) -> Option<RouteInfo>): (r: Result<seq<Field>>)
    ensures r.Success? ==> NewKeys(FieldKeys(r.value), {})
    ensures request.from !in index || request.to !in index ==> r == Failure(InvalidArgument(STOP_NOT_FOUND))
    ensures request.from in index && request.to in index && index[request.from] == index[request.to] ==>
      r == Success(SameStopsAnswer(request.id))
    ensures request.from in index && request.to in index && index[request.from] != index[request.to] ==>
      var found := route(index[request.from], index[request.to]);
      && (found.None? ==> r == Success(NotFoundAnswer(request.id)))
      && (found.Some? ==> (r.Success? <==> RouteItems(stops, edges, wait, found.value.edges).Success?))
      && (found.Some? && r.Success? ==>
            r.value == FoundRouteAnswer(request.id, found.value.weight, RouteItems(stops, edges, wait, found.value.edges).value))
  {
    if request.from !in index || request.to !in index then Failure(InvalidArgument(STOP_NOT_FOUND))
    else
      var a, b := index[request.from], index[request.to];
      if a == b then Success(SameStopsAnswer(request.id))
      else
        match route(a, b)
        case None => Success(NotFoundAnswer(request.id))
        case Some(info) =>
          var items :- RouteItems(stops, edges, wait, info.edges);
          Success(FoundRouteAnswer(request.id, info.weight, items))
  }

  /** The answer to one queued output request: Stop and Bus requests never
      fail, a Map request fails when rendering throws other than
      `invalid_argument`, and route requests fail when a stop is unknown or an
      edge id does not resolve. */
  function Answer(c: TransportCatalogue, request: OutputRequest, curvature: string -> real, rendered: Result<string>,
                  edges: seq<Edge>, wait: nat, route: (StopId, StopId) -> Option<RouteInfo>): (r: Result<Option<seq<Field>>>)
    reads c
    requires c.Valid()
    ensures r.Success? && r.value.Some? ==> NewKeys(FieldKeys(r.value.value), {})
    ensures request.Stat? ==> r == StatAnswer(c, request.stat, curvature(request.stat.name), rendered)
    ensures request.Stat? && request.stat.kind != "Map" ==> r.Success?
    ensures request.Route? ==> r.Success? == RouteAnswer(c.stopIndex, c.stops, edges, wait, request.route, route).Success?
  {
    match request
    case Stat(stat) => StatAnswer(c, stat, curvature(stat.name), rendered)
    case Route(req) =>
      var fields :- RouteAnswer(c.stopIndex, c.stops, edges, wait, req, route);
      Success(Some(fields))
  }

  /** The answers to the queued requests, in order; the first failure ends
      the computation. */
  function Answers(c: TransportCatalogue, reqs: seq<OutputRequest>, curvature: string -> real, rendered: Result<string>,
                   edges: seq<Edge>, wait: nat, route: (StopId, StopId) -> Option<RouteInfo>): (r: Result<seq<seq<Field>>>)
    reads c
    requires c.Valid()
    ensures r.Success? ==> DistinctFields(r.value) && |r.value| <= |reqs|
  {
    if reqs == [] then Success([])
    else
      var front :- Answers(c, reqs[..|reqs| - 1], curvature, rendered, edges, wait, route);
      var answer :- Answer(c, reqs[|reqs| - 1], curvature, rendered, edges, wait, route);
      if answer.None? then Success(front)
      else
        var all := front + [answer.value];
        assert all[..|all| - 1] == front;
        Success(all)
  }

  /** One more request: its answer is appended to the answers so far, unless
      it has none or either fails. */
  lemma AnswersSnoc(c: TransportCatalogue, reqs: seq<OutputRequest>, k: nat, curvature: string -> real,
                    rendered: Result<string>, edges: seq<Edge>, wait: nat, route: (StopId, StopId) -> Option<RouteInfo>)
    requires c.Valid() && k < |reqs|
    ensures
      var front := Answers(c, reqs[..k], curvature, rendered, edges, wait, route);
      var answer := Answer(c, reqs[k], curvature, rendered, edges, wait, route);
      Answers(c, reqs[..k + 1], curvature, rendered, edges, wait, route) ==
        if front.Failure? then front
        else if answer.Failure? then Failure(answer.error)
        else if answer.value.None? then front
        else Success(front.value + [answer.value.value])
  {
    assert reqs[..k + 1][..k] == reqs[..k];
  }

  /** One step of the answering loop: after the answers to the first `k`
      requests, the `k`-th request's failure is the whole queue's, and its
      answer otherwise extends the answers so far. */
  lemma {:induction false} AnswersStep(c: TransportCatalogue, reqs: seq<OutputRequest>, k: nat, curvature: string -> real,
                                       rendered: Result<string>, edges: seq<Edge>, wait: nat,
                                       route: (StopId, StopId) -> Option<RouteInfo>, answers: seq<seq<Field>>)
    requires c.Valid() && k < |reqs|
    requires Answers(c, reqs[..k], curvature, rendered, edges, wait, route) == Success(answers)
    ensures
      var answer := Answer(c, reqs[k], curvature, rendered, edges, wait, route);
      && (answer.Failure? ==> Answers(c, reqs, curvature, rendered, edges, wait, route) == Failure(answer.error))
      && (answer.Success? ==>
            Answers(c, reqs[..k + 1], curvature, rendered, edges, wait, route) ==
            Success(if answer.value.Some? then answers + [answer.value.value] else answers))
  {
    AnswersSnoc(c, reqs, k, curvature, rendered, edges, wait, route);
    if Answer(c, reqs[k], curvature, rendered, edges, wait, route).Failure? {
      AnswersFailureFinal(c, reqs, k + 1, curvature, rendered, edges, wait, route);
    }
  }

  /** The first failure is final: once the answers to a prefix fail, the
      answers to the whole queue fail with the same error. */
  lemma {:induction false} AnswersFailureFinal(c: TransportCatalogue, reqs: seq<OutputRequest>, n: nat, curvature: string -> real,
                                               rendered: Result<string>, edges: seq<Edge>, wait: nat, route: (StopId, StopId) -> Option<RouteInfo>)
    requires c.Valid() && n <= |reqs|
    requires Answers(c, reqs[..n], curvature, rendered, edges, wait, route).Failure?
    ensures Answers(c, reqs, curvature, rendered, edges, wait, route) == Answers(c, reqs[..n], curvature, rendered, edges, wait, route)
    decreases |reqs|
  {
    if n < |reqs| {
      var m := |reqs| - 1;
      assert reqs[..m][..n] == reqs[..n];
      AnswersFailureFinal(c, reqs[..m], n, curvature, rendered, edges, wait, route);
      AnswersSnoc(c, reqs, m, curvature, rendered, edges, wait, route);
      assert reqs[..m + 1] == reqs;
    } else {
      assert reqs[..n] == reqs;
    }
  }

  /** Without route requests, and with a map that renders or none asked for,
      nothing can fail, and every request of a known type is answered once. */
  lemma {:induction false} StatsAnswered(c: TransportCatalogue, reqs: seq<OutputRequest>, curvature: string -> real,
                                         rendered: Result<string>, edges: seq<Edge>, wait: nat,
                                         route: (StopId, StopId) -> Option<RouteInfo>)
    requires c.Valid() && !AnyRoute(reqs)
    requires forall k :: 0 <= k < |reqs| ==> reqs[k].stat.kind in {"Stop", "Bus", "Map"}
    requires rendered.Success? || rendered.error.InvalidArgument? || !AnyMap(reqs)
    ensures Answers(c, reqs, curvature, rendered, edges, wait, route).Success?
    ensures |Answers(c, reqs, curvature, rendered, edges, wait, route).value| == |reqs|
  {
    if reqs != [] {
      var m := |reqs| - 1;
      assert forall k :: 0 <= k < m ==> reqs[..m][k] == reqs[k];
      StatsAnswered(c, reqs[..m], curvature, rendered, edges, wait, route);
    }
  }

  /** Some queued request is a Map request. */
  predicate AnyMap(reqs: seq<OutputRequest>) {
    exists k :: 0 <= k < |reqs| && reqs[k].Stat? && reqs[k].stat.kind == "Map"
  }

  /** A stat-only queue that asks for a map that cannot be rendered fails with
      rendering's exception, which nothing catches. */
  lemma {:induction false} StatsMapFails(c: TransportCatalogue, reqs: seq<OutputRequest>, curvature: string -> real,
                                         rendered: Result<string>, edges: seq<Edge>, wait: nat,
                                         route: (StopId, StopId) -> Option<RouteInfo>)
    requires c.Valid() && !AnyRoute(reqs)
    requires forall k :: 0 <= k < |reqs| ==> reqs[k].stat.kind in {"Stop", "Bus", "Map"}
    requires rendered.Failure? && !rendered.error.InvalidArgument? && AnyMap(reqs)
    ensures Answers(c, reqs, curvature, rendered, edges, wait, route) == Failure(rendered.error)
  {
    var m := |reqs| - 1;
    var front := reqs[..m];
    assert forall k :: 0 <= k < m ==> front[k] == reqs[k];
    AnswersSnoc(c, reqs, m, curvature, rendered, edges, wait, route);
    assert reqs[..m + 1] == reqs;
    if AnyMap(front) {
      StatsMapFails(c, front, curvature, rendered, edges, wait, route);
    } else {
      StatsAnswered(c, front, curvature, rendered, edges, wait, route);
      var k :| 0 <= k < |reqs| && reqs[k].Stat? && reqs[k].stat.kind == "Map";
      assert k == m;
      MapAnswerFails(c, reqs[m], curvature, rendered, edges, wait, route);
    }
  }

  lemma MapAnswerFails(c: TransportCatalogue, request: OutputRequest, curvature: string -> real,
                       rendered: Result<string>, edges: seq<Edge>, wait: nat,
                       route: (StopId, StopId) -> Option<RouteInfo>)
    requires c.Valid() && request.Stat? && request.stat.kind == "Map"
    requires rendered.Failure? && !rendered.error.InvalidArgument?
    ensures Answer(c, request, curvature, rendered, edges, wait, route) == Failure(rendered.error)
  {
  }

  /** The builder calls ComputeJSON makes: `StartArray`, each answer's Dict,
      `EndArray`. */
  function JsonCalls(answers: seq<seq<Field>>): seq<Call> {
    [StartArrayCall] + DictsCalls(answers) + [EndArrayCall]
  }

  // ---------------------------------------------------------------------
  // The reader

  /** Everything the catalogue holds except the distance table. */
  ghost function Entities(c: TransportCatalogue): (seq<Stop>, map<string, StopId>, seq<Bus>, map<string, BusId>, map<string, seq<string>>)
    reads c
  {
    (c.stops, c.stopIndex, c.buses, c.busIndex, c.stopBuses)
  }

  class JsonReader {
    /** The catalogue the reader loads; the source holds a reference to it. */
    const catalogue: TransportCatalogue
    var queue: RequestQueue
    /** None until `routing_settings` has been read: the source leaves the
        struct uninitialised until then. */
    var routerSettings: Option<RouterSettings>
    /** The routing graph, null until a route request makes it necessary. */
    var graph: DirectedWeightedGraph?

    ghost predicate Valid()
      reads this`routerSettings, catalogue
    {
      catalogue.Valid() && (routerSettings.Some? ==> SettingsInRange(routerSettings.value))
    }

    constructor(catalogue: TransportCatalogue, queue: RequestQueue)
      requires catalogue.Valid()
      ensures Valid()
      ensures this.catalogue == catalogue && this.queue == queue
      ensures routerSettings == None && graph == null
    {
      this.catalogue := catalogue;
      this.queue := queue;
      routerSettings := None;
      graph := null;
    }

    /** Stores the settings `routing_settings` holds, or fails without
        changing anything. */
    method ParseRoutingSettings(node: Node) returns (r: Outcome)
      requires Valid()
      modifies this
      ensures Valid()
      ensures r.Pass? <==> ReadRoutingSettings(node).Success?
      ensures r.Pass? ==> routerSettings == Some(ReadRoutingSettings(node).value)
      ensures r.Fail? ==> r.error == ReadRoutingSettings(node).error && routerSettings == old(routerSettings)
      ensures queue == old(queue) && graph == old(graph)
    {
      var settings := ReadRoutingSettings(node);
      if settings.Failure? {
        return Fail(settings.error);
      }
      routerSettings := Some(settings.value);
      return Pass;
    }

    method ProcessingStopRequest(request: StopRequest)
      requires catalogue.Valid()
      modifies catalogue
      ensures catalogue.Valid()
      ensures catalogue.stops == old(catalogue.stops) + [StopRecord(request)]
      ensures catalogue.stopIndex == old(catalogue.stopIndex)[request.name := |old(catalogue.stops)|]
      ensures catalogue.stopBuses == old(catalogue.stopBuses)[request.name := []]
      ensures catalogue.buses == old(catalogue.buses) && catalogue.busIndex == old(catalogue.busIndex)
      ensures catalogue.distances == old(catalogue.distances)
    {
      catalogue.AddStop(request.name, Coordinates(request.lat, request.lng));
    }

    /** Stores the distances one request declares, in order; the first unknown
        stop fails, and the distances stored before it stay. */
    method ProcessingDistances(request: StopRequest) returns (r: Outcome)
      requires catalogue.Valid()
      modifies catalogue
      ensures catalogue.Valid()
      ensures r.Pass? <==> DistancesKnown(catalogue.stopIndex, request)
      ensures r.Fail? ==> r.error == InvalidArgument(STOP_NOT_FOUND)
      ensures r.Pass? ==> catalogue.distances == DistancesFrom(old(catalogue.distances), catalogue.stopIndex, request.name, request.dists)
      ensures Entities(catalogue) == old(Entities(catalogue))
    {
      var dists := request.dists;
      ghost var index := catalogue.stopIndex;
      ghost var entities := Entities(catalogue);
      ghost var table := catalogue.distances;
      for j := 0 to |dists|
        invariant catalogue.Valid()
        invariant Entities(catalogue) == entities && catalogue.stopIndex == index
        invariant j > 0 ==> request.name in index
        invariant TargetsKnown(index, dists[..j])
        invariant catalogue.distances == DistancesFrom(table, index, request.name, dists[..j])
      {
        var added := catalogue.AddDistance(request.name, dists[j].0, dists[j].1);
        if added.Fail? {
          NotKnownAt(index, request, j);
          return added;
        }
        DistancesFromSnoc(table, index, request.name, dists, j);
      }
      assert dists[..|dists|] == dists;
      return Pass;
    }

    /** The first loop of UpdateCatalogue: every stop request, in order. */
    method LoadStops(reqs: seq<StopRequest>)
      requires catalogue.Valid()
      modifies catalogue
      ensures catalogue.Valid()
      ensures TablesOf(catalogue) == StopsLoaded(old(TablesOf(catalogue)), reqs)
    {
      ghost var t := TablesOf(catalogue);
      for k := 0 to |reqs|
        invariant catalogue.Valid()
        invariant TablesOf(catalogue) == StopsLoaded(t, reqs[..k])
      {
        StopsLoadedSnoc(t, reqs, k);
        ProcessingStopRequest(reqs[k]);
      }
      assert reqs[..|reqs|] == reqs;
    }

    /** The second loop: the distances of every stop request, in order. */
    method LoadDistances(reqs: seq<StopRequest>) returns (r: Outcome)
      requires catalogue.Valid()
      modifies catalogue
      ensures catalogue.Valid()
      ensures r.Pass? <==> AllDistancesKnown(catalogue.stopIndex, reqs)
      ensures r.Fail? ==> r.error == InvalidArgument(STOP_NOT_FOUND)
      ensures Entities(catalogue) == old(Entities(catalogue))
      ensures r.Pass? ==> TablesOf(catalogue) == DistancesLoaded(old(TablesOf(catalogue)), reqs)
    {
      ghost var t := TablesOf(catalogue);
      ghost var entities := Entities(catalogue);
      for k := 0 to |reqs|
        invariant catalogue.Valid()
        invariant Entities(catalogue) == entities && t.stopIndex == catalogue.stopIndex
        invariant AllDistancesKnown(t.stopIndex, reqs[..k])
        invariant TablesOf(catalogue) == DistancesLoaded(t, reqs[..k])
      {
        r := ProcessingDistances(reqs[k]);
        if r.Fail? {
          return;
        }
        AllDistancesKnownSnoc(t.stopIndex, reqs, k);
        DistancesLoadedSnoc(t, reqs, k);
      }
      assert reqs[..|reqs|] == reqs;
      return Pass;
    }

    /** The third loop: every bus request, in order. */
    method LoadBuses(reqs: seq<BusRequest>) returns (r: Outcome)
      requires catalogue.Valid() && AllExpandable(reqs)
      modifies catalogue
      ensures catalogue.Valid()
      ensures r.Pass? <==> AllBusesKnown(catalogue.stopIndex.Keys, reqs)
      ensures r.Fail? ==> r.error == InvalidArgument(STOP_NOT_FOUND)
      ensures catalogue.stopIndex == old(catalogue.stopIndex)
      ensures r.Pass? ==> SetsMatch(old(TablesOf(catalogue))) && TablesOf(catalogue) == BusesLoaded(old(TablesOf(catalogue)), reqs)
    {
      ghost var t := TablesOf(catalogue);
      assert SetsMatch(t);
      for k := 0 to |reqs|
        invariant catalogue.Valid()
        invariant catalogue.stopIndex == t.stopIndex
        invariant AllBusesKnown(t.stopIndex.Keys, reqs[..k])
        invariant TablesOf(catalogue) == BusesLoaded(t, reqs[..k])
      {
        r := ProcessingBusRequest(reqs[k]);
        if r.Fail? {
          return;
        }
        AllBusesKnownSnoc(t.stopIndex.Keys, reqs, k);
        BusesLoadedSnoc(t, reqs, k);
      }
      assert reqs[..|reqs|] == reqs;
      return Pass;
    }

    /** Loads the queued stops, their distances and the buses into the
        catalogue, in that order; when some output request asks for a route,
        builds the routing graph over every stop and every bus. The first
        unknown stop name aborts the load with the catalogue's exception. */
    method UpdateCatalogue() returns (r: Outcome)
      requires Valid() && AllExpandable(queue.busesRequests)
      requires SetsMatch(TablesOf(catalogue))
      requires AnyRoute(queue.statsRequests) ==>
        routerSettings.Some? && Routable(TablesOf(catalogue), queue)
      modifies this, catalogue
      ensures Valid()
      ensures queue == old(queue) && routerSettings == old(routerSettings)
      ensures r.Pass? <==> Loadable(old(TablesOf(catalogue)), queue)
      ensures r.Fail? ==> r.error == InvalidArgument(STOP_NOT_FOUND) && graph == old(graph)
      ensures r.Pass? ==> TablesOf(catalogue) == Loaded(old(TablesOf(catalogue)), queue)
      ensures r.Pass? && !AnyRoute(queue.statsRequests) ==> graph == old(graph)
      ensures r.Pass? && AnyRoute(queue.statsRequests) ==>
        && graph != null && fresh(graph) && routerSettings.Some?
        && graph.vertexCount == |catalogue.stops|
        && graph.edges == RoutesEdges(routerSettings.value, catalogue.distances, CatalogueRoutes(catalogue))
    {
      r := LoadQueue();
      if r.Fail? {
        return;
      }
      var isRoute := RouteRequested(queue.statsRequests);
      if isRoute {
        BuildGraph();
      }
    }

    /** The three loading loops of UpdateCatalogue. */
    method LoadQueue() returns (r: Outcome)
      requires catalogue.Valid() && AllExpandable(queue.busesRequests)
      modifies catalogue
      ensures catalogue.Valid()
      ensures r.Pass? <==> Loadable(old(TablesOf(catalogue)), queue)
      ensures r.Fail? ==> r.error == InvalidArgument(STOP_NOT_FOUND)
      ensures r.Pass? ==> SetsMatch(old(TablesOf(catalogue))) && TablesOf(catalogue) == Loaded(old(TablesOf(catalogue)), queue)
    {
      LoadStops(queue.stopsRequests);
      r := LoadDistances(queue.stopsRequests);
      if r.Fail? {
        return;
      }
      r := LoadBuses(queue.busesRequests);
    }

    /** Builds the routing graph over every stored stop and bus. */
    method BuildGraph()
      requires Valid() && routerSettings.Some? && CatalogueResolvable(catalogue)
      modifies this
      ensures Valid()
      ensures queue == old(queue) && routerSettings == old(routerSettings)
      ensures graph != null && fresh(graph)
      ensures graph.vertexCount == |catalogue.stops|
      ensures graph.edges == RoutesEdges(routerSettings.value, catalogue.distances, CatalogueRoutes(catalogue))
    {
      graph := NewGraph();
    }

    /** A graph with a vertex per stored stop and the edges of every bus. */
    method NewGraph() returns (g: DirectedWeightedGraph)
      requires Valid() && routerSettings.Some? && CatalogueResolvable(catalogue)
      ensures fresh(g) && g.vertexCount == |catalogue.stops|
      ensures g.edges == RoutesEdges(routerSettings.value, catalogue.distances, CatalogueRoutes(catalogue))
    {
      g := new DirectedWeightedGraph(|catalogue.stops|);
      var router := new TransportRouter(routerSettings.value);
      router.FillGraph(catalogue, g);
      assert g.edges == [] + RoutesEdges(routerSettings.value, catalogue.distances, CatalogueRoutes(catalogue));
    }

    /** The graph's edge list; empty while no graph is built. */
    function GraphEdges(): seq<Edge>
      reads this, graph
    {
      if graph == null then [] else graph.edges
    }

    /** The waiting time read from `routing_settings`; 0 while unread. */
    function WaitTime(): nat
      reads this
    {
      if routerSettings.Some? then routerSettings.value.busWaitTime else 0
    }

    /** Answers a Stop, Bus or Map request; `curvature` is the bus's road
        length over its straight-line length. A Map request draws the
        catalogue's routes with `settings`; RenderMap throws only
        out_of_range, which the source's catch of `invalid_argument` lets
        through. */
    method ComputeStatRequest(request: StatRequest, curvature: real, settings: MapSettings)
      returns (r: Result<Option<seq<Field>>>)
      requires Valid()
      ensures r == StatAnswer(catalogue, request, curvature, RenderedMap(catalogue, settings))
    {
      if request.kind == "Stop" {
        var buses := catalogue.GetBusesToStop(request.name);
        if buses.Failure? {
          return Success(Some(NotFoundAnswer(request.id)));
        }
        return Success(Some(StopAnswer(request.id, buses.value)));
      } else if request.kind == "Bus" {
        var length := catalogue.ComputeRouteLength(request.name);
        if length.Failure? {
          return Success(Some(NotFoundAnswer(request.id)));
        }
        var stopCount := catalogue.ComputeStopsCount(request.name);
        var uniqueCount := catalogue.ComputeUniqueStopsCount(request.name);
        return Success(Some(BusAnswer(request.id, curvature, length.value, stopCount.value, uniqueCount.value)));
      } else if request.kind == "Map" {
        var routes := MapRenderer.CatalogueRoutes(catalogue);
        var drawn := MapRenderer.RenderMap(routes, settings.palette, settings.proj, settings.lineWidth);
        MapRenderer.CatalogueDrawn(catalogue);
        if drawn.Failure? {
          return Failure(drawn.error);
        }
        return Success(Some(MapAnswer(request.id, settings.text(drawn.value.shapes))));
      }
      return Success(None);
    }

    /** The items of a found route, two per edge, gathered in a loop. */
    method BuildValidRouteResponse(info: RouteInfo, request: RouteRequest) returns (r: Result<seq<Field>>)
      requires Valid() && graph != null && routerSettings.Some?
      ensures r.Success? <==> RouteItems(catalogue.stops, graph.edges, WaitTime(), info.edges).Success?
      ensures r.Failure? ==> r.error == OutOfRange
      ensures r.Success? ==>
        r.value == FoundRouteAnswer(request.id, info.weight, RouteItems(catalogue.stops, graph.edges, WaitTime(), info.edges).value)
    {
      var ids := info.edges;
      var stops := catalogue.stops;
      var edges := graph.edges;
      var wait := routerSettings.value.busWaitTime;
      var items: seq<Node> := [];
      for k := 0 to |ids|
        invariant RouteItems(stops, edges, wait, ids[..k]) == Success(items)
      {
        assert ids[..k + 1][..k] == ids[..k];
        var id := ids[k];
        if id >= |edges| || edges[id].from >= |stops| {
          RouteItemsKnown(stops, edges, wait, ids);
          assert !(ids[k] < |edges| && edges[ids[k]].from < |stops|);
          return Failure(OutOfRange);
        }
        var edge := edges[id];
        items := items + [WaitItem(wait, stops[edge.from].name), RideItem(edge, wait)];
      }
      assert ids[..|ids|] == ids;
      return Success(FoundRouteAnswer(request.id, info.weight, items));
    }

    /** Answers a route request: both stops must exist; the same stop needs no
        route; otherwise `route` is asked for the best route between the two
        stops' vertices. */
    method ComputeRouteRequest(request: RouteRequest, route: (StopId, StopId) -> Option<RouteInfo>) returns (r: Result<seq<Field>>)
      requires Valid() && graph != null && routerSettings.Some?
      ensures r == RouteAnswer(catalogue.stopIndex, catalogue.stops, GraphEdges(), WaitTime(), request, route)
      ensures request.from == request.to && request.from in catalogue.stopIndex ==> r == Success(SameStopsAnswer(request.id))
    {
      var from := catalogue.GetStop(request.from);
      if from.Failure? {
        return Failure(from.error);
      }
      var to := catalogue.GetStop(request.to);
      if to.Failure? {
        return Failure(to.error);
      }
      if from.value == to.value {
        return Success(SameStopsAnswer(request.id));
      }
      var found := route(from.value, to.value);
      if found.None? {
        return Success(NotFoundAnswer(request.id));
      }
      r := BuildValidRouteResponse(found.value, request);
      RouteItemsKnown(catalogue.stops, graph.edges, WaitTime(), found.value.edges);
    }

    /** Answers one queued output request. */
    method ComputeAnswer(request: OutputRequest, curvature: string -> real, settings: MapSettings,
                         route: (StopId, StopId) -> Option<RouteInfo>) returns (r: Result<Option<seq<Field>>>)
      requires Valid()
      requires request.Route? ==> graph != null && routerSettings.Some?
      ensures r == Answer(catalogue, request, curvature, RenderedMap(catalogue, settings), GraphEdges(), WaitTime(), route)
    {
      match request
      case Stat(stat) =>
        r := ComputeStatRequest(stat, curvature(stat.name), settings);
      case Route(req) =>
        var fields := ComputeRouteRequest(req, route);
        if fields.Failure? {
          return Failure(fields.error);
        }
        return Success(Some(fields.value));
    }

    /** Answers the queued output requests in order, stopping at the first
        failure. */
    method CollectAnswers(curvature: string -> real, settings: MapSettings, route: (StopId, StopId) -> Option<RouteInfo>)
      returns (r: Result<seq<seq<Field>>>)
      requires Valid()
      requires AnyRoute(queue.statsRequests) ==> graph != null && routerSettings.Some?
      ensures r == Answers(catalogue, queue.statsRequests, curvature, RenderedMap(catalogue, settings), GraphEdges(), WaitTime(), route)
    {
      var reqs := queue.statsRequests;
      ghost var rendered, edges, wait := RenderedMap(catalogue, settings), GraphEdges(), WaitTime();
      var answers: seq<seq<Field>> := [];
      for k := 0 to |reqs|
        invariant Answers(catalogue, reqs[..k], curvature, rendered, edges, wait, route) == Success(answers)
      {
        if reqs[k].Route? {
          assert AnyRoute(reqs);
        }
        var answer := ComputeAnswer(reqs[k], curvature, settings, route);
        AnswersStep(catalogue, reqs, k, curvature, rendered, edges, wait, route, answers);
        if answer.Failure? {
          return Failure(answer.error);
        }
        if answer.value.Some? {
          answers := answers + [answer.value.value];
        }
      }
      assert reqs[..|reqs|] == reqs;
      return Success(answers);
    }

    /** Answers every queued output request, in order, into one JSON array of
        Dicts. The answers' keys are distinct, so the builder accepts every
        call and builds the array of their Dicts. */
    method ComputeJSON(curvature: string -> real, settings: MapSettings, route: (StopId, StopId) -> Option<RouteInfo>)
      returns (r: Result<Node>)
      requires Valid()
      requires AnyRoute(queue.statsRequests) ==> graph != null && routerSettings.Some?
      ensures
        var answers := Answers(catalogue, queue.statsRequests, curvature, RenderedMap(catalogue, settings), GraphEdges(), WaitTime(), route);
        && (answers.Failure? ==> r == Failure(answers.error))
        && (answers.Success? ==>
              && Run(START, JsonCalls(answers.value)).Success?
              && r == Built(Run(START, JsonCalls(answers.value)).value)
              && r == Success(Array(FieldDicts(answers.value))))
    {
      var answers := CollectAnswers(curvature, settings, route);
      if answers.Failure? {
        return Failure(answers.error);
      }
      BuildDicts(answers.value);
      return Success(Array(FieldDicts(answers.value)));
    }

    /** Stores a bus: a non-round request's list is extended with its stops
        in reverse order, from the next to last back to the first, and the
        result is handed to AddBus. */
    method ProcessingBusRequest(request: BusRequest) returns (r: Outcome)
      requires catalogue.Valid() && Expandable(request)
      modifies catalogue
      ensures catalogue.Valid()
      ensures r.Pass? <==> BusKnown(catalogue.stopIndex.Keys, request)
      ensures r.Fail? ==> r.error == InvalidArgument(STOP_NOT_FOUND)
      ensures r.Fail? ==> catalogue.buses == old(catalogue.buses) && catalogue.busIndex == old(catalogue.busIndex)
      ensures r.Fail? ==> catalogue.stopBuses == old(catalogue.stopBuses)
      ensures r.Pass? ==> catalogue.buses == old(catalogue.buses) + [BusRecord(catalogue.stopIndex, request)]
      ensures r.Pass? ==> catalogue.busIndex == old(catalogue.busIndex)[request.name := |old(catalogue.buses)|]
      ensures catalogue.stops == old(catalogue.stops) && catalogue.stopIndex == old(catalogue.stopIndex)
      ensures catalogue.distances == old(catalogue.distances)
      ensures r.Pass? ==> catalogue.stopBuses == WithBus(old(catalogue.stopBuses), ExpandStops(request.stops, request.isRound), request.name)
      ensures r.Pass? ==> TablesOf(catalogue) == BusAdded(old(TablesOf(catalogue)), request)
    {
      var given := request.stops;
      var n := |given|;
      var stops := given;
      if !request.isRound {
        var k := n - 1;
        while k > 0
          invariant 0 <= k <= n - 1
          invariant |stops| == 2 * n - 1 - k
          invariant forall i :: 0 <= i < n ==> stops[i] == given[i]
          invariant forall i :: n <= i < |stops| ==> stops[i] == given[2 * n - 2 - i]
        {
          stops := stops + [given[k - 1]];
          k := k - 1;
        }
      }
      ExpandedByLoop(given, request.isRound, stops);
      r := AddExpandedBus(request, stops);
    }

    /** AddBus on the expanded list of a request. */
    method AddExpandedBus(request: BusRequest, stops: seq<string>) returns (r: Outcome)
      requires catalogue.Valid() && Expandable(request) && stops == ExpandStops(request.stops, request.isRound)
      modifies catalogue
      ensures catalogue.Valid()
      ensures r.Pass? <==> BusKnown(catalogue.stopIndex.Keys, request)
      ensures r.Fail? ==> r.error == InvalidArgument(STOP_NOT_FOUND)
      ensures r.Fail? ==> catalogue.buses == old(catalogue.buses) && catalogue.busIndex == old(catalogue.busIndex)
      ensures r.Fail? ==> catalogue.stopBuses == old(catalogue.stopBuses)
      ensures r.Pass? ==> catalogue.buses == old(catalogue.buses) + [BusRecord(catalogue.stopIndex, request)]
      ensures r.Pass? ==> catalogue.busIndex == old(catalogue.busIndex)[request.name := |old(catalogue.buses)|]
      ensures catalogue.stops == old(catalogue.stops) && catalogue.stopIndex == old(catalogue.stopIndex)
      ensures catalogue.distances == old(catalogue.distances)
      ensures r.Pass? ==> catalogue.stopBuses == WithBus(old(catalogue.stopBuses), ExpandStops(request.stops, request.isRound), request.name)
    {
      ExpandedKnown(catalogue.stopIndex.Keys, request);
      r := catalogue.AddBus(request.name, stops, request.isRound);
      if r.Pass? {
        var m := |old(catalogue.buses)|;
        assert catalogue.buses[m] == BusRecord(catalogue.stopIndex, request);
        SnocParts(catalogue.buses, m);
      }
    }
  }
}
