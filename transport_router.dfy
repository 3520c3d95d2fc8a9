/** The routing-graph builder (transport-catalogue/transport_router.cpp). For
    every bus it adds one edge per "board at stop i, ride to a later stop j"
    pair; the edge weight is the waiting time plus the riding time of the hops
    in between, and the span is the number of hops counted. */
module Router {
  import opened Domain
  import opened Catalogue

  /** `span_count` is a `uint16_t`: `++span` wraps around at this value. */
  const SPAN_MODULUS: nat := 65536

  /** The road distance table, keyed by ordered pairs of stop records. */
  type Distances = map<(StopId, StopId), int>

  /** `bus_wait_time` (minutes, a `uint16_t`) and `bus_velocity` (km/h). */
  datatype RouterSettings = RouterSettings(busWaitTime: nat, busVelocity: real)

  /** A graph edge: from and to are the stops' vertex ids, the weight is in minutes. */
  datatype Edge = Edge(from: StopId, to: StopId, weight: real, busName: string, spanCount: nat)

  /** The directed weighted graph the edges are added to, reduced to its
      vertex count and its edge list in insertion order. */
  class DirectedWeightedGraph {
    var vertexCount: nat
    var edges: seq<Edge>

    constructor(vertexCount: nat)
      ensures this.vertexCount == vertexCount && edges == []
    {
      this.vertexCount := vertexCount;
      edges := [];
    }

    method AddEdge(edge: Edge)
      modifies this
      ensures edges == old(edges) + [edge] && vertexCount == old(vertexCount)
    {
      edges := edges + [edge];
    }
  }

  /** The minutes a bus needs for `distance` metres: metres to kilometres,
      divided by the velocity in km/h, hours to minutes. */
  function ComputeEdgeWeight(settings: RouterSettings, distance: int): real
    requires settings.busVelocity > 0.0
  {
    distance as real / 1000.0 / settings.busVelocity * 60.0
  }

  /** Riding for the computed minutes at the bus velocity covers the distance,
      and a non-negative distance takes non-negative time. */
  lemma {:induction false} EdgeWeightMeaning(settings: RouterSettings, distance: int)
    requires settings.busVelocity > 0.0
    ensures ComputeEdgeWeight(settings, distance) / 60.0 * settings.busVelocity * 1000.0 == distance as real
    ensures distance >= 0 ==> ComputeEdgeWeight(settings, distance) >= 0.0
    ensures distance == 0 <==> ComputeEdgeWeight(settings, distance) == 0.0
  {
  }

  /** The distance of the hop a to b: the (a, b) entry, else the (b, a) entry.
      With neither entry the source dereferences an end iterator; the model's
      0 there is never reached, since every method that adds edges requires a
      distance in one direction for each hop it looks up. */
  function HopDistance(distances: Distances, a: StopId, b: StopId): int {
    if (a, b) in distances then distances[(a, b)]
    else if (b, a) in distances then distances[(b, a)]
    else 0
  }

  /** The forward pass looks a distance up for the hop into j whenever the stop
      at j differs from the boarding stop i; the source dereferences that
      lookup unchecked, so a distance must exist in one direction. */
  predicate HopsResolvable(stops: seq<StopId>, distances: Distances) {
    forall i, j :: 0 <= i < j < |stops| && stops[i] != stops[j] ==>
      (stops[j - 1], stops[j]) in distances || (stops[j], stops[j - 1]) in distances
  }

  /** The same demand for the backward pass, which boards at i and rides down
      to k, looking up the hop k+1 to k. */
  predicate BackHopsResolvable(stops: seq<StopId>, distances: Distances) {
    forall k, i :: 0 <= k < i < |stops| && stops[i] != stops[k] ==>
      (stops[k + 1], stops[k]) in distances || (stops[k], stops[k + 1]) in distances
  }

  function Reverse<T>(s: seq<T>): (r: seq<T>)
    ensures |r| == |s| && forall k :: 0 <= k < |s| ==> r[k] == s[|s| - 1 - k]
  {
    seq(|s|, k requires 0 <= k < |s| => s[|s| - 1 - k])
  }

  lemma {:induction false} BackHopsAreReversedHops(stops: seq<StopId>, distances: Distances)
    ensures BackHopsResolvable(stops, distances) <==> HopsResolvable(Reverse(stops), distances)
  {
    var r := Reverse(stops);
    var n := |stops|;
    if BackHopsResolvable(stops, distances) {
      forall i, j | 0 <= i < j < n && r[i] != r[j]
        ensures (r[j - 1], r[j]) in distances || (r[j], r[j - 1]) in distances
      {
        assert stops[n - 1 - i] != stops[n - 1 - j];
        assert r[j - 1] == stops[n - j] && r[j] == stops[n - 1 - j];
      }
    }
    if HopsResolvable(r, distances) {
      forall k, i | 0 <= k < i < n && stops[i] != stops[k]
        ensures (stops[k + 1], stops[k]) in distances || (stops[k], stops[k + 1]) in distances
      {
        assert r[n - 1 - i] != r[n - 1 - k];
        assert r[n - 2 - k] == stops[k + 1] && r[n - 1 - k] == stops[k];
      }
    }
  }

  /** The edges boarding at i, for the rides to positions j and beyond, given
      the weight and span accumulated so far: the inner loop of the forward pass. */
  function RideEdges(settings: RouterSettings, distances: Distances, stops: seq<StopId>, name: string,
                     i: nat, j: nat, weight: real, span: nat): seq<Edge>
    requires settings.busVelocity > 0.0
    requires i < j <= |stops|
    decreases |stops| - j
  {
    if j == |stops| then []
    else if stops[i] != stops[j] then
      var w := weight + ComputeEdgeWeight(settings, HopDistance(distances, stops[j - 1], stops[j]));
      [Edge(stops[i], stops[j], w, name, span)]
        + RideEdges(settings, distances, stops, name, i, j + 1, w, (span + 1) % SPAN_MODULUS)
    else RideEdges(settings, distances, stops, name, i, j + 1, weight, span)
  }

  /** The edges of the forward pass for boarding positions i and beyond. */
  function ForwardFrom(settings: RouterSettings, distances: Distances, stops: seq<StopId>, name: string, i: nat): seq<Edge>
    requires settings.busVelocity > 0.0
    decreases |stops| - i
  {
    if i + 1 >= |stops| then []
    else
      RideEdges(settings, distances, stops, name, i, i + 1, settings.busWaitTime as real, 1)
      + ForwardFrom(settings, distances, stops, name, i + 1)
  }

  /** The edges boarding at i and riding down to positions j-1, j-2, ..., 0:
      the inner loop of the backward pass. */
  function BackRideEdges(settings: RouterSettings, distances: Distances, stops: seq<StopId>, name: string,
                         i: nat, j: nat, weight: real, span: nat): seq<Edge>
    requires settings.busVelocity > 0.0
    requires j <= i < |stops|
    decreases j
  {
    if j == 0 then []
    else if stops[i] != stops[j - 1] then
      var w := weight + ComputeEdgeWeight(settings, HopDistance(distances, stops[j], stops[j - 1]));
      [Edge(stops[i], stops[j - 1], w, name, span)]
        + BackRideEdges(settings, distances, stops, name, i, j - 1, w, (span + 1) % SPAN_MODULUS)
    else BackRideEdges(settings, distances, stops, name, i, j - 1, weight, span)
  }

  /** The edges of the backward pass for boarding positions i, i-1, ..., 1. */
  function BackwardFrom(settings: RouterSettings, distances: Distances, stops: seq<StopId>, name: string, i: nat): seq<Edge>
    requires settings.busVelocity > 0.0
    requires i < |stops|
    decreases i
  {
    if i == 0 then []
    else
      BackRideEdges(settings, distances, stops, name, i, i, settings.busWaitTime as real, 1)
      + BackwardFrom(settings, distances, stops, name, i - 1)
  }

  function Forward(settings: RouterSettings, distances: Distances, stops: seq<StopId>, name: string): seq<Edge>
    requires settings.busVelocity > 0.0
  {
    ForwardFrom(settings, distances, stops, name, 0)
  }

  function Backward(settings: RouterSettings, distances: Distances, stops: seq<StopId>, name: string): seq<Edge>
    requires settings.busVelocity > 0.0
  {
    if |stops| == 0 then [] else BackwardFrom(settings, distances, stops, name, |stops| - 1)
  }

  // ---------------------------------------------------------------------------
  // A closed form of the forward rides

  /** The riding time from position i up to position j, counting only the hops
      whose end differs from the boarding stop. */
  function Travel(settings: RouterSettings, distances: Distances, stops: seq<StopId>, i: nat, j: nat): real
    requires settings.busVelocity > 0.0
    requires i <= j < |stops|
    decreases j
  {
    if j == i then 0.0
    else
      Travel(settings, distances, stops, i, j - 1)
      + (if stops[j] != stops[i] then ComputeEdgeWeight(settings, HopDistance(distances, stops[j - 1], stops[j])) else 0.0)
  }

  /** The number of positions after i up to j whose stop differs from the boarding stop. */
  function Hops(stops: seq<StopId>, i: nat, j: nat): nat
    requires i <= j < |stops|
    decreases j
  {
    if j == i then 0 else Hops(stops, i, j - 1) + (if stops[j] != stops[i] then 1 else 0)
  }

  /** One edge to every later position j whose stop differs from the boarding
      stop, in order of j, weighted by the waiting time plus the travel time. */
  function Rides(settings: RouterSettings, distances: Distances, stops: seq<StopId>, name: string, i: nat, j: nat): seq<Edge>
    requires settings.busVelocity > 0.0
    requires i < j <= |stops|
    decreases |stops| - j
  {
    if j == |stops| then []
    else
      (if stops[j] != stops[i]
       then [Edge(stops[i], stops[j], settings.busWaitTime as real + Travel(settings, distances, stops, i, j),
                  name, Hops(stops, i, j) % SPAN_MODULUS)]
       else [])
      + Rides(settings, distances, stops, name, i, j + 1)
  }

  /** One step of the inner loop in closed form: from the weight and span
      accumulated up to position j-1, position j yields its edge (when its stop
      differs from the boarding stop) and leaves the weight and span accumulated
      up to j. */
  lemma {:induction false} RideStep(settings: RouterSettings, distances: Distances, stops: seq<StopId>, name: string, i: nat, j: nat)
    requires settings.busVelocity > 0.0
    requires i < j < |stops|
    ensures RideEdges(settings, distances, stops, name, i, j,
                      settings.busWaitTime as real + Travel(settings, distances, stops, i, j - 1),
                      (Hops(stops, i, j - 1) + 1) % SPAN_MODULUS)
         == (if stops[j] != stops[i]
             then [Edge(stops[i], stops[j], settings.busWaitTime as real + Travel(settings, distances, stops, i, j),
                        name, Hops(stops, i, j) % SPAN_MODULUS)]
             else [])
            + RideEdges(settings, distances, stops, name, i, j + 1,
                        settings.busWaitTime as real + Travel(settings, distances, stops, i, j),
                        (Hops(stops, i, j) + 1) % SPAN_MODULUS)
  {
    if stops[i] != stops[j] {
      SpanSucc(Hops(stops, i, j - 1) + 1);
    }
  }

  /** The inner loop computes exactly the closed form: an edge to every later
      different stop, never to the boarding stop itself, and a hop that ends at
      the boarding stop adds neither weight nor span. */
  lemma {:induction false} RideEdgesClosedForm(settings: RouterSettings, distances: Distances, stops: seq<StopId>,
                                               name: string, i: nat, j: nat)
    requires settings.busVelocity > 0.0
    requires i < j <= |stops|
    ensures RideEdges(settings, distances, stops, name, i, j,
                      settings.busWaitTime as real + Travel(settings, distances, stops, i, j - 1),
                      (Hops(stops, i, j - 1) + 1) % SPAN_MODULUS)
         == Rides(settings, distances, stops, name, i, j)
    decreases |stops| - j
  {
    if j < |stops| {
      RideEdgesClosedForm(settings, distances, stops, name, i, j + 1);
      RideStep(settings, distances, stops, name, i, j);
    }
  }

  /** Wrapping before or after an increment gives the same span. */
  lemma {:induction false} SpanSucc(x: nat)
    ensures (x % SPAN_MODULUS + 1) % SPAN_MODULUS == (x + 1) % SPAN_MODULUS
  {
    var q := x / SPAN_MODULUS;
    assert x == q * SPAN_MODULUS + x % SPAN_MODULUS;
    if x % SPAN_MODULUS + 1 == SPAN_MODULUS {
      assert x + 1 == (q + 1) * SPAN_MODULUS;
    } else {
      assert x + 1 == q * SPAN_MODULUS + (x % SPAN_MODULUS + 1);
    }
  }

  lemma {:induction false} SpanStep(span: nat, k: nat)
    requires span < SPAN_MODULUS && k >= 1
    ensures ((span + 1) % SPAN_MODULUS + (k - 1)) % SPAN_MODULUS == (span + k) % SPAN_MODULUS
  {
    if span + 1 == SPAN_MODULUS {
      assert (span + 1) % SPAN_MODULUS == 0;
      assert span + k == (k - 1) + SPAN_MODULUS;
    } else {
      assert (span + 1) % SPAN_MODULUS == span + 1;
    }
  }

  /** The k-th edge boarding at i (from 0) carries span k+1, modulo 2^16. */
  lemma {:induction false} RideSpans(settings: RouterSettings, distances: Distances, stops: seq<StopId>, name: string,
                                     i: nat, j: nat, weight: real, span: nat)
    requires settings.busVelocity > 0.0
    requires i < j <= |stops| && span < SPAN_MODULUS
    ensures forall k :: 0 <= k < |RideEdges(settings, distances, stops, name, i, j, weight, span)| ==>
      RideEdges(settings, distances, stops, name, i, j, weight, span)[k].spanCount == (span + k) % SPAN_MODULUS
    decreases |stops| - j
  {
    if j < |stops| {
      var e := RideEdges(settings, distances, stops, name, i, j, weight, span);
      if stops[i] != stops[j] {
        var w := weight + ComputeEdgeWeight(settings, HopDistance(distances, stops[j - 1], stops[j]));
        var tail := RideEdges(settings, distances, stops, name, i, j + 1, w, (span + 1) % SPAN_MODULUS);
        RideSpans(settings, distances, stops, name, i, j + 1, w, (span + 1) % SPAN_MODULUS);
        assert e == [Edge(stops[i], stops[j], w, name, span)] + tail;
        forall k | 1 <= k < |e| ensures e[k].spanCount == (span + k) % SPAN_MODULUS {
          assert e[k] == tail[k - 1];
          assert tail[k - 1].spanCount == ((span + 1) % SPAN_MODULUS + (k - 1)) % SPAN_MODULUS;
          SpanStep(span, k);
        }
      } else {
        RideSpans(settings, distances, stops, name, i, j + 1, weight, span);
        assert e == RideEdges(settings, distances, stops, name, i, j + 1, weight, span);
      }
    }
  }

  /** Every edge boarding at i leaves from stops[i] and never arrives there. */
  lemma {:induction false} RideEndpoints(settings: RouterSettings, distances: Distances, stops: seq<StopId>, name: string,
                                         i: nat, j: nat, weight: real, span: nat)
    requires settings.busVelocity > 0.0
    requires i < j <= |stops|
    ensures forall e :: e in RideEdges(settings, distances, stops, name, i, j, weight, span) ==>
      e.from == stops[i] && e.to != stops[i] && e.busName == name
    decreases |stops| - j
  {
    if j < |stops| {
      if stops[i] != stops[j] {
        var w := weight + ComputeEdgeWeight(settings, HopDistance(distances, stops[j - 1], stops[j]));
        RideEndpoints(settings, distances, stops, name, i, j + 1, w, (span + 1) % SPAN_MODULUS);
      } else {
        RideEndpoints(settings, distances, stops, name, i, j + 1, weight, span);
        assert RideEdges(settings, distances, stops, name, i, j, weight, span)
            == RideEdges(settings, distances, stops, name, i, j + 1, weight, span);
      }
    }
  }

  predicate NonNegative(distances: Distances) {
    forall p :: p in distances ==> distances[p] >= 0
  }

  /** With non-negative distances, no edge weighs less than the weight it
      starts from (the waiting time), and successive edges from one boarding
      stop never get lighter. */
  lemma {:induction false} RideWeights(settings: RouterSettings, distances: Distances, stops: seq<StopId>, name: string,
                                       i: nat, j: nat, weight: real, span: nat)
    requires settings.busVelocity > 0.0 && NonNegative(distances)
    requires i < j <= |stops|
    ensures forall e :: e in RideEdges(settings, distances, stops, name, i, j, weight, span) ==> e.weight >= weight
    ensures forall k :: 0 <= k < |RideEdges(settings, distances, stops, name, i, j, weight, span)| - 1 ==>
      RideEdges(settings, distances, stops, name, i, j, weight, span)[k].weight
      <= RideEdges(settings, distances, stops, name, i, j, weight, span)[k + 1].weight
    decreases |stops| - j
  {
    if j < |stops| {
      var e := RideEdges(settings, distances, stops, name, i, j, weight, span);
      if stops[i] != stops[j] {
        var w := weight + ComputeEdgeWeight(settings, HopDistance(distances, stops[j - 1], stops[j]));
        var tail := RideEdges(settings, distances, stops, name, i, j + 1, w, (span + 1) % SPAN_MODULUS);
        RideWeights(settings, distances, stops, name, i, j + 1, w, (span + 1) % SPAN_MODULUS);
        assert e == [Edge(stops[i], stops[j], w, name, span)] + tail;
      } else {
        RideWeights(settings, distances, stops, name, i, j + 1, weight, span);
        assert e == RideEdges(settings, distances, stops, name, i, j + 1, weight, span);
      }
    }
  }

  // ---------------------------------------------------------------------------
  // The backward pass is the forward pass over the reversed stops

  lemma {:induction false} BackRideIsReversedRide(settings: RouterSettings, distances: Distances, stops: seq<StopId>,
                                                  name: string, i: nat, j: nat, weight: real, span: nat)
    requires settings.busVelocity > 0.0
    requires j <= i < |stops|
    ensures BackRideEdges(settings, distances, stops, name, i, j, weight, span)
      == RideEdges(settings, distances, Reverse(stops), name, |stops| - 1 - i, |stops| - j, weight, span)
    decreases j
  {
    var n := |stops|;
    var r := Reverse(stops);
    if j > 0 {
      assert r[n - 1 - i] == stops[i] && r[n - j] == stops[j - 1] && r[n - j - 1] == stops[j];
      if stops[i] != stops[j - 1] {
        var w := weight + ComputeEdgeWeight(settings, HopDistance(distances, stops[j], stops[j - 1]));
        BackRideIsReversedRide(settings, distances, stops, name, i, j - 1, w, (span + 1) % SPAN_MODULUS);
      } else {
        BackRideIsReversedRide(settings, distances, stops, name, i, j - 1, weight, span);
      }
    }
  }

  lemma {:induction false} BackwardFromIsReversedForward(settings: RouterSettings, distances: Distances,
                                                         stops: seq<StopId>, name: string, i: nat)
    requires settings.busVelocity > 0.0
    requires i < |stops|
    ensures BackwardFrom(settings, distances, stops, name, i)
      == ForwardFrom(settings, distances, Reverse(stops), name, |stops| - 1 - i)
    decreases i
  {
    if i > 0 {
      BackRideIsReversedRide(settings, distances, stops, name, i, i, settings.busWaitTime as real, 1);
      BackwardFromIsReversedForward(settings, distances, stops, name, i - 1);
    }
  }

  /** The backward pass over `stops` adds exactly the edges the forward pass
      adds over the reversed stops. */
  lemma {:induction false} BackwardIsReversedForward(settings: RouterSettings, distances: Distances, stops: seq<StopId>, name: string)
    requires settings.busVelocity > 0.0
    ensures Backward(settings, distances, stops, name) == Forward(settings, distances, Reverse(stops), name)
  {
    if |stops| > 0 {
      BackwardFromIsReversedForward(settings, distances, stops, name, |stops| - 1);
    }
  }

  // ---------------------------------------------------------------------------
  // Whole buses

  /** What a bus may demand of the distance table: the forward pass always
      runs, the backward pass only for a bus that is not a round trip. */
  predicate BusResolvable(bus: Bus, distances: Distances) {
    HopsResolvable(bus.stops, distances) && (!bus.isRound ==> BackHopsResolvable(bus.stops, distances))
  }

  /** The edges FillGraph adds for one bus. */
  function BusEdges(settings: RouterSettings, distances: Distances, name: string, bus: Bus): seq<Edge>
    requires settings.busVelocity > 0.0
  {
    if |bus.stops| > 1 then
      Forward(settings, distances, bus.stops, name)
        + (if !bus.isRound then Backward(settings, distances, bus.stops, name) else [])
    else []
  }

  /** A bus with fewer than two stops adds no edge; a round trip adds the
      forward pass only; any other bus adds the forward pass over its stops
      and then the forward pass over its reversed stops. */
  lemma {:induction false} BusEdgesShape(settings: RouterSettings, distances: Distances, name: string, bus: Bus)
    requires settings.busVelocity > 0.0
    ensures |bus.stops| < 2 ==> BusEdges(settings, distances, name, bus) == []
    ensures |bus.stops| >= 2 && bus.isRound ==>
      BusEdges(settings, distances, name, bus) == Forward(settings, distances, bus.stops, name)
    ensures |bus.stops| >= 2 && !bus.isRound ==>
      BusEdges(settings, distances, name, bus)
      == Forward(settings, distances, bus.stops, name) + Forward(settings, distances, Reverse(bus.stops), name)
  {
    if |bus.stops| >= 2 && !bus.isRound {
      BackwardIsReversedForward(settings, distances, bus.stops, name);
    }
  }

  /** A bus that is not a round trip is stored as a palindrome, so it gets
      every edge of its forward pass twice. */
  lemma {:induction false} PalindromeEdgesTwice(settings: RouterSettings, distances: Distances, name: string, bus: Bus)
    requires settings.busVelocity > 0.0
    requires !bus.isRound && |bus.stops| >= 2 && Reverse(bus.stops) == bus.stops
    ensures BusEdges(settings, distances, name, bus)
         == Forward(settings, distances, bus.stops, name) + Forward(settings, distances, bus.stops, name)
  {
    BusEdgesShape(settings, distances, name, bus);
  }

  /** Every route of a list has its hop distances. */
  predicate AllResolvable(routes: seq<(string, Bus)>, distances: Distances) {
    forall k :: 0 <= k < |routes| ==> BusResolvable(routes[k].1, distances)
  }

  /** The edges FillGraph adds for a list of routes, in list order. */
  function RoutesEdges(settings: RouterSettings, distances: Distances, routes: seq<(string, Bus)>): seq<Edge>
    requires settings.busVelocity > 0.0
  {
    if routes == [] then []
    else
      BusEdges(settings, distances, routes[0].0, routes[0].1)
      + RoutesEdges(settings, distances, routes[1..])
  }

  lemma {:induction false} RoutesEdgesCons(settings: RouterSettings, distances: Distances, routes: seq<(string, Bus)>, k: nat)
    requires settings.busVelocity > 0.0 && k < |routes|
    ensures RoutesEdges(settings, distances, routes[k..])
         == BusEdges(settings, distances, routes[k].0, routes[k].1) + RoutesEdges(settings, distances, routes[k + 1..])
  {
    assert routes[k..][1..] == routes[k + 1..];
  }

  /** The catalogue's routes in name order, with their bus records. */
  function CatalogueRoutes(catalogue: TransportCatalogue): (r: seq<(string, Bus)>)
    reads catalogue
    requires catalogue.Valid()
    ensures |r| == |catalogue.busIndex|
    ensures forall k :: 0 <= k < |r| ==> r[k].0 in catalogue.busIndex && r[k].1 == catalogue.buses[catalogue.busIndex[r[k].0]]
  {
    var routes := catalogue.GetRoutes();
    var buses := catalogue.buses;
    seq(|routes|, k requires 0 <= k < |routes| => (routes[k].0, buses[routes[k].1]))
  }

  /** Every bus the catalogue can name has its hop distances. */
  predicate CatalogueResolvable(catalogue: TransportCatalogue)
    reads catalogue
    requires catalogue.Valid()
  {
    forall n :: n in catalogue.busIndex ==> BusResolvable(catalogue.buses[catalogue.busIndex[n]], catalogue.distances)
  }

  class TransportRouter {
    const settings: RouterSettings

    constructor(settings: RouterSettings)
      ensures this.settings == settings
    {
      this.settings := settings;
    }

    /** The inner loop of the forward pass: boarding at position i, one edge to
        every later position with a different stop, weight and span growing hop
        by hop. */
    method AddRidesForwards(stops: seq<StopId>, distances: Distances, graph: DirectedWeightedGraph, name: string, i: nat)
      requires settings.busVelocity > 0.0 && HopsResolvable(stops, distances)
      requires i + 1 < |stops|
      modifies graph
      ensures graph.edges == old(graph.edges)
        + RideEdges(settings, distances, stops, name, i, i + 1, settings.busWaitTime as real, 1)
      ensures graph.vertexCount == old(graph.vertexCount)
    {
      var weight: real := settings.busWaitTime as real;
      var span: nat := 1;
      for j := i + 1 to |stops|
        invariant graph.edges + RideEdges(settings, distances, stops, name, i, j, weight, span)
               == old(graph.edges) + RideEdges(settings, distances, stops, name, i, i + 1, settings.busWaitTime as real, 1)
        invariant graph.vertexCount == old(graph.vertexCount)
      {
        ghost var rest := RideEdges(settings, distances, stops, name, i, j, weight, span);
        if stops[i] != stops[j] {
          var d := if (stops[j - 1], stops[j]) in distances then distances[(stops[j - 1], stops[j])]
                   else distances[(stops[j], stops[j - 1])];
          assert d == HopDistance(distances, stops[j - 1], stops[j]);
          weight := weight + ComputeEdgeWeight(settings, d);
          var edge := Edge(stops[i], stops[j], weight, name, span);
          assert rest == [edge] + RideEdges(settings, distances, stops, name, i, j + 1, weight, (span + 1) % SPAN_MODULUS);
          graph.AddEdge(edge);
          span := (span + 1) % SPAN_MODULUS;
        } else {
          assert rest == RideEdges(settings, distances, stops, name, i, j + 1, weight, span);
        }
      }
    }

    /** The forward pass: the rides from every boarding position but the last. */
    method AddEdgesForwards(stops: seq<StopId>, distances: Distances, graph: DirectedWeightedGraph, name: string)
      requires settings.busVelocity > 0.0 && HopsResolvable(stops, distances)
      modifies graph
      ensures graph.edges == old(graph.edges) + Forward(settings, distances, stops, name)
      ensures graph.vertexCount == old(graph.vertexCount)
    {
      var i := 0;
      while i + 1 < |stops|
        invariant graph.edges + ForwardFrom(settings, distances, stops, name, i)
               == old(graph.edges) + Forward(settings, distances, stops, name)
        invariant graph.vertexCount == old(graph.vertexCount)
        decreases |stops| - i
      {
        ghost var before := graph.edges;
        ghost var ride := RideEdges(settings, distances, stops, name, i, i + 1, settings.busWaitTime as real, 1);
        ghost var rest := ForwardFrom(settings, distances, stops, name, i + 1);
        assert ForwardFrom(settings, distances, stops, name, i) == ride + rest;
        AddRidesForwards(stops, distances, graph, name, i);
        assert (before + ride) + rest == before + (ride + rest);
        i := i + 1;
      }
    }

    /** The inner loop of the backward pass: boarding at position i, one edge
        to every earlier position with a different stop. */
    method AddRidesBackwards(stops: seq<StopId>, distances: Distances, graph: DirectedWeightedGraph, name: string, i: nat)
      requires settings.busVelocity > 0.0 && BackHopsResolvable(stops, distances)
      requires 0 < i < |stops|
      modifies graph
      ensures graph.edges == old(graph.edges)
        + BackRideEdges(settings, distances, stops, name, i, i, settings.busWaitTime as real, 1)
      ensures graph.vertexCount == old(graph.vertexCount)
    {
      var weight: real := settings.busWaitTime as real;
      var span: nat := 1;
      ghost var ride: seq<Edge> := [];
      var j := i;
      while j > 0
        invariant j <= i
        invariant ride + BackRideEdges(settings, distances, stops, name, i, j, weight, span)
               == BackRideEdges(settings, distances, stops, name, i, i, settings.busWaitTime as real, 1)
        invariant graph.edges == old(graph.edges) + ride
        invariant graph.vertexCount == old(graph.vertexCount)
      {
        if stops[i] != stops[j - 1] {
          var d := if (stops[j], stops[j - 1]) in distances then distances[(stops[j], stops[j - 1])]
                   else distances[(stops[j - 1], stops[j])];
          weight := weight + ComputeEdgeWeight(settings, d);
          var edge := Edge(stops[i], stops[j - 1], weight, name, span);
          graph.AddEdge(edge);
          ride := ride + [edge];
          span := (span + 1) % SPAN_MODULUS;
        }
        j := j - 1;
      }
    }

    /** The backward pass: the rides from every boarding position from the
        last down to 1. */
    method AddEdgesBackwards(stops: seq<StopId>, distances: Distances, graph: DirectedWeightedGraph, name: string)
      requires settings.busVelocity > 0.0 && BackHopsResolvable(stops, distances)
      modifies graph
      ensures graph.edges == old(graph.edges) + Backward(settings, distances, stops, name)
      ensures graph.vertexCount == old(graph.vertexCount)
    {
      if |stops| == 0 {
        return;
      }
      var i: nat := |stops| - 1;
      while i > 0
        invariant i < |stops|
        invariant graph.edges + BackwardFrom(settings, distances, stops, name, i)
               == old(graph.edges) + Backward(settings, distances, stops, name)
        invariant graph.vertexCount == old(graph.vertexCount)
      {
        ghost var before := graph.edges;
        ghost var ride := BackRideEdges(settings, distances, stops, name, i, i, settings.busWaitTime as real, 1);
        ghost var rest := BackwardFrom(settings, distances, stops, name, i - 1);
        assert BackwardFrom(settings, distances, stops, name, i) == ride + rest;
        AddRidesBackwards(stops, distances, graph, name, i);
        assert (before + ride) + rest == before + (ride + rest);
        i := i - 1;
      }
    }

    /** The edges of one bus: none with fewer than two stops, else the forward
        pass, then the backward pass when the bus is not a round trip. */
    method AddBusEdges(name: string, bus: Bus, distances: Distances, graph: DirectedWeightedGraph)
      requires settings.busVelocity > 0.0 && BusResolvable(bus, distances)
      modifies graph
      ensures graph.edges == old(graph.edges) + BusEdges(settings, distances, name, bus)
      ensures graph.vertexCount == old(graph.vertexCount)
    {
      if |bus.stops| > 1 {
        AddEdgesForwards(bus.stops, distances, graph, name);
        if !bus.isRound {
          AddEdgesBackwards(bus.stops, distances, graph, name);
        }
      }
    }

    /** The edges of a list of routes, route by route. */
    method AddRoutesEdges(routes: seq<(string, Bus)>, distances: Distances, graph: DirectedWeightedGraph)
      requires settings.busVelocity > 0.0 && AllResolvable(routes, distances)
      modifies graph
      ensures graph.edges == old(graph.edges) + RoutesEdges(settings, distances, routes)
      ensures graph.vertexCount == old(graph.vertexCount)
    {
      for k := 0 to |routes|
        invariant graph.edges + RoutesEdges(settings, distances, routes[k..])
               == old(graph.edges) + RoutesEdges(settings, distances, routes)
        invariant graph.vertexCount == old(graph.vertexCount)
      {
        ghost var before := graph.edges;
        ghost var added := BusEdges(settings, distances, routes[k].0, routes[k].1);
        ghost var rest := RoutesEdges(settings, distances, routes[k + 1..]);
        RoutesEdgesCons(settings, distances, routes, k);
        AddBusEdges(routes[k].0, routes[k].1, distances, graph);
        assert (before + added) + rest == before + (added + rest);
      }
    }

    /** Adds the edges of every bus, in bus-name order. */
    method FillGraph(catalogue: TransportCatalogue, graph: DirectedWeightedGraph)
      requires catalogue.Valid() && settings.busVelocity > 0.0 && CatalogueResolvable(catalogue)
      modifies graph
      ensures graph.edges == old(graph.edges) + RoutesEdges(settings, catalogue.distances, CatalogueRoutes(catalogue))
      ensures graph.vertexCount == old(graph.vertexCount)
    {
      var routes := CatalogueRoutes(catalogue);
      AddRoutesEdges(routes, catalogue.distances, graph);
    }
  }
}
