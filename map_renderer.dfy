/** The map renderer (transport-catalogue/map_renderer.h,
    transport-catalogue/map_renderer.cpp): one polyline per bus route with at
    least one stop, in the order of the route map, coloured from the palette
    in turn. The projection from geographic to screen coordinates is a
    parameter. */
module MapRenderer {
  import opened Wrappers
  import opened Ordered
  import opened Domain
  import opened Catalogue
  import opened Svg

  /** A bus line as the renderer sees it: its name and the coordinates of
      its stops, in order. */
  datatype BusLine = BusLine(name: string, stops: seq<Coordinates>)

  /** The routes of the catalogue, in name order (`GetRoutes`), each with
      the coordinates of its stops. */
  function CatalogueRoutes(cat: TransportCatalogue): (r: seq<BusLine>)
    reads cat
    requires cat.Valid()
    ensures |r| == |cat.busIndex|
    ensures StrictlySorted(Names(r))
    ensures forall k :: 0 <= k < |r| ==> r[k].name in cat.busIndex
    ensures forall n :: n in cat.busIndex ==> exists k :: 0 <= k < |r| && r[k].name == n
    ensures forall k :: 0 <= k < |r| ==> |r[k].stops| == |cat.buses[cat.busIndex[r[k].name]].stops|
  {
    var routes, buses, stops := cat.GetRoutes(), cat.buses, cat.stops;
    var r := seq(|routes|, k requires 0 <= k < |routes| =>
      BusLine(routes[k].0, StopCoordinates(stops, buses[routes[k].1].stops)));
    assert Names(r) == RouteNames(routes);
    r
  }

  function StopCoordinates(stops: seq<Stop>, ids: seq<StopId>): (r: seq<Coordinates>)
    requires forall k :: 0 <= k < |ids| ==> ids[k] < |stops|
    ensures |r| == |ids| && forall k :: 0 <= k < |ids| ==> r[k] == stops[ids[k]].coords
  {
    seq(|ids|, k requires 0 <= k < |ids| => stops[ids[k]].coords)
  }

  function Names(routes: seq<BusLine>): (r: seq<string>)
    ensures |r| == |routes| && forall k :: 0 <= k < |routes| ==> r[k] == routes[k].name
  {
    seq(|routes|, k requires 0 <= k < |routes| => routes[k].name)
  }

  // ---------------------------------------------------------------------
  // ColorPalettePicker

  /** `ColorPalettePicker`: hands out the palette's colours in turn, starting
      over after the last one. `calls` counts the colours asked for. */
  class ColorPalettePicker {
    const palette: seq<Color>
    var index: nat
    ghost var calls: nat

    ghost predicate Valid()
      reads this
    {
      |palette| > 0 ==> index == calls % |palette|
    }

    constructor(palette: seq<Color>)
      ensures Valid() && this.palette == palette && index == 0 && calls == 0
    {
      this.palette := palette;
      index := 0;
      calls := 0;
    }

    /** `GetColor`: the colour at the index, which then moves on and wraps
        to 0 at the end of the palette. An empty palette has no colour at
        index 0, and `at` throws `out_of_range` (after the increment). */
    method GetColor() returns (r: Result<Color>)
      requires Valid()
      modifies this
      ensures Valid() && calls == old(calls) + 1
      ensures |palette| == 0 ==> r == Failure(OutOfRange) && index == old(index) + 1
      ensures |palette| > 0 ==> r == Success(palette[old(calls) % |palette|])
      ensures |palette| > 0 ==> old(index) < |palette| && index == (if old(index) + 1 < |palette| then old(index) + 1 else 0)
    {
      var at := index;
      index := index + 1;
      calls := calls + 1;
      if at >= |palette| {
        return Failure(OutOfRange);
      }
      r := Success(palette[at]);
      if !(index < |palette|) {
        index := 0;
      }
      NextIndex(calls - 1, |palette|);
    }
  }

  /** The index after one more call. */
  lemma NextIndex(calls: nat, n: nat)
    requires n > 0
    ensures (calls + 1) % n == (if calls % n + 1 < n then calls % n + 1 else 0)
  {
    var q, m := calls / n, calls % n;
    if m + 1 < n {
      ModUnique(calls + 1, n, q, m + 1);
    } else {
      ModUnique(calls + 1, n, q + 1, 0);
    }
  }

  /** Division with remainder has one answer. */
  lemma ModUnique(a: int, n: int, q: int, m: int)
    requires n > 0 && 0 <= m < n && a == q * n + m
    ensures a % n == m && a / n == q
  {
    var q', m' := a / n, a % n;
    assert (q - q') * n == m' - m;
    MulAtLeast(q - q', n);
  }

  lemma MulAtLeast(d: int, n: int)
    requires n > 0
    ensures d >= 1 ==> d * n >= n
    ensures d <= -1 ==> d * n <= -n
  {
  }

  // ---------------------------------------------------------------------
  // RenderMap

  /** The routes that are drawn: those with at least one stop, in order. */
  function Drawn(routes: seq<BusLine>): seq<BusLine> {
    if routes == [] then []
    else Drawn(routes[..|routes| - 1]) + (if routes[|routes| - 1].stops != [] then [routes[|routes| - 1]] else [])
  }

  /** The polyline `RenderRoute` adds for a route: fill "none", the given
      stroke colour and width, round caps and joins, one point per stop. */
  function RouteShape(route: BusLine, proj: Coordinates -> Point, color: Color, lineWidth: real): Shape {
    Shape(seq(|route.stops|, k requires 0 <= k < |route.stops| => proj(route.stops[k])),
          Some(NONE_COLOR), Some(color), Some(lineWidth), Some(RoundCap), Some(RoundJoin))
  }

  /** The document `RenderMap` draws: the `j`-th drawn route in the
      palette's colour `j` modulo its size. */
  function MapShapes(routes: seq<BusLine>, palette: seq<Color>, proj: Coordinates -> Point, lineWidth: real): (r: seq<Shape>)
    requires |palette| > 0
  {
    var drawn := Drawn(routes);
    seq(|drawn|, j requires 0 <= j < |drawn| => RouteShape(drawn[j], proj, palette[j % |palette|], lineWidth))
  }

  /** The drawn routes are exactly the routes with stops. */
  lemma {:induction false} DrawnExactly(routes: seq<BusLine>)
    ensures |Drawn(routes)| <= |routes|
    ensures forall x :: x in Drawn(routes) <==> x in routes && x.stops != []
  {
    if routes != [] {
      var front := routes[..|routes| - 1];
      DrawnExactly(front);
      assert routes == front + [routes[|routes| - 1]];
    }
  }

  /** Some bus of the catalogue has a stop. */
  ghost predicate SomeBusHasStops(cat: TransportCatalogue)
    reads cat
    requires cat.Valid()
  {
    exists n :: n in cat.busIndex && cat.buses[cat.busIndex[n]].stops != []
  }

  /** The catalogue's map draws a route exactly when some bus has a stop. */
  lemma {:induction false} CatalogueDrawn(cat: TransportCatalogue)
    requires cat.Valid()
    ensures Drawn(CatalogueRoutes(cat)) != [] <==> SomeBusHasStops(cat)
  {
    var routes := CatalogueRoutes(cat);
    DrawnExactly(routes);
    if Drawn(routes) != [] {
      DrawnHasStops(cat, routes, Drawn(routes)[0]);
    }
    if SomeBusHasStops(cat) {
      var n :| n in cat.busIndex && cat.buses[cat.busIndex[n]].stops != [];
      StopsDrawn(cat, routes, n);
    }
  }

  lemma {:induction false} DrawnHasStops(cat: TransportCatalogue, routes: seq<BusLine>, x: BusLine)
    requires cat.Valid() && routes == CatalogueRoutes(cat)
    requires x in routes && x.stops != []
    ensures SomeBusHasStops(cat)
  {
    var k :| 0 <= k < |routes| && routes[k] == x;
    var n := x.name;
    assert n in cat.busIndex && |cat.buses[cat.busIndex[n]].stops| == |x.stops|;
  }

  lemma {:induction false} StopsDrawn(cat: TransportCatalogue, routes: seq<BusLine>, n: string)
    requires cat.Valid() && routes == CatalogueRoutes(cat)
    requires n in cat.busIndex && cat.buses[cat.busIndex[n]].stops != []
    requires forall x :: x in Drawn(routes) <==> x in routes && x.stops != []
    ensures Drawn(routes) != []
  {
    var k :| 0 <= k < |routes| && routes[k].name == n;
    assert |routes[k].stops| == |cat.buses[cat.busIndex[n]].stops|;
    assert routes[k] in Drawn(routes);
  }

  /** Drawing keeps the name order of the routes. */
  lemma {:induction false} DrawnSorted(routes: seq<BusLine>)
    requires StrictlySorted(Names(routes))
    ensures StrictlySorted(Names(Drawn(routes)))
  {
    if routes != [] {
      var front, last := routes[..|routes| - 1], routes[|routes| - 1];
      var names := Names(routes);
      assert Names(front) == names[..|routes| - 1];
      DrawnSorted(front);
      var d := Drawn(front);
      if last.stops != [] {
        DrawnExactly(front);
        forall i | 0 <= i < |d| ensures Less(Names(d)[i], last.name) {
          assert d[i] in front;
          var m :| 0 <= m < |front| && front[m] == d[i];
          assert names[m] == d[i].name && names[|routes| - 1] == last.name;
        }
        SortedSnoc(Names(d), last.name);
        assert Names(Drawn(routes)) == Names(d) + [last.name];
      } else {
        assert Drawn(routes) == d;
      }
    }
  }

  lemma SortedSnoc(names: seq<string>, x: string)
    requires StrictlySorted(names) && forall i :: 0 <= i < |names| ==> Less(names[i], x)
    ensures StrictlySorted(names + [x])
  {
  }

  /** Each drawn route is one polyline with one point per stop, each the
      projection of its stop, in order. */
  lemma MapShapesPoints(routes: seq<BusLine>, palette: seq<Color>, proj: Coordinates -> Point, lineWidth: real)
    requires |palette| > 0
    ensures |MapShapes(routes, palette, proj, lineWidth)| == |Drawn(routes)|
    ensures forall j :: 0 <= j < |Drawn(routes)| ==>
      |MapShapes(routes, palette, proj, lineWidth)[j].points| == |Drawn(routes)[j].stops| > 0
    ensures forall j, k :: 0 <= j < |Drawn(routes)| && 0 <= k < |Drawn(routes)[j].stops| ==>
      MapShapes(routes, palette, proj, lineWidth)[j].points[k] == proj(Drawn(routes)[j].stops[k])
  {
    var drawn := Drawn(routes);
    DrawnExactly(routes);
    forall j | 0 <= j < |drawn| ensures |drawn[j].stops| > 0 {
      assert drawn[j] in drawn;
    }
  }

  /** The colours repeat with the palette's period. */
  lemma MapShapesPeriod(routes: seq<BusLine>, palette: seq<Color>, proj: Coordinates -> Point, lineWidth: real)
    requires |palette| > 0
    ensures forall j :: 0 <= j && j + |palette| < |Drawn(routes)| ==>
      MapShapes(routes, palette, proj, lineWidth)[j].stroke == MapShapes(routes, palette, proj, lineWidth)[j + |palette|].stroke
  {
    var shapes, n := MapShapes(routes, palette, proj, lineWidth), |palette|;
    forall j | 0 <= j && j + n < |shapes| ensures shapes[j].stroke == shapes[j + n].stroke {
      ModPeriod(j, n);
    }
  }

  /** Neighbouring lines differ in colour when the palette has more than one
      colour and no colour twice. */
  lemma MapShapesNeighbours(routes: seq<BusLine>, palette: seq<Color>, proj: Coordinates -> Point, lineWidth: real)
    requires |palette| > 1 && forall a, b :: 0 <= a < b < |palette| ==> palette[a] != palette[b]
    ensures forall j :: 0 <= j && j + 1 < |Drawn(routes)| ==>
      MapShapes(routes, palette, proj, lineWidth)[j].stroke != MapShapes(routes, palette, proj, lineWidth)[j + 1].stroke
  {
    var shapes, n := MapShapes(routes, palette, proj, lineWidth), |palette|;
    forall j | 0 <= j && j + 1 < |shapes| ensures shapes[j].stroke != shapes[j + 1].stroke {
      NextIndex(j, n);
    }
  }

  lemma ModPeriod(j: nat, n: nat)
    requires n > 0
    ensures (j + n) % n == j % n
  {
    ModUnique(j + n, n, j / n + 1, j % n);
  }

  /** `RenderRoute`: a polyline with fill "none", the colour, the line width,
      round caps and joins, and the projection of each stop in order, added
      to the document. */
  method RenderRoute(route: BusLine, proj: Coordinates -> Point, color: Color, lineWidth: real, doc: Document)
    modifies doc
    ensures doc.shapes == old(doc.shapes) + [RouteShape(route, proj, color, lineWidth)]
  {
    var p := new Polyline();
    p.props.SetFillColor(NONE_COLOR);
    p.props.SetStrokeColor(color);
    p.props.SetStrokeWidth(lineWidth);
    p.props.SetStrokeLineCap(RoundCap);
    p.props.SetStrokeLineJoin(RoundJoin);
    ghost var points := RouteShape(route, proj, color, lineWidth).points;
    var k := 0;
    while k < |route.stops|
      invariant 0 <= k <= |route.stops|
      invariant doc.shapes == old(doc.shapes)
      invariant p.points == points[..k]
      invariant p.props.fill == Some(NONE_COLOR) && p.props.stroke == Some(color) && p.props.strokeWidth == Some(lineWidth)
      invariant p.props.lineCap == Some(RoundCap) && p.props.lineJoin == Some(RoundJoin)
    {
      p.AddPoint(proj(route.stops[k]));
      assert points[..k + 1] == points[..k] + [points[k]];
      k := k + 1;
    }
    assert points[..k] == points;
    doc.Add(p);
  }

  /** `RenderMap`: each route with stops, in order, takes the next colour
      and is drawn. With an empty palette the first such route makes
      `GetColor` throw. */
  method RenderMap(routes: seq<BusLine>, palette: seq<Color>, proj: Coordinates -> Point, lineWidth: real)
    returns (r: Result<Document>)
    ensures r.Failure? <==> |palette| == 0 && Drawn(routes) != []
    ensures r.Failure? ==> r.error == OutOfRange
    ensures r.Success? && |palette| > 0 ==> fresh(r.value) && r.value.shapes == MapShapes(routes, palette, proj, lineWidth)
    ensures r.Success? && |palette| == 0 ==> fresh(r.value) && r.value.shapes == []
  {
    var doc := new Document();
    var picker := new ColorPalettePicker(palette);
    var i := 0;
    while i < |routes|
      invariant 0 <= i <= |routes|
      invariant fresh(doc) && fresh(picker) && picker.Valid() && picker.palette == palette
      invariant picker.calls == |Drawn(routes[..i])|
      invariant |palette| > 0 ==> doc.shapes == MapShapes(routes[..i], palette, proj, lineWidth)
      invariant |palette| == 0 ==> Drawn(routes[..i]) == [] && doc.shapes == []
    {
      assert routes[..i + 1][..i] == routes[..i];
      if routes[i].stops != [] {
        var color := picker.GetColor();
        if color.Failure? {
          DrawnGrows(routes, i + 1);
          return Failure(color.error);
        }
        RenderRoute(routes[i], proj, color.value, lineWidth, doc);
        MapShapesStep(routes, i, palette, proj, lineWidth);
      }
      i := i + 1;
    }
    assert routes[..i] == routes;
    return Success(doc);
  }

  /** A drawn route among the first `i` stays drawn among all routes. */
  lemma {:induction false} DrawnGrows(routes: seq<BusLine>, i: nat)
    requires 0 < i <= |routes| && routes[i - 1].stops != []
    ensures Drawn(routes) != []
  {
    DrawnExactly(routes);
    assert routes[i - 1] in routes;
    assert routes[i - 1] in Drawn(routes);
  }

  /** One more route: drawn with the next colour when it has stops. */
  lemma MapShapesStep(routes: seq<BusLine>, i: nat, palette: seq<Color>, proj: Coordinates -> Point, lineWidth: real)
    requires i < |routes| && |palette| > 0 && routes[i].stops != []
    ensures MapShapes(routes[..i + 1], palette, proj, lineWidth) ==
      MapShapes(routes[..i], palette, proj, lineWidth)
      + [RouteShape(routes[i], proj, palette[|Drawn(routes[..i])| % |palette|], lineWidth)]
    ensures |Drawn(routes[..i + 1])| == |Drawn(routes[..i])| + 1
  {
    assert routes[..i + 1][..i] == routes[..i];
    assert Drawn(routes[..i + 1]) == Drawn(routes[..i]) + [routes[i]];
  }
}
