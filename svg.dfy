/** The SVG writer (transport-catalogue/svg.h, transport-catalogue/svg.cpp):
    colours and their text, stroke styles, the indentation context, the
    optional path attributes shared by the shapes, polylines and text
    elements. Floating-point numbers are written by a formatter passed in
    as `number` (the source uses the stream's default formatting). */
module Svg {
  import opened Wrappers
  import opened Strings
  import opened InputReader

  // ---------------------------------------------------------------------
  // Colours

  /** A `uint8_t` channel. */
  type Byte = b: int | 0 <= b < 256

  /** The implicit conversion of an `int` channel to `uint8_t`: the value
      modulo 256. A channel in range is kept. */
  function Narrow(v: int): (b: Byte)
    ensures 0 <= v < 256 ==> b == v
    ensures (v - b) % 256 == 0
  {
    v % 256
  }

  datatype Point = Point(x: real, y: real)

  datatype Rgb = Rgb(red: Byte, green: Byte, blue: Byte)

  datatype Rgba = Rgba(red: Byte, green: Byte, blue: Byte, opacity: real)

  /** The `Rgb(int, int, int)` constructor: each channel narrowed. */
  function MakeRgb(red: int, green: int, blue: int): (c: Rgb)
    ensures 0 <= red < 256 && 0 <= green < 256 && 0 <= blue < 256 ==> c == Rgb(red, green, blue)
    ensures (red - c.red) % 256 == 0 && (green - c.green) % 256 == 0 && (blue - c.blue) % 256 == 0
  {
    Rgb(Narrow(red), Narrow(green), Narrow(blue))
  }

  /** The `Rgba(int, int, int, double)` constructor: each channel narrowed,
      the opacity kept. */
  function MakeRgba(red: int, green: int, blue: int, opacity: real): (c: Rgba)
    ensures 0 <= red < 256 && 0 <= green < 256 && 0 <= blue < 256 ==> c == Rgba(red, green, blue, opacity)
    ensures (red - c.red) % 256 == 0 && (green - c.green) % 256 == 0 && (blue - c.blue) % 256 == 0
    ensures c.opacity == opacity
  {
    Rgba(Narrow(red), Narrow(green), Narrow(blue), opacity)
  }

  /** `Color`: no colour (`std::monostate`), a named colour, or RGB(A). */
  datatype Color = NoColor | Named(name: string) | RgbColor(rgb: Rgb) | RgbaColor(rgba: Rgba)

  /** `NoneColor`: the colour named "none". */
  const NONE_COLOR: Color := Named("none")

  /** The channels of an RGB colour as decimal text, in order. */
  function Channels(c: Rgb): seq<string> {
    [IntToString(c.red), IntToString(c.green), IntToString(c.blue)]
  }

  /** `ColorPrinter`: "none", the name itself, "rgb(r,g,b)" or
      "rgba(r,g,b,opacity)". */
  function ColorText(c: Color, number: real -> string): string {
    match c
    case NoColor => "none"
    case Named(name) => name
    case RgbColor(rgb) => "rgb(" + Join(Channels(rgb), ",") + ")"
    case RgbaColor(rgba) =>
      "rgba(" + Join(Channels(Rgb(rgba.red, rgba.green, rgba.blue)), ",") + "," + number(rgba.opacity) + ")"
  }

  /** The text of an RGB colour reads back: between "rgb(" and ")", cutting
      at the commas gives three decimal numbers that `std::stoi` takes back
      to the channels. No colour prints as the "none" colour does. */
  lemma RgbTextReadBack(c: Rgb, number: real -> string)
    ensures ColorText(RgbColor(c), number) == "rgb(" + Join(Channels(c), ",") + ")"
    ensures Split(Join(Channels(c), ","), ",") == Channels(c)
    ensures Stoi(Channels(c)[0]) == Success(c.red as int)
    ensures Stoi(Channels(c)[1]) == Success(c.green as int)
    ensures Stoi(Channels(c)[2]) == Success(c.blue as int)
    ensures ColorText(NoColor, number) == ColorText(NONE_COLOR, number)
  {
    var parts := Channels(c);
    forall k | 0 <= k < 3 ensures ',' !in parts[k] {
      DigitsFree(parts[k], ',');
    }
    SplitJoined(parts, ",", 0);
    StoiOfIntToString(c.red);
    StoiOfIntToString(c.green);
    StoiOfIntToString(c.blue);
  }

  /** The decimal text of a channel is all digits. */
  lemma DigitsFree(s: string, c: char)
    requires AllDigits(s) && !IsDigit(c)
    ensures c !in s
  {
  }

  // ---------------------------------------------------------------------
  // Stroke styles

  datatype LineCap = Butt | RoundCap | Square

  datatype LineJoin = Arcs | Bevel | Miter | MiterClip | RoundJoin

  /** `operator<<(StrokeLineCap)`. */
  function CapText(cap: LineCap): string {
    match cap
    case Butt => "butt"
    case RoundCap => "round"
    case Square => "square"
  }

  /** `operator<<(StrokeLineJoin)`. */
  function JoinText(join: LineJoin): string {
    match join
    case Arcs => "arcs"
    case Bevel => "bevel"
    case Miter => "miter"
    case MiterClip => "miter-clip"
    case RoundJoin => "round"
  }

  /** The SVG keyword read back as a line cap. */
  function ParseCap(s: string): (r: Option<LineCap>)
    ensures r.Some? ==> CapText(r.value) == s
  {
    if s == "butt" then Some(Butt)
    else if s == "round" then Some(RoundCap)
    else if s == "square" then Some(Square)
    else None
  }

  /** The SVG keyword read back as a line join. */
  function ParseJoin(s: string): (r: Option<LineJoin>)
    ensures r.Some? ==> JoinText(r.value) == s
  {
    if s == "arcs" then Some(Arcs)
    else if s == "bevel" then Some(Bevel)
    else if s == "miter" then Some(Miter)
    else if s == "miter-clip" then Some(MiterClip)
    else if s == "round" then Some(RoundJoin)
    else None
  }

  /** Each style is written as its own keyword: the keywords read back to the
      style, so no two styles share one. */
  lemma StyleTextsReadBack(cap: LineCap, join: LineJoin)
    ensures ParseCap(CapText(cap)) == Some(cap)
    ensures ParseJoin(JoinText(join)) == Some(join)
  {
    match cap
    case Butt =>
    case RoundCap => assert CapText(cap) != "butt";
    case Square => assert CapText(cap) != "butt" && CapText(cap) != "round";
    match join
    case Arcs =>
    case Bevel => assert JoinText(join) != "arcs";
    case Miter => assert JoinText(join) != "arcs" && JoinText(join) != "bevel";
    case MiterClip =>
      assert JoinText(join) != "arcs" && JoinText(join) != "bevel" && JoinText(join) != "miter";
    case RoundJoin =>
      assert JoinText(join) != "arcs" && JoinText(join) != "bevel" && JoinText(join) != "miter";
      assert JoinText(join) != "miter-clip";
  }

  // ---------------------------------------------------------------------
  // RenderContext

  /** The indentation state of a render; the output stream is the text each
      render step returns. */
  datatype RenderContext = RenderContext(indentStep: Int32, indent: Int32) {
    /** `Indented`: the same step, one step further in. The `int` sum must
        not overflow. */
    function Indented(): (r: RenderContext)
      requires INT_MIN <= indent + indentStep <= INT_MAX
      ensures r.indentStep == indentStep && r.indent - indent == indentStep
    {
      RenderContext(indentStep, indent + indentStep)
    }
  }

  /** A context indented `k` times: `k` steps further in, the same step. */
  function IndentedTimes(ctx: RenderContext, k: nat): (r: RenderContext)
    requires 0 <= ctx.indentStep && 0 <= ctx.indent && ctx.indent + k * ctx.indentStep <= INT_MAX
    ensures r.indentStep == ctx.indentStep && r.indent == ctx.indent + k * ctx.indentStep
  {
    if k == 0 then ctx
    else
      IndentedLess(ctx, k);
      IndentedTimes(ctx, k - 1).Indented()
  }

  /** Fewer steps stay in range, and one more step is `k` steps. */
  lemma IndentedLess(ctx: RenderContext, k: nat)
    requires 0 <= ctx.indentStep && 0 <= ctx.indent && ctx.indent + k * ctx.indentStep <= INT_MAX && k > 0
    ensures ctx.indent + (k - 1) * ctx.indentStep <= ctx.indent + k * ctx.indentStep
    ensures ctx.indent + (k - 1) * ctx.indentStep + ctx.indentStep == ctx.indent + k * ctx.indentStep
  {
  }

  /** `RenderIndent`: one space per unit of indent, none for a negative one. */
  method RenderIndent(ctx: RenderContext) returns (out: string)
    ensures out == Repeat(' ', if ctx.indent > 0 then ctx.indent else 0)
  {
    out := "";
    var i := 0;
    while i < ctx.indent
      invariant 0 <= i && (ctx.indent > 0 ==> i <= ctx.indent) && (ctx.indent <= 0 ==> i == 0)
      invariant out == Repeat(' ', i)
    {
      out := out + [' '];
      i := i + 1;
    }
  }

  // ---------------------------------------------------------------------
  // PathProps

  /** The attributes RenderAttrs may write, in the order it writes them. */
  datatype AttributeKind = Fill | Stroke | StrokeWidth | StrokeLineCap | StrokeLineJoin {
    function Name(): string {
      match this
      case Fill => "fill"
      case Stroke => "stroke"
      case StrokeWidth => "stroke-width"
      case StrokeLineCap => "stroke-linecap"
      case StrokeLineJoin => "stroke-linejoin"
    }

    function Rank(): nat {
      match this
      case Fill => 0
      case Stroke => 1
      case StrokeWidth => 2
      case StrokeLineCap => 3
      case StrokeLineJoin => 4
    }
  }

  /** A written attribute: ` name="value"`. */
  datatype Attribute = Attribute(kind: AttributeKind, value: string)

  function AttributeText(a: Attribute): string {
    " " + a.kind.Name() + "=\"" + a.value + "\""
  }

  function AttributesText(attrs: seq<Attribute>): string {
    if attrs == [] then "" else AttributesText(attrs[..|attrs| - 1]) + AttributeText(attrs[|attrs| - 1])
  }

  /** An optional attribute: present exactly when its value is. */
  function Optional(kind: AttributeKind, value: Option<string>): (r: seq<Attribute>)
    ensures |r| <= 1 && (r != [] <==> value.Some?)
    ensures value.Some? ==> r == [Attribute(kind, value.value)]
  {
    if value.Some? then [Attribute(kind, value.value)] else []
  }

  /** The attributes come in the fixed order, each kind at most once. */
  predicate Ordered(attrs: seq<Attribute>) {
    forall i, j :: 0 <= i < j < |attrs| ==> attrs[i].kind.Rank() < attrs[j].kind.Rank()
  }

  /** Attributes all below a rank, followed by attributes all at or above
      it, stay in order. */
  lemma OrderedConcat(a: seq<Attribute>, b: seq<Attribute>, bound: nat)
    requires Ordered(a) && Ordered(b)
    requires forall x :: x in a ==> x.kind.Rank() < bound
    requires forall y :: y in b ==> y.kind.Rank() >= bound
    ensures Ordered(a + b)
    ensures forall x :: x in a + b ==> x in a || x in b
  {
    forall i, j | 0 <= i < j < |a + b| ensures (a + b)[i].kind.Rank() < (a + b)[j].kind.Rank() {
      if j < |a| {
      } else if i < |a| {
        assert (a + b)[i] in a && (a + b)[j] in b;
      } else {
        assert (a + b)[i] == b[i - |a|] && (a + b)[j] == b[j - |a|];
      }
    }
  }

  /** The optional fill and stroke of a shape (`PathProps`), each unset
      until its setter is called. */
  class PathProps {
    var fill: Option<Color>
    var stroke: Option<Color>
    var strokeWidth: Option<real>
    var lineCap: Option<LineCap>
    var lineJoin: Option<LineJoin>

    constructor()
      ensures fill.None? && stroke.None? && strokeWidth.None? && lineCap.None? && lineJoin.None?
    {
      fill, stroke, strokeWidth, lineCap, lineJoin := None, None, None, None, None;
    }

    method SetFillColor(color: Color)
      modifies this
      ensures fill == Some(color)
      ensures stroke == old(stroke) && strokeWidth == old(strokeWidth) && lineCap == old(lineCap) && lineJoin == old(lineJoin)
    {
      fill := Some(color);
    }

    method SetStrokeColor(color: Color)
      modifies this
      ensures stroke == Some(color)
      ensures fill == old(fill) && strokeWidth == old(strokeWidth) && lineCap == old(lineCap) && lineJoin == old(lineJoin)
    {
      stroke := Some(color);
    }

    method SetStrokeWidth(width: real)
      modifies this
      ensures strokeWidth == Some(width)
      ensures fill == old(fill) && stroke == old(stroke) && lineCap == old(lineCap) && lineJoin == old(lineJoin)
    {
      strokeWidth := Some(width);
    }

    method SetStrokeLineCap(cap: LineCap)
      modifies this
      ensures lineCap == Some(cap)
      ensures fill == old(fill) && stroke == old(stroke) && strokeWidth == old(strokeWidth) && lineJoin == old(lineJoin)
    {
      lineCap := Some(cap);
    }

    method SetStrokeLineJoin(join: LineJoin)
      modifies this
      ensures lineJoin == Some(join)
      ensures fill == old(fill) && stroke == old(stroke) && strokeWidth == old(strokeWidth) && lineCap == old(lineCap)
    {
      lineJoin := Some(join);
    }

    /** The text of each attribute's value, when it is set, by rank. */
    function Values(number: real -> string): (r: seq<Option<string>>)
      reads this
      ensures |r| == 5
    {
      [ if fill.Some? then Some(ColorText(fill.value, number)) else None,
        if stroke.Some? then Some(ColorText(stroke.value, number)) else None,
        if strokeWidth.Some? then Some(number(strokeWidth.value)) else None,
        if lineCap.Some? then Some(CapText(lineCap.value)) else None,
        if lineJoin.Some? then Some(JoinText(lineJoin.value)) else None ]
    }

    /** The attributes RenderAttrs writes. */
    function Attributes(number: real -> string): (r: seq<Attribute>)
      reads this
    {
      AttributeList(Values(number))
    }

    /** `RenderAttrs`: the set attributes, in order. */
    function RenderAttrs(number: real -> string): (r: string)
      reads this
    {
      AttributesText(Attributes(number))
    }
  }

  /** The attributes for the values `v`, indexed by rank. */
  function AttributeList(v: seq<Option<string>>): (r: seq<Attribute>)
    requires |v| == 5
  {
    Optional(Fill, v[0]) + (Optional(Stroke, v[1]) + (Optional(StrokeWidth, v[2])
      + (Optional(StrokeLineCap, v[3]) + Optional(StrokeLineJoin, v[4]))))
  }

  /** The attributes come in the fixed order. */
  lemma AttributeListOrdered(v: seq<Option<string>>)
    requires |v| == 5
    ensures Ordered(AttributeList(v))
  {
    var p0, p1, p2 := Optional(Fill, v[0]), Optional(Stroke, v[1]), Optional(StrokeWidth, v[2]);
    var p3, p4 := Optional(StrokeLineCap, v[3]), Optional(StrokeLineJoin, v[4]);
    OrderedConcat(p3, p4, 4);
    var q3 := p3 + p4;
    assert forall y: Attribute :: y in q3 ==> y.kind.Rank() >= 3;
    OrderedConcat(p2, q3, 3);
    var q2 := p2 + q3;
    assert forall y: Attribute :: y in q2 ==> y.kind.Rank() >= 2;
    OrderedConcat(p1, q2, 2);
    var q1 := p1 + q2;
    assert forall y: Attribute :: y in q1 ==> y.kind.Rank() >= 1;
    OrderedConcat(p0, q1, 1);
  }

  /** Only set attributes are written, each with its own value. */
  lemma AttributeListSound(v: seq<Option<string>>)
    requires |v| == 5
    ensures forall a :: a in AttributeList(v) ==> v[a.kind.Rank()] == Some(a.value)
  {
    var p0, p1, p2 := Optional(Fill, v[0]), Optional(Stroke, v[1]), Optional(StrokeWidth, v[2]);
    var p3, p4 := Optional(StrokeLineCap, v[3]), Optional(StrokeLineJoin, v[4]);
    forall a | a in AttributeList(v) ensures v[a.kind.Rank()] == Some(a.value) {
      assert a in p0 || a in p1 || a in p2 || a in p3 || a in p4;
    }
  }

  /** Every set attribute is written; with nothing set nothing is written. */
  lemma AttributeListComplete(v: seq<Option<string>>)
    requires |v| == 5
    ensures forall kind: AttributeKind :: v[kind.Rank()].Some? ==> Attribute(kind, v[kind.Rank()].value) in AttributeList(v)
    ensures (forall k :: 0 <= k < 5 ==> v[k].None?) ==> AttributesText(AttributeList(v)) == ""
  {
    var p0, p1, p2 := Optional(Fill, v[0]), Optional(Stroke, v[1]), Optional(StrokeWidth, v[2]);
    var p3, p4 := Optional(StrokeLineCap, v[3]), Optional(StrokeLineJoin, v[4]);
    assert AttributeList(v) == p0 + (p1 + (p2 + (p3 + p4)));
    forall kind: AttributeKind | v[kind.Rank()].Some?
      ensures Attribute(kind, v[kind.Rank()].value) in AttributeList(v)
    {
      match kind
      case Fill => assert Attribute(kind, v[0].value) in p0;
      case Stroke => assert Attribute(kind, v[1].value) in p1;
      case StrokeWidth => assert Attribute(kind, v[2].value) in p2;
      case StrokeLineCap => assert Attribute(kind, v[3].value) in p3;
      case StrokeLineJoin => assert Attribute(kind, v[4].value) in p4;
    }
  }

  // ---------------------------------------------------------------------
  // Polyline

  function PointText(p: Point, number: real -> string): string {
    number(p.x) + "," + number(p.y)
  }

  function PointTexts(points: seq<Point>, number: real -> string): (r: seq<string>)
    ensures |r| == |points| && forall k :: 0 <= k < |points| ==> r[k] == PointText(points[k], number)
  {
    seq(|points|, k requires 0 <= k < |points| => PointText(points[k], number))
  }

  /** The element a polyline writes: an empty one without attributes, or the
      points, separated by single spaces, followed by the attributes. */
  function PolylineText(points: seq<Point>, attrs: string, number: real -> string): string {
    if points == [] then "<polyline points=\"\" />"
    else "<polyline points=\"" + Join(PointTexts(points, number), " ") + "\"" + attrs + "/>"
  }

  /** The points of a polyline read back: when the number texts hold no
      space and no comma, cutting the points text at the spaces gives one
      piece per point, and each piece cut at its comma gives the point's
      coordinates. */
  lemma PointsReadBack(points: seq<Point>, number: real -> string)
    requires |points| >= 1
    requires forall v: real :: ' ' !in number(v) && ',' !in number(v)
    ensures |Split(Join(PointTexts(points, number), " "), " ")| == |points|
    ensures forall k :: 0 <= k < |points| ==>
      Split(Split(Join(PointTexts(points, number), " "), " ")[k], ",") == [number(points[k].x), number(points[k].y)]
  {
    var texts := PointTexts(points, number);
    forall k | 0 <= k < |texts| ensures ' ' !in texts[k] {
      assert ' ' !in ",";
      FreeAppend(number(points[k].x), ",", ' ');
      FreeAppend(number(points[k].x) + ",", number(points[k].y), ' ');
    }
    SplitJoined(texts, " ", 0);
    forall k | 0 <= k < |points| ensures Split(texts[k], ",") == [number(points[k].x), number(points[k].y)] {
      var pair := [number(points[k].x), number(points[k].y)];
      assert Join(pair, ",") == texts[k] by {
        assert pair[1..] == [number(points[k].y)];
      }
      SplitJoined(pair, ",", 0);
    }
  }

  /** `Polyline`: its path attributes and its points. */
  class Polyline {
    const props: PathProps
    var points: seq<Point>

    constructor()
      ensures fresh(props) && points == []
      ensures props.fill.None? && props.stroke.None? && props.strokeWidth.None?
      ensures props.lineCap.None? && props.lineJoin.None?
    {
      props := new PathProps();
      points := [];
    }

    /** `AddPoint`: appends a point. */
    method AddPoint(point: Point)
      modifies this
      ensures points == old(points) + [point]
    {
      points := points + [point];
    }

    /** `RenderObject`: the opening, the first point, each further point
        after a space, the closing quote and the attributes. */
    method RenderObject(number: real -> string) returns (out: string)
      ensures out == PolylineText(points, props.RenderAttrs(number), number)
    {
      out := "<polyline points=\"";
      if points == [] {
        return out + "\" />";
      }
      ghost var texts := PointTexts(points, number);
      var list := PointText(points[0], number);
      var k := 1;
      assert Join(texts[..1], " ") == list;
      while k != |points|
        invariant 1 <= k <= |points|
        invariant list == Join(texts[..k], " ")
        decreases |points| - k
      {
        assert texts[..k + 1] == texts[..k] + [texts[k]];
        JoinSnoc(texts[..k], texts[k], " ");
        list := list + " " + PointText(points[k], number);
        k := k + 1;
      }
      assert texts[..k] == texts;
      out := out + list + "\"" + props.RenderAttrs(number) + "/>";
    }
  }

  /** What a document keeps of a polyline: its points and its attributes. */
  datatype Shape = Shape(points: seq<Point>, fill: Option<Color>, stroke: Option<Color>,
                         strokeWidth: Option<real>, lineCap: Option<LineCap>, lineJoin: Option<LineJoin>)

  /** `Document`: the objects added to it, in order. */
  class Document {
    var shapes: seq<Shape>

    constructor()
      ensures shapes == []
    {
      shapes := [];
    }

    /** `Add`: the polyline is moved into the document, which keeps its
        current points and attributes. */
    method Add(p: Polyline)
      modifies this
      ensures shapes == old(shapes) + [Shape(p.points, p.props.fill, p.props.stroke, p.props.strokeWidth,
                                             p.props.lineCap, p.props.lineJoin)]
    {
      shapes := shapes + [Shape(p.points, p.props.fill, p.props.stroke, p.props.strokeWidth,
                                p.props.lineCap, p.props.lineJoin)];
    }
  }

  // ---------------------------------------------------------------------
  // Text data

  /** Every `symbol` of `s` replaced by `changeTo`. */
  function ReplaceAll(s: string, symbol: char, changeTo: string): string {
    if s == [] then ""
    else (if s[0] == symbol then changeTo else [s[0]]) + ReplaceAll(s[1..], symbol, changeTo)
  }

  lemma {:induction false} ReplaceAllAppend(a: string, b: string, symbol: char, changeTo: string)
    ensures ReplaceAll(a + b, symbol, changeTo) == ReplaceAll(a, symbol, changeTo) + ReplaceAll(b, symbol, changeTo)
    decreases |a|
  {
    if a != [] {
      assert (a + b)[1..] == a[1..] + b;
      ReplaceAllAppend(a[1..], b, symbol, changeTo);
    } else {
      assert a + b == b;
    }
  }

  /** Text without the symbol is left as it is. */
  lemma {:induction false} ReplaceAllAbsent(s: string, symbol: char, changeTo: string)
    requires symbol !in s
    ensures ReplaceAll(s, symbol, changeTo) == s
    decreases |s|
  {
    if s != [] {
      ReplaceAllAbsent(s[1..], symbol, changeTo);
    }
  }

  /** A character that is neither in the text nor in the replacement is not
      in the result; nor is the symbol itself when the replacement lacks it. */
  lemma {:induction false} ReplaceAllFree(s: string, symbol: char, changeTo: string, c: char)
    requires c !in changeTo && (c == symbol || c !in s)
    ensures c !in ReplaceAll(s, symbol, changeTo)
    decreases |s|
  {
    if s != [] {
      ReplaceAllFree(s[1..], symbol, changeTo, c);
    }
  }

  /** The number of times `c` occurs in `s`. */
  function Occurrences(s: string, c: char): nat {
    multiset(s)[c]
  }

  /** `Text::ChangeSymbol` as written: while the symbol is found, the first
      one is replaced. The loop ends only if the replacement lacks the symbol
      or the text never had it (ChangeTimes shows the other case). */
  method ChangeSymbol(data: string, symbol: char, changeTo: string) returns (r: string)
    requires symbol !in changeTo || symbol !in data
    ensures r == ReplaceAll(data, symbol, changeTo)
    ensures symbol !in r
  {
    r := data;
    var found := Find(r, [symbol]);
    ContainsChar(r, symbol);
    while found.Some?
      invariant ReplaceAll(r, symbol, changeTo) == ReplaceAll(data, symbol, changeTo)
      invariant found == Find(r, [symbol]) && (found.Some? <==> symbol in r)
      invariant symbol in r ==> symbol !in changeTo
      decreases Occurrences(r, symbol)
    {
      var pos := found.value;
      FoundChar(r, symbol, pos);
      var next := r[..pos] + changeTo + r[pos + 1..];
      ReplaceStep(r, pos, symbol, changeTo);
      r := next;
      found := Find(r, [symbol]);
      ContainsChar(r, symbol);
    }
    ReplaceAllAbsent(r, symbol, changeTo);
  }

  /** A match of a one-character pattern is that character. */
  lemma FoundChar(s: string, c: char, i: nat)
    requires OccursAt(s, [c], i)
    ensures i < |s| && s[i] == c && s == s[..i] + [c] + s[i + 1..]
  {
    assert s[i..i + 1] == [c];
  }

  /** Replacing one symbol keeps the fully replaced text and, when the
      replacement lacks the symbol, removes one occurrence. */
  lemma ReplaceStep(r: string, pos: nat, symbol: char, changeTo: string)
    requires pos < |r| && r[pos] == symbol && r == r[..pos] + [symbol] + r[pos + 1..] && symbol !in changeTo
    ensures ReplaceAll(r[..pos] + changeTo + r[pos + 1..], symbol, changeTo) == ReplaceAll(r, symbol, changeTo)
    ensures Occurrences(r[..pos] + changeTo + r[pos + 1..], symbol) < Occurrences(r, symbol)
  {
    var a, b := r[..pos], r[pos + 1..];
    ReplaceAllAppend(a + changeTo, b, symbol, changeTo);
    ReplaceAllAppend(a, changeTo, symbol, changeTo);
    ReplaceAllAppend(a + [symbol], b, symbol, changeTo);
    ReplaceAllAppend(a, [symbol], symbol, changeTo);
    ReplaceAllAbsent(changeTo, symbol, changeTo);
    assert ReplaceAll([symbol], symbol, changeTo) == changeTo;
    assert multiset(changeTo)[symbol] == 0;
  }

  /** One pass of the source's loop: the first symbol replaced. */
  function ChangeOnce(s: string, symbol: char, changeTo: string): (r: string)
    requires symbol in s
    ensures |r| == |s| - 1 + |changeTo|
  {
    ContainsChar(s, symbol);
    var pos := Find(s, [symbol]).value;
    FoundChar(s, symbol, pos);
    s[..pos] + changeTo + s[pos + 1..]
  }

  /** The text after `n` passes of the source's loop when the replacement
      holds the symbol and the text has one, as `ChangeSymbol(data, '&',
      "&amp;")` in ProcessData for any text with an '&': after every number
      of passes the symbol is still found, so the loop never ends, and the
      text has grown by the passes. */
  function ChangeTimes(s: string, symbol: char, changeTo: string, n: nat): (r: string)
    requires symbol in s && symbol in changeTo
    ensures symbol in r
    ensures |r| == |s| + n * (|changeTo| - 1)
  {
    if n == 0 then s
    else
      var before := ChangeTimes(s, symbol, changeTo, n - 1);
      var r := ChangeOnce(before, symbol, changeTo);
      ChangeKeeps(before, symbol, changeTo);
      Grows(|s|, |before|, |r|, n, |changeTo| - 1);
      r
  }

  /** The replacement brings the symbol back. */
  lemma ChangeKeeps(s: string, symbol: char, changeTo: string)
    requires symbol in s && symbol in changeTo
    ensures symbol in ChangeOnce(s, symbol, changeTo)
  {
    ContainsChar(s, symbol);
    var pos := Find(s, [symbol]).value;
    FoundChar(s, symbol, pos);
    var m :| 0 <= m < |changeTo| && changeTo[m] == symbol;
    assert ChangeOnce(s, symbol, changeTo)[pos + m] == symbol;
  }

  lemma Grows(start: int, before: int, after: int, n: nat, grow: int)
    requires n > 0 && before == start + (n - 1) * grow && after == before + grow
    ensures after == start + n * grow
  {
  }

  /** The evidently intended ChangeSymbol: the search resumes after the text
      just put in, so a replacement holding the symbol is not replaced again. */
  method ChangeSymbolForward(data: string, symbol: char, changeTo: string) returns (r: string)
    ensures r == ReplaceAll(data, symbol, changeTo)
  {
    r := data;
    var from := 0;
    ghost var k := 0;
    var found := FindFrom(r, [symbol], from);
    while found.Some?
      invariant k <= |data| && from <= |r|
      invariant r == ReplaceAll(data[..k], symbol, changeTo) + data[k..]
      invariant from == |ReplaceAll(data[..k], symbol, changeTo)|
      invariant found == FindFrom(r, [symbol], from)
      decreases |data| - k
    {
      var pos := found.value;
      ghost var k' := k + (pos - from) + 1;
      ForwardStep(data, symbol, changeTo, k, r, from, pos);
      r := r[..pos] + changeTo + r[pos + 1..];
      k := k';
      from := pos + |changeTo|;
      found := FindFrom(r, [symbol], from);
    }
    ForwardEnd(data, symbol, changeTo, k, r, from);
  }

  /** Before the match found from `from`, the text has no symbol. */
  lemma GapFree(r: string, symbol: char, from: nat, pos: nat)
    requires from <= |r| && FindFrom(r, [symbol], from) == Some(pos)
    ensures from <= pos < |r| && r[pos] == symbol && symbol !in r[from..pos]
  {
    FoundChar(r, symbol, pos);
    forall i | from <= i < pos ensures r[i] != symbol {
      assert !OccursAt(r, [symbol], i);
      assert r[i..i + 1] == [r[i]];
    }
  }

  lemma ForwardStep(data: string, symbol: char, changeTo: string, k: nat, r: string, from: nat, pos: nat)
    requires k <= |data| && from <= |r|
    requires r == ReplaceAll(data[..k], symbol, changeTo) + data[k..]
    requires from == |ReplaceAll(data[..k], symbol, changeTo)|
    requires FindFrom(r, [symbol], from) == Some(pos)
    ensures pos < |r| && k + (pos - from) + 1 <= |data|
    ensures r[..pos] + changeTo + r[pos + 1..] ==
      ReplaceAll(data[..k + (pos - from) + 1], symbol, changeTo) + data[k + (pos - from) + 1..]
    ensures pos + |changeTo| == |ReplaceAll(data[..k + (pos - from) + 1], symbol, changeTo)|
  {
    var done, rest := ReplaceAll(data[..k], symbol, changeTo), data[k..];
    GapFree(r, symbol, from, pos);
    var j := pos - from;
    SliceFacts(r, done, rest, pos);
    var gap := rest[..j];
    assert symbol !in gap;
    SplitAfter(data, k, j);
    ReplaceAllAppend(data[..k] + gap, [symbol], symbol, changeTo);
    ReplaceAllAppend(data[..k], gap, symbol, changeTo);
    ReplaceAllAbsent(gap, symbol, changeTo);
    assert ReplaceAll([symbol], symbol, changeTo) == changeTo;
  }

  /** Cutting `done + rest` at a position inside `rest`. */
  lemma SliceFacts(r: string, done: string, rest: string, pos: nat)
    requires r == done + rest && |done| <= pos < |r|
    ensures r[..pos] == done + rest[..pos - |done|]
    ensures r[pos + 1..] == rest[pos - |done| + 1..]
    ensures r[pos] == rest[pos - |done|] && r[|done|..pos] == rest[..pos - |done|]
  {
  }

  /** The prefix `j + 1` characters past `k`. */
  lemma SplitAfter(data: string, k: nat, j: nat)
    requires k + j < |data|
    ensures data[..k + j + 1] == data[..k] + data[k..][..j] + [data[k..][j]]
    ensures data[k + j + 1..] == data[k..][j + 1..]
  {
  }

  /** With no match from `from` on, the rest of the text has no symbol. */
  lemma RestFree(r: string, symbol: char, from: nat)
    requires from <= |r| && FindFrom(r, [symbol], from).None?
    ensures symbol !in r[from..]
  {
    forall i | from <= i < |r| ensures r[i] != symbol {
      assert !OccursAt(r, [symbol], i);
      assert r[i..i + 1] == [r[i]];
    }
  }

  lemma SplitAt(s: string, k: nat)
    requires k <= |s|
    ensures s[..k] + s[k..] == s
  {
  }

  lemma ForwardEnd(data: string, symbol: char, changeTo: string, k: nat, r: string, from: nat)
    requires k <= |data| && from <= |r|
    requires r == ReplaceAll(data[..k], symbol, changeTo) + data[k..]
    requires from == |ReplaceAll(data[..k], symbol, changeTo)|
    requires FindFrom(r, [symbol], from).None?
    ensures r == ReplaceAll(data, symbol, changeTo)
  {
    RestFree(r, symbol, from);
    var rest := data[k..];
    assert r[from..] == rest;
    ReplaceAllAbsent(rest, symbol, changeTo);
    ReplaceAllAppend(data[..k], rest, symbol, changeTo);
    SplitAt(data, k);
  }

  /** The five entity replacements of ProcessData, in its order. */
  function Escape(data: string): (r: string) {
    var amp := ReplaceAll(data, '&', "&amp;");
    var quot := ReplaceAll(amp, '"', "&quot;");
    var apos := ReplaceAll(quot, '\'', "&apos;");
    var lt := ReplaceAll(apos, '<', "&lt;");
    ReplaceAll(lt, '>', "&gt;")
  }

  /** Escaped text holds no quote, apostrophe or angle bracket, and text with
      none of the five special characters is left as it is. */
  lemma EscapeSafe(data: string)
    ensures '"' !in Escape(data) && '\'' !in Escape(data) && '<' !in Escape(data) && '>' !in Escape(data)
    ensures '&' !in data && '"' !in data && '\'' !in data && '<' !in data && '>' !in data ==> Escape(data) == data
  {
    var amp := ReplaceAll(data, '&', "&amp;");
    var quot := ReplaceAll(amp, '"', "&quot;");
    var apos := ReplaceAll(quot, '\'', "&apos;");
    var lt := ReplaceAll(apos, '<', "&lt;");
    ReplaceAllFree(amp, '"', "&quot;", '"');
    ReplaceAllFree(quot, '\'', "&apos;", '"');
    ReplaceAllFree(apos, '<', "&lt;", '"');
    ReplaceAllFree(lt, '>', "&gt;", '"');
    ReplaceAllFree(quot, '\'', "&apos;", '\'');
    ReplaceAllFree(apos, '<', "&lt;", '\'');
    ReplaceAllFree(lt, '>', "&gt;", '\'');
    ReplaceAllFree(apos, '<', "&lt;", '<');
    ReplaceAllFree(lt, '>', "&gt;", '<');
    ReplaceAllFree(lt, '>', "&gt;", '>');
    if '&' !in data && '"' !in data && '\'' !in data && '<' !in data && '>' !in data {
      ReplaceAllAbsent(data, '&', "&amp;");
      ReplaceAllAbsent(data, '"', "&quot;");
      ReplaceAllAbsent(data, '\'', "&apos;");
      ReplaceAllAbsent(data, '<', "&lt;");
      ReplaceAllAbsent(data, '>', "&gt;");
    }
  }

  /** `Text::ProcessData` as written: five ChangeSymbol passes. It only
      returns for text without '&'; on that text it escapes as intended. */
  method ProcessDataAsWritten(data: string) returns (r: string)
    requires '&' !in data
    ensures r == Escape(data)
  {
    r := ChangeSymbol(data, '&', "&amp;");
    r := ChangeSymbol(r, '"', "&quot;");
    r := ChangeSymbol(r, '\'', "&apos;");
    r := ChangeSymbol(r, '<', "&lt;");
    r := ChangeSymbol(r, '>', "&gt;");
  }

  /** The evidently intended ProcessData: the same five passes, each resuming
      its search after the entity it wrote. */
  method ProcessData(data: string) returns (r: string)
    ensures r == Escape(data)
    ensures '"' !in r && '\'' !in r && '<' !in r && '>' !in r
  {
    EscapeSafe(data);
    r := ChangeSymbolForward(data, '&', "&amp;");
    r := ChangeSymbolForward(r, '"', "&quot;");
    r := ChangeSymbolForward(r, '\'', "&apos;");
    r := ChangeSymbolForward(r, '<', "&lt;");
    r := ChangeSymbolForward(r, '>', "&gt;");
  }

  // ---------------------------------------------------------------------
  // Text

  /** An optional font attribute: written only for a non-empty value. */
  function FontAttribute(name: string, value: string): (r: string)
    ensures r == "" <==> value == ""
  {
    if value == "" then "" else " " + name + "=\"" + value + "\""
  }

  /** `Text`: path attributes, position, offset, font and the escaped text. */
  class Text {
    const props: PathProps
    var pos: Point
    var offset: Point
    var size: nat
    var fontFamily: string
    var fontWeight: string
    var data: string

    /** The stored text is always escaped. */
    predicate Valid()
      reads this
    {
      '"' !in data && '\'' !in data && '<' !in data && '>' !in data
    }

    constructor()
      ensures Valid() && fresh(props)
      ensures pos == Point(0.0, 0.0) && offset == Point(0.0, 0.0) && size == 1
      ensures fontFamily == "" && fontWeight == "" && data == ""
    {
      props := new PathProps();
      pos, offset, size := Point(0.0, 0.0), Point(0.0, 0.0), 1;
      fontFamily, fontWeight, data := "", "", "";
    }

    method SetPosition(p: Point)
      modifies this
      ensures pos == p && offset == old(offset) && size == old(size) && data == old(data)
      ensures fontFamily == old(fontFamily) && fontWeight == old(fontWeight)
    {
      pos := p;
    }

    method SetOffset(p: Point)
      modifies this
      ensures offset == p && pos == old(pos) && size == old(size) && data == old(data)
      ensures fontFamily == old(fontFamily) && fontWeight == old(fontWeight)
    {
      offset := p;
    }

    /** `SetFontSize(uint32_t)`. */
    method SetFontSize(s: nat)
      requires s < 0x1_0000_0000
      modifies this
      ensures size == s && pos == old(pos) && offset == old(offset) && data == old(data)
      ensures fontFamily == old(fontFamily) && fontWeight == old(fontWeight)
    {
      size := s;
    }

    method SetFontFamily(family: string)
      modifies this
      ensures fontFamily == family && pos == old(pos) && offset == old(offset) && size == old(size)
      ensures data == old(data) && fontWeight == old(fontWeight)
    {
      fontFamily := family;
    }

    method SetFontWeight(weight: string)
      modifies this
      ensures fontWeight == weight && pos == old(pos) && offset == old(offset) && size == old(size)
      ensures data == old(data) && fontFamily == old(fontFamily)
    {
      fontWeight := weight;
    }

    /** `SetData`: stores the text escaped (with the intended ProcessData). */
    method SetData(text: string)
      modifies this
      ensures Valid() && data == Escape(text)
      ensures pos == old(pos) && offset == old(offset) && size == old(size)
      ensures fontFamily == old(fontFamily) && fontWeight == old(fontWeight)
    {
      data := ProcessData(text);
    }

    /** `RenderObject`: the attributes right after the tag name, then
        position, offset and size, the font attributes that are non-empty,
        and the text. The element's content is the escaped text alone. */
    function RenderObject(number: real -> string): (r: string)
      reads this, props
      requires Valid()
      ensures |r| >= |data| + 7 && r[|r| - |data| - 7..] == data + "</text>" && '<' !in data
      ensures fontFamily == "" && fontWeight == "" ==> r == Head(number) + ">" + data + "</text>"
    {
      Head(number) + FontAttribute("font-family", fontFamily) + FontAttribute("font-weight", fontWeight)
        + ">" + data + "</text>"
    }

    /** Everything up to the font size. */
    function Head(number: real -> string): string
      reads this, props
    {
      "<text" + props.RenderAttrs(number)
        + " x=\"" + number(pos.x) + "\" y=\"" + number(pos.y)
        + "\" dx=\"" + number(offset.x) + "\" dy=\"" + number(offset.y)
        + "\" font-size=\"" + NatToString(size) + "\""
    }
  }
}
