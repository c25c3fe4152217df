/**
 * Annotation geometry over the real numbers: the validator, and the shapes that a
 * drag makes.
 */
module Geometry {
  import opened Bytes

  // ----- the grid of four decimals

  function Min(a: real, b: real): real { if a < b then a else b }
  function Max(a: real, b: real): real { if a < b then b else a }
  function Abs(a: real): real { if a < 0.0 then -a else a }

  function Clamp(v: real): real { Min(1.0, Max(0.0, v)) }

  function Grid(n: int): real { n as real / 10000.0 }

  /** The step of the grid nearest to a number, the higher of two. */
  function Steps(v: real): int { (v * 10000.0 + 0.5).Floor }

  function Round(v: real): real { Grid(Steps(Clamp(v))) }

  predicate InRange(v: real) { 0.0 <= v <= 1.0 }

  lemma RoundIsNearest(v: real)
    ensures InRange(Round(v)) && 0 <= Steps(Clamp(v)) <= 10000
    ensures -0.00005 < Round(v) - Clamp(v) <= 0.00005
  {
    var c := Clamp(v);
    assert 0.5 <= c * 10000.0 + 0.5 <= 10000.5;
  }

  lemma RoundIsMonotone(a: real, b: real)
    requires a <= b
    ensures Round(a) <= Round(b)
  {
    assert Clamp(a) <= Clamp(b);
    assert Steps(Clamp(a)) <= Steps(Clamp(b));
  }

  lemma RoundKeepsGrid(n: int)
    requires 0 <= n <= 10000
    ensures Round(Grid(n)) == Grid(n)
  {
    assert Clamp(Grid(n)) == Grid(n);
    HalfIsDropped(n, Grid(n) * 10000.0);
  }

  lemma HalfIsDropped(n: int, v: real)
    requires v == n as real
    ensures (v + 0.5).Floor == n
  {
  }

  // ----- the validator

  datatype Shape = Rectangle | Ellipse | Arrow | PointMark | NumberedMarker | Freehand

  datatype Part = X | Y | Width | Height | X2 | Y2 | Rotation | Path

  const ALL_PARTS := [X, Y, Width, Height, X2, Y2, Rotation, Path]

  const MIN_PATH_POINTS := 2
  const MAX_PATH_POINTS := 128

  /** A value of a part, as far as the validator looks at it. NotFinite is a NaN or an infinity. */
  datatype Value =
    | Number(value: real)
    | NotFinite
    | Points(points: seq<Item>)
    | Foreign

  /** An entry of a path: an object with or without coordinates, and its other keys. */
  datatype Item = NotAnObject | Entry(x: Option<Value>, y: Option<Value>, others: seq<string>)

  type Geometry = map<Part, Value>

  datatype Code = Required | Forbidden | OutOfRange | Unreadable

  datatype Violation = Violation(part: Part, code: Code)

  function RequiredParts(s: Shape): set<Part>
  {
    match s
    case Rectangle => {X, Y, Width, Height}
    case Ellipse => {X, Y, Width, Height}
    case Arrow => {X, Y, X2, Y2}
    case PointMark => {X, Y}
    case NumberedMarker => {X, Y}
    case Freehand => {X, Y, Width, Height, Path}
  }

  function OptionalParts(s: Shape): set<Part>
  {
    if s == Rectangle || s == Ellipse then {Rotation} else {}
  }

  // what a valid geometry is

  predicate IsCoordinate(v: Value) { v.Number? && InRange(v.value) }

  predicate IsPathPoint(item: Item)
  {
    item.Entry? && item.others == [] &&
    item.x.Some? && IsCoordinate(item.x.value) && item.y.Some? && IsCoordinate(item.y.value)
  }

  predicate IsPath(v: Value)
  {
    && v.Points? && MIN_PATH_POINTS <= |v.points| <= MAX_PATH_POINTS
    && forall i | 0 <= i < |v.points| :: IsPathPoint(v.points[i])
  }

  predicate PartIsValid(s: Shape, g: Geometry, m: Part)
  {
    if m !in g then m !in RequiredParts(s)
    else
      && (m in RequiredParts(s) || m in OptionalParts(s))
      && (if m == Path then IsPath(g[m]) else IsCoordinate(g[m]))
  }

  predicate FitsBeside(g: Geometry, start: Part, size: Part)
  {
    start in g && size in g && g[start].Number? && g[size].Number? ==> g[start].value + g[size].value <= 1.0
  }

  predicate IsValid(s: Shape, g: Geometry)
  {
    && (forall m: Part :: PartIsValid(s, g, m))
    && (Width in RequiredParts(s) ==> FitsBeside(g, X, Width) && FitsBeside(g, Y, Height))
  }

  // the violations that are reported

  function CoordinateFaults(v: Option<Value>): seq<Violation>
  {
    if v.None? || !v.value.Number? then [Violation(Path, Unreadable)]
    else if !InRange(v.value.value) then [Violation(Path, OutOfRange)]
    else []
  }

  function OtherFaults(others: seq<string>): seq<Violation>
  {
    if others == [] then [] else OtherFaults(others[..|others| - 1]) + [Violation(Path, Forbidden)]
  }

  function ItemFaults(item: Item): seq<Violation>
  {
    match item
    case NotAnObject => [Violation(Path, Unreadable)]
    case Entry(x, y, others) => CoordinateFaults(x) + CoordinateFaults(y) + OtherFaults(others)
  }

  /** The faults of the first point that has any. */
  function PointsFaults(points: seq<Item>): seq<Violation>
  {
    if points == [] then []
    else if ItemFaults(points[0]) != [] then ItemFaults(points[0])
    else PointsFaults(points[1..])
  }

  function PathFaults(v: Value): seq<Violation>
  {
    if !v.Points? then [Violation(Path, Unreadable)]
    else if |v.points| < MIN_PATH_POINTS then [Violation(Path, Required)]
    else if |v.points| > MAX_PATH_POINTS then [Violation(Path, OutOfRange)]
    else PointsFaults(v.points)
  }

  function PartFaults(s: Shape, g: Geometry, m: Part): seq<Violation>
  {
    if m !in g then (if m in RequiredParts(s) then [Violation(m, Required)] else [])
    else if m !in RequiredParts(s) && m !in OptionalParts(s) then [Violation(m, Forbidden)]
    else if m == Path then PathFaults(g[m])
    else if !g[m].Number? then [Violation(m, Unreadable)]
    else if !InRange(g[m].value) then [Violation(m, OutOfRange)]
    else []
  }

  function PartsFaults(s: Shape, g: Geometry, parts: seq<Part>): seq<Violation>
  {
    if parts == [] then []
    else PartsFaults(s, g, parts[..|parts| - 1]) + PartFaults(s, g, parts[|parts| - 1])
  }

  /** 2^1024 - 2^970: a sum from here up is rounded to infinity. */
  function LeastOverflow(): real
  {
    var p32 := 4294967296.0;
    var p64 := p32 * p32;
    var p128 := p64 * p64;
    var p256 := p128 * p128;
    var p512 := p256 * p256;
    p512 * p512 - p512 * p256 * p128 * p64 * 1024.0
  }

  /** The box leaves the image by a finite sum. */
  predicate Leaves(g: Geometry, start: Part, size: Part)
  {
    && start in g && size in g && g[start].Number? && g[size].Number?
    && 1.0 < g[start].value + g[size].value < LeastOverflow()
  }

  function BoxFault(g: Geometry, start: Part, size: Part): seq<Violation>
  {
    if Leaves(g, start, size) then [Violation(size, OutOfRange)] else []
  }

  function Faults(s: Shape, g: Geometry): seq<Violation>
  {
    PartsFaults(s, g, ALL_PARTS) +
    (if Width in RequiredParts(s) then BoxFault(g, X, Width) + BoxFault(g, Y, Height) else [])
  }

  // ----- the loops of the validator

  method CheckPath(v: Value) returns (violations: seq<Violation>)
    ensures violations == PathFaults(v)
  {
    if !v.Points? {
      return [Violation(Path, Unreadable)];
    }
    if |v.points| < MIN_PATH_POINTS {
      return [Violation(Path, Required)];
    }
    if |v.points| > MAX_PATH_POINTS {
      return [Violation(Path, OutOfRange)];
    }
    violations := CheckPoints(v.points);
  }

  /** The loop of the path: it ends at the first point that has a fault. */
  method CheckPoints(points: seq<Item>) returns (violations: seq<Violation>)
    ensures violations == PointsFaults(points)
  {
    violations := [];
    var i := 0;
    assert points[0..] == points;
    while i < |points|
      invariant 0 <= i <= |points|
      invariant violations == [] && PointsFaults(points) == PointsFaults(points[i..])
    {
      violations := CheckItem(points[i]);
      NextPoint(points, i);
      if |violations| > 0 {
        return;
      }
      i := i + 1;
    }
  }

  lemma NextPoint(points: seq<Item>, i: nat)
    requires i < |points|
    ensures ItemFaults(points[i]) != [] ==> PointsFaults(points[i..]) == ItemFaults(points[i])
    ensures ItemFaults(points[i]) == [] ==> PointsFaults(points[i..]) == PointsFaults(points[i + 1..])
  {
    assert points[i..][0] == points[i] && points[i..][1..] == points[i + 1..];
  }

  method CheckItem(item: Item) returns (violations: seq<Violation>)
    ensures violations == ItemFaults(item)
  {
    if item.NotAnObject? {
      return [Violation(Path, Unreadable)];
    }
    violations := CheckCoordinate(item.x, []);
    violations := CheckCoordinate(item.y, violations);
    ghost var before := violations;
    for k := 0 to |item.others|
      invariant violations == before + OtherFaults(item.others[..k])
    {
      violations := violations + [Violation(Path, Forbidden)];
      assert item.others[..k + 1][..k] == item.others[..k];
    }
    assert item.others[..|item.others|] == item.others;
  }

  method CheckCoordinate(v: Option<Value>, before: seq<Violation>) returns (violations: seq<Violation>)
    ensures violations == before + CoordinateFaults(v)
  {
    violations := before;
    if v.None? || !v.value.Number? {
      return violations + [Violation(Path, Unreadable)];
    }
    if v.value.value < 0.0 || v.value.value > 1.0 {
      return violations + [Violation(Path, OutOfRange)];
    }
  }

  /** One turn of the loop over the parts. */
  method CheckPart(s: Shape, g: Geometry, m: Part) returns (violations: seq<Violation>)
    ensures violations == PartFaults(s, g, m)
  {
    var required, optional := RequiredParts(s), OptionalParts(s);
    if m in required && m !in g {
      return [Violation(m, Required)];
    }
    if m !in required && m !in optional && m in g {
      return [Violation(m, Forbidden)];
    }
    if m !in g {
      return [];
    }
    if m == Path {
      violations := CheckPath(g[m]);
      return;
    }
    if !g[m].Number? {
      return [Violation(m, Unreadable)];
    }
    if g[m].value < 0.0 || g[m].value > 1.0 {
      return [Violation(m, OutOfRange)];
    }
    return [];
  }

  method CheckGeometryForType(s: Shape, g: Geometry) returns (violations: seq<Violation>)
    ensures violations == Faults(s, g)
  {
    violations := [];
    for i := 0 to |ALL_PARTS|
      invariant violations == PartsFaults(s, g, ALL_PARTS[..i])
    {
      var faults := CheckPart(s, g, ALL_PARTS[i]);
      violations := violations + faults;
      assert ALL_PARTS[..i + 1][..i] == ALL_PARTS[..i];
    }
    assert ALL_PARTS[..|ALL_PARTS|] == ALL_PARTS;
    if Width in RequiredParts(s) && Height in RequiredParts(s) {
      if X in g && Width in g && g[X].Number? && g[Width].Number? &&
         g[X].value + g[Width].value < LeastOverflow() && g[X].value + g[Width].value > 1.0 {
        violations := violations + [Violation(Width, OutOfRange)];
      }
      if Y in g && Height in g && g[Y].Number? && g[Height].Number? &&
         g[Y].value + g[Height].value < LeastOverflow() && g[Y].value + g[Height].value > 1.0 {
        violations := violations + [Violation(Height, OutOfRange)];
      }
    }
  }

  // ----- nothing is reported exactly for a valid geometry

  lemma ItemIsExact(item: Item)
    ensures ItemFaults(item) == [] <==> IsPathPoint(item)
  {
  }

  lemma {:induction false} PointsAreExact(points: seq<Item>)
    ensures PointsFaults(points) == [] <==> forall i | 0 <= i < |points| :: IsPathPoint(points[i])
  {
    if points != [] {
      ItemIsExact(points[0]);
      PointsAreExact(points[1..]);
      assert points == [points[0]] + points[1..];
    }
  }

  lemma PartIsExact(s: Shape, g: Geometry, m: Part)
    ensures PartFaults(s, g, m) == [] <==> PartIsValid(s, g, m)
  {
    if m == Path && m in g && g[m].Points? {
      PointsAreExact(g[m].points);
    }
  }

  predicate AreValid(s: Shape, g: Geometry, parts: seq<Part>)
  {
    forall i | 0 <= i < |parts| :: PartIsValid(s, g, parts[i])
  }

  lemma OneMoreIsValid(s: Shape, g: Geometry, front: seq<Part>, last: Part)
    ensures AreValid(s, g, front + [last]) <==> AreValid(s, g, front) && PartIsValid(s, g, last)
  {
    var parts := front + [last];
    assert parts[|front|] == last && forall i | 0 <= i < |front| :: parts[i] == front[i];
  }

  lemma {:induction false} PartsAreExact(s: Shape, g: Geometry, parts: seq<Part>)
    ensures PartsFaults(s, g, parts) == [] <==> AreValid(s, g, parts)
  {
    if parts != [] {
      var front, last := parts[..|parts| - 1], parts[|parts| - 1];
      assert parts == front + [last];
      PartsAreExact(s, g, front);
      PartIsExact(s, g, last);
      OneMoreIsValid(s, g, front, last);
    }
  }

  lemma AllPartsAreListed(m: Part)
    ensures m in ALL_PARTS
  {
    assert m == ALL_PARTS[match m case X => 0 case Y => 1 case Width => 2 case Height => 3
                          case X2 => 4 case Y2 => 5 case Rotation => 6 case Path => 7];
  }

  lemma TwoIsFinite()
    ensures LeastOverflow() > 2.0
  {
  }

  /** With both members in range no sum overflows. */
  lemma InRangeFits(g: Geometry, start: Part, size: Part)
    requires start in g ==> g[start].Number? ==> InRange(g[start].value)
    requires size in g ==> g[size].Number? ==> InRange(g[size].value)
    ensures Leaves(g, start, size) <==> !FitsBeside(g, start, size)
  {
    TwoIsFinite();
  }

  lemma BoxIsExact(s: Shape, g: Geometry)
    requires Width in RequiredParts(s) && forall m: Part :: PartIsValid(s, g, m)
    ensures BoxFault(g, X, Width) + BoxFault(g, Y, Height) == [] <==> FitsBeside(g, X, Width) && FitsBeside(g, Y, Height)
  {
    assert PartIsValid(s, g, X) && PartIsValid(s, g, Y) && PartIsValid(s, g, Width) && PartIsValid(s, g, Height);
    InRangeFits(g, X, Width);
    InRangeFits(g, Y, Height);
  }

  lemma FaultsAreExact(s: Shape, g: Geometry)
    ensures Faults(s, g) == [] <==> IsValid(s, g)
  {
    PartsAreExact(s, g, ALL_PARTS);
    if AreValid(s, g, ALL_PARTS) {
      forall m: Part ensures PartIsValid(s, g, m) {
        AllPartsAreListed(m);
      }
      if Width in RequiredParts(s) {
        BoxIsExact(s, g);
      }
    }
  }

  // ----- drags

  datatype Point = Point(x: real, y: real)

  function GeometryForDrag(s: Shape, from: Point, to: Point): Geometry
  {
    if s == Arrow then
      map[X := Number(Round(from.x)), Y := Number(Round(from.y)), X2 := Number(Round(to.x)), Y2 := Number(Round(to.y))]
    else if s == PointMark || s == NumberedMarker then
      map[X := Number(Round(to.x)), Y := Number(Round(to.y))]
    else
      var x, y := Round(Min(from.x, to.x)), Round(Min(from.y, to.y));
      map[X := Number(x), Y := Number(y),
          Width := Number(Extent(from.x, to.x)), Height := Number(Extent(from.y, to.y))]
  }

  /** The rounded extent of a drag along an axis, kept inside the far edge. */
  function Extent(from: real, to: real): real
  {
    Round(Min(Abs(to - from), 1.0 - Round(Min(from, to))))
  }

  lemma ExtentFits(from: real, to: real)
    ensures InRange(Extent(from, to)) && Round(Min(from, to)) + Extent(from, to) <= 1.0
  {
    var start := Min(from, to);
    var n := Steps(Clamp(start));
    RoundIsNearest(start);
    var room := 1.0 - Round(start);
    assert room == Grid(10000 - n);
    RoundKeepsGrid(10000 - n);
    RoundIsMonotone(Min(Abs(to - from), room), room);
    RoundIsNearest(Min(Abs(to - from), room));
  }

  /** Whatever is dragged, even outside the image, is valid for every shape but a freehand stroke. */
  lemma DragIsValid(s: Shape, from: Point, to: Point)
    ensures Faults(s, GeometryForDrag(s, from, to)) == [] <==> s != Freehand
  {
    var g := GeometryForDrag(s, from, to);
    FaultsAreExact(s, g);
    match s {
      case Arrow =>
        RoundIsNearest(from.x);
        RoundIsNearest(from.y);
        RoundIsNearest(to.x);
        RoundIsNearest(to.y);
        ArrowIsValid(Round(from.x), Round(from.y), Round(to.x), Round(to.y));
      case PointMark =>
        RoundIsNearest(to.x);
        RoundIsNearest(to.y);
        PositionIsValid(s, Round(to.x), Round(to.y));
      case NumberedMarker =>
        RoundIsNearest(to.x);
        RoundIsNearest(to.y);
        PositionIsValid(s, Round(to.x), Round(to.y));
      case Freehand =>
        assert !PartIsValid(Freehand, g, Path);
      case _ =>
        RoundIsNearest(Min(from.x, to.x));
        RoundIsNearest(Min(from.y, to.y));
        ExtentFits(from.x, to.x);
        ExtentFits(from.y, to.y);
        BoxIsValid(s, Round(Min(from.x, to.x)), Round(Min(from.y, to.y)), Extent(from.x, to.x), Extent(from.y, to.y));
    }
  }

  lemma ArrowIsValid(x: real, y: real, x2: real, y2: real)
    requires InRange(x) && InRange(y) && InRange(x2) && InRange(y2)
    ensures IsValid(Arrow, map[X := Number(x), Y := Number(y), X2 := Number(x2), Y2 := Number(y2)])
  {
  }

  lemma PositionIsValid(s: Shape, x: real, y: real)
    requires s == PointMark || s == NumberedMarker
    requires InRange(x) && InRange(y)
    ensures IsValid(s, map[X := Number(x), Y := Number(y)])
  {
  }

  lemma BoxIsValid(s: Shape, x: real, y: real, width: real, height: real)
    requires s == Rectangle || s == Ellipse
    requires InRange(x) && InRange(y) && InRange(width) && InRange(height)
    requires x + width <= 1.0 && y + height <= 1.0
    ensures IsValid(s, map[X := Number(x), Y := Number(y), Width := Number(width), Height := Number(height)])
  {
  }

  /** Inside the image, the box that is recorded is the box that was dragged, to within a step of the grid. */
  lemma DragIsAccurate(s: Shape, from: Point, to: Point)
    requires s == Rectangle || s == Ellipse
    requires InRange(from.x) && InRange(to.x) && InRange(from.y) && InRange(to.y)
    ensures var g := GeometryForDrag(s, from, to);
            && Abs(g[X].value - Min(from.x, to.x)) <= 0.00005
            && Abs(g[Y].value - Min(from.y, to.y)) <= 0.00005
            && Abs(g[X].value + g[Width].value - Max(from.x, to.x)) <= 0.0001
            && Abs(g[Y].value + g[Height].value - Max(from.y, to.y)) <= 0.0001
    ensures GeometryForDrag(s, from, to) == GeometryForDrag(s, to, from)
  {
    EdgesAreAccurate(from.x, to.x);
    EdgesAreAccurate(from.y, to.y);
  }

  lemma EdgesAreAccurate(from: real, to: real)
    requires InRange(from) && InRange(to)
    ensures Abs(Round(Min(from, to)) - Min(from, to)) <= 0.00005
    ensures Abs(Round(Min(from, to)) + Extent(from, to) - Max(from, to)) <= 0.0001
    ensures Extent(from, to) == Extent(to, from)
  {
    var start := Min(from, to);
    RoundIsNearest(start);
    RoundIsNearest(Min(Abs(to - from), 1.0 - Round(start)));
  }

  // ----- rendered coordinates

  datatype Box = Box(x: real, y: real, width: real, height: real)

  function ContainedContentRectangle(width: real, height: real, contentWidth: real, contentHeight: real): Box
  {
    if width <= 0.0 || height <= 0.0 || contentWidth <= 0.0 || contentHeight <= 0.0 then Box(0.0, 0.0, 0.0, 0.0)
    else
      var scale := Min(width / contentWidth, height / contentHeight);
      var (w, h) := (contentWidth * scale, contentHeight * scale);
      Box((width - w) / 2.0, (height - h) / 2.0, w, h)
  }

  function ToRendered(p: Point, r: Box): Point
  {
    Point(r.x + p.x * r.width, r.y + p.y * r.height)
  }

  function ToNormalised(p: Point, r: Box): Point
  {
    if r.width <= 0.0 || r.height <= 0.0 then Point(0.0, 0.0)
    else Point((p.x - r.x) / r.width, (p.y - r.y) / r.height)
  }

  lemma DivideCancels(a: real, b: real)
    requires b > 0.0
    ensures a * b / b == a && a / b * b == a
  {
  }

  /** The two conversions undo each other in any rectangle that is not degenerate, and only there. */
  lemma ConversionsAreInverse(r: Box)
    ensures (forall p: Point :: ToNormalised(ToRendered(p, r), r) == p) <==> r.width > 0.0 && r.height > 0.0
    ensures r.width > 0.0 && r.height > 0.0 ==> forall p: Point :: ToRendered(ToNormalised(p, r), r) == p
  {
    if r.width > 0.0 && r.height > 0.0 {
      forall p: Point ensures ToNormalised(ToRendered(p, r), r) == p && ToRendered(ToNormalised(p, r), r) == p {
        DivideCancels(p.x, r.width);
        DivideCancels(p.y, r.height);
        DivideCancels(p.x - r.x, r.width);
        DivideCancels(p.y - r.y, r.height);
      }
    } else {
      var p := Point(1.0, 1.0);
      assert ToNormalised(ToRendered(p, r), r) != p;
    }
  }

  lemma ScaleDown(box: real, content: real, scale: real)
    requires content > 0.0 && scale <= box / content
    ensures content * scale <= box
    ensures scale == box / content ==> content * scale == box
  {
    DivideCancels(box, content);
    MultiplyKeepsOrder(scale, box / content, content);
  }

  lemma MultiplyKeepsOrder(a: real, b: real, c: real)
    requires a <= b && c >= 0.0
    ensures a * c <= b * c
  {
    assert (b - a) * c >= 0.0;
  }

  /** What it is to show an image of some size within a box: all of it, as large as it goes, centred, undistorted. */
  predicate IsContained(r: Box, width: real, height: real, contentWidth: real, contentHeight: real)
  {
    && 0.0 < r.width <= width && 0.0 < r.height <= height
    && (r.width == width || r.height == height)
    && r.x >= 0.0 && r.y >= 0.0
    && r.x + r.width + r.x == width && r.y + r.height + r.y == height
    && r.width * contentHeight == r.height * contentWidth
  }

  lemma RectangleIsContained(width: real, height: real, contentWidth: real, contentHeight: real)
    requires width > 0.0 && height > 0.0 && contentWidth > 0.0 && contentHeight > 0.0
    ensures IsContained(ContainedContentRectangle(width, height, contentWidth, contentHeight),
                        width, height, contentWidth, contentHeight)
  {
    var scale := Min(width / contentWidth, height / contentHeight);
    ScaleDown(width, contentWidth, scale);
    ScaleDown(height, contentHeight, scale);
    assert width / contentWidth > 0.0 && height / contentHeight > 0.0;
    Positive(contentWidth, scale);
    Positive(contentHeight, scale);
    assert contentWidth * scale * contentHeight == contentHeight * scale * contentWidth;
  }

  lemma Positive(a: real, b: real)
    requires a > 0.0 && b > 0.0
    ensures a * b > 0.0
  {
  }

  /** There is only one such rectangle. */
  lemma ContainedIsUnique(r: Box, q: Box, width: real, height: real, contentWidth: real, contentHeight: real)
    requires contentWidth > 0.0 && contentHeight > 0.0
    requires IsContained(r, width, height, contentWidth, contentHeight)
    requires IsContained(q, width, height, contentWidth, contentHeight)
    ensures r == q
  {
    NotNarrower(r, q, width, height, contentWidth, contentHeight);
    NotNarrower(q, r, width, height, contentWidth, contentHeight);
    SameProduct(r.height, q.height, contentWidth);
  }

  lemma SameProduct(a: real, b: real, c: real)
    requires c > 0.0 && a * c == b * c
    ensures a == b
  {
    assert (a - b) * c == 0.0;
  }

  lemma HeightFollows(r: Box, q: Box, contentWidth: real, contentHeight: real)
    requires contentWidth > 0.0 && contentHeight > 0.0 && r.width < q.width
    requires r.width * contentHeight == r.height * contentWidth && q.width * contentHeight == q.height * contentWidth
    ensures r.height < q.height
  {
    Positive(q.width - r.width, contentHeight);
    assert (q.height - r.height) * contentWidth > 0.0;
    SameSign(q.height - r.height, contentWidth);
  }

  lemma NotNarrower(r: Box, q: Box, width: real, height: real, contentWidth: real, contentHeight: real)
    requires contentWidth > 0.0 && contentHeight > 0.0
    requires IsContained(r, width, height, contentWidth, contentHeight)
    requires IsContained(q, width, height, contentWidth, contentHeight)
    ensures r.width >= q.width
  {
    if r.width < q.width {
      HeightFollows(r, q, contentWidth, contentHeight);
      assert false;
    }
  }

  /** A device pixel ratio multiplies both sizes of the content, and changes nothing. */
  lemma PixelRatioIsNeutral(width: real, height: real, contentWidth: real, contentHeight: real, ratio: real)
    requires ratio > 0.0
    ensures ContainedContentRectangle(width, height, contentWidth * ratio, contentHeight * ratio) ==
            ContainedContentRectangle(width, height, contentWidth, contentHeight)
  {
    SameSign(contentWidth, ratio);
    SameSign(contentHeight, ratio);
    if width > 0.0 && height > 0.0 && contentWidth > 0.0 && contentHeight > 0.0 {
      var r := ContainedContentRectangle(width, height, contentWidth * ratio, contentHeight * ratio);
      RectangleIsContained(width, height, contentWidth * ratio, contentHeight * ratio);
      RectangleIsContained(width, height, contentWidth, contentHeight);
      LargerIsContained(r, width, height, contentWidth, contentHeight, ratio);
      ContainedIsUnique(r, ContainedContentRectangle(width, height, contentWidth, contentHeight),
        width, height, contentWidth, contentHeight);
    }
  }

  lemma LargerIsContained(r: Box, width: real, height: real, contentWidth: real, contentHeight: real, ratio: real)
    requires ratio > 0.0
    ensures IsContained(r, width, height, contentWidth * ratio, contentHeight * ratio)
            ==> IsContained(r, width, height, contentWidth, contentHeight)
  {
    if IsContained(r, width, height, contentWidth * ratio, contentHeight * ratio) {
      RatioCancels(r.width, r.height, contentWidth, contentHeight, ratio);
    }
  }

  lemma SameSign(a: real, b: real)
    requires b > 0.0
    ensures a * b > 0.0 <==> a > 0.0
  {
    if a > 0.0 {
      Positive(a, b);
    } else {
      MultiplyKeepsOrder(a, 0.0, b);
    }
  }

  lemma RatioCancels(w: real, h: real, contentWidth: real, contentHeight: real, ratio: real)
    requires ratio > 0.0 && w * (contentHeight * ratio) == h * (contentWidth * ratio)
    ensures w * contentHeight == h * contentWidth
  {
    assert w * contentHeight * ratio == h * contentWidth * ratio;
    SameProduct(w * contentHeight, h * contentWidth, ratio);
  }
}
