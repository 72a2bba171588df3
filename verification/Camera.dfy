/** The view of a 3D model as a state that turns, pans and zooms change. Each
    goes through `Settled`, so limits proved of it hold in every run. Angles are
    in radians. */
module Camera {
  import opened Plane
  import opened Regions
  import opened BoxOutline
  import opened ShiftLimit
  import ConvexOutline

  /** A JavaScript value where a number belongs. */
  datatype Number = NotFinite | Finite(value: real)

  /** The mathematics the camera uses, and what is known of it. */
  datatype Maths = Maths(cos: real -> real, sin: real -> real, sqrt: real -> real, pi: real) {
    ghost predicate Lawful() {
      && pi > 0.0
      && cos(0.0) == 1.0 && sin(0.0) == 0.0 && cos(2.0 * pi) == 1.0 && sin(2.0 * pi) == 0.0
      && (forall a: real :: Square(cos(a)) + Square(sin(a)) == 1.0)
      && (forall a: real, b: real :: Adds(a, b))
      && (forall a: real :: a >= 0.0 ==> sqrt(a) >= 0.0 && Square(sqrt(a)) == a)
      && cos(HalfField()) > 0.0 && sin(HalfField()) > 0.0
    }

    /** The addition laws. */
    ghost predicate Adds(a: real, b: real) {
      cos(a + b) == cos(a) * cos(b) - sin(a) * sin(b) && sin(a + b) == sin(a) * cos(b) + cos(a) * sin(b)
    }

    function Degree(): real { pi / 180.0 }

    /** Half the field of view of 30 degrees. */
    function HalfField(): real { 15.0 * Degree() }

    function StartElevation(): real { 45.0 * Degree() }

    function Straight(): real { 89.9 * Degree() }
  }

  const FIT_MARGIN: real := 1.15
  const MIN_ZOOM: real := 0.25
  const MAX_ZOOM: real := 50.0
  const MIN_RADIUS: real := 0.00001
  const EMPTY_RADIUS: real := 0.001

  function Max(a: real, b: real): real { if a < b then b else a }

  function Min(a: real, b: real): real { if b < a then b else a }

  function Abs(a: real): real { if a < 0.0 then -a else a }

  /** The least integer not below `x`. */
  function Ceil(x: real): int { -((-x).Floor) }

  function WrapAngle(m: Maths, angle: real): real
    requires m.pi > 0.0
  {
    angle - 2.0 * m.pi * (Ceil((angle - m.pi) / (2.0 * m.pi)) as real)
  }

  // ----- the model's frame -----

  datatype Frame = Frame(centre: Vector, halfSize: Vector, radius: real, distance: real, near: real, far: real)

  predicate IsPoint(values: seq<Number>) {
    |values| == 3 && forall i :: 0 <= i < 3 ==> values[i].Finite?
  }

  function PointOf(values: seq<Number>): Vector {
    if IsPoint(values) then Vector(values[0].value, values[1].value, values[2].value) else Vector(0.0, 0.0, 0.0)
  }

  function ModelFrame(m: Maths, centre: seq<Number>, halfSize: seq<Number>): Frame
    requires m.Lawful()
  {
    var h := PointOf(halfSize);
    var half := Vector(Abs(h.x), Abs(h.y), Abs(h.z));
    var diagonal := m.sqrt(Square(half.x) + Square(half.y) + Square(half.z));
    var size := if diagonal > 0.0 then Max(diagonal, MIN_RADIUS) else EMPTY_RADIUS;
    var distance := size * FIT_MARGIN / m.sin(m.HalfField());
    Frame(PointOf(centre), half, size, distance, (distance - size) / 2.0, (distance + size) * 2.0)
  }

  // ----- views -----

  datatype View = View(azimuth: real, elevation: real, zoom: real, shiftX: real, shiftY: real)

  /** A view as given, with values that may not be finite. */
  datatype Given = Given(azimuth: Number, elevation: Number, zoom: Number, shiftX: Number, shiftY: Number)

  function FittingZoom(aspect: Number): real {
    var wide := if aspect.Finite? && aspect.value > 0.0 then aspect.value else 1.0;
    Clamp(Min(1.0, wide), MIN_ZOOM, 1.0)
  }

  function Pick(n: Number, start: real): real {
    if n.Finite? then n.value else start
  }

  function FacingOf(m: Maths, azimuth: real, elevation: real): Facing {
    Facing(m.cos(azimuth), m.sin(azimuth), m.cos(elevation), m.sin(elevation))
  }

  function Outline(m: Maths, azimuth: real, elevation: real, frame: Frame): seq<Point> {
    OutlineOf(FacingOf(m, azimuth, elevation), frame.halfSize)
  }

  lemma OutlineIsThere(m: Maths, azimuth: real, elevation: real, frame: Frame)
    ensures Outline(m, azimuth, elevation, frame) != []
  {
    ConvexOutline.OutlineIsConvexHull(Corners(AxesOf(FacingOf(m, azimuth, elevation)), frame.halfSize));
  }

  function Settled(m: Maths, given: Given, frame: Frame, aspect: Number): View
    requires m.Lawful()
  {
    var azimuth := WrapAngle(m, Pick(given.azimuth, 0.0));
    var elevation := Clamp(Pick(given.elevation, m.StartElevation()), -m.Straight(), m.Straight());
    OutlineIsThere(m, azimuth, elevation, frame);
    var shift := OverModel(Point(Pick(given.shiftX, 0.0), Pick(given.shiftY, 0.0)),
                           Outline(m, azimuth, elevation, frame));
    View(azimuth, elevation, Clamp(Pick(given.zoom, FittingZoom(aspect)), MIN_ZOOM, MAX_ZOOM), shift.x, shift.y)
  }

  function Exactly(view: View): Given {
    Given(Finite(view.azimuth), Finite(view.elevation), Finite(view.zoom), Finite(view.shiftX), Finite(view.shiftY))
  }

  function StandardView(m: Maths, frame: Frame, aspect: Number, azimuth: Number, elevation: Number): View
    requires m.Lawful()
  {
    Settled(m, Given(azimuth, elevation, Finite(FittingZoom(aspect)), Finite(0.0), Finite(0.0)), frame, aspect)
  }

  function HalfHeight(m: Maths, frame: Frame, zoom: real): real
    requires m.Lawful() && zoom > 0.0
  {
    frame.distance * (m.sin(m.HalfField()) / m.cos(m.HalfField())) / zoom
  }

  function Turned(m: Maths, view: View, frame: Frame, right: Number, up: Number): View
    requires m.Lawful()
  {
    if !right.Finite? || !up.Finite? then view
    else Settled(m, Exactly(TurnAsked(view, right.value, up.value)), frame, NotFinite)
  }

  /** The view a turn or a pan asks for, before it is settled. */
  function TurnAsked(view: View, right: real, up: real): View {
    view.(azimuth := view.azimuth - right, elevation := view.elevation + up)
  }

  /** A view's height in pixels: at least one, and one when it is not known. */
  function Pixels(height: Number): (pixels: real)
    ensures pixels >= 1.0
  {
    Max(Pick(height, 1.0), 1.0)
  }

  /** How far one pixel is in the plane through the centre. */
  function PerPixel(m: Maths, frame: Frame, zoom: real, height: Number): real
    requires m.Lawful() && zoom > 0.0
  {
    2.0 * HalfHeight(m, frame, zoom) / Pixels(height)
  }

  function PanAsked(m: Maths, view: View, frame: Frame, dx: real, dy: real, height: Number): View
    requires m.Lawful() && view.zoom > 0.0
  {
    var perPixel := PerPixel(m, frame, view.zoom, height);
    view.(shiftX := view.shiftX - dx * perPixel, shiftY := view.shiftY + dy * perPixel)
  }

  function Panned(m: Maths, view: View, frame: Frame, dx: Number, dy: Number, height: Number): View
    requires m.Lawful() && view.zoom > 0.0
  {
    if !dx.Finite? || !dy.Finite? then view
    else Settled(m, Exactly(PanAsked(m, view, frame, dx.value, dy.value, height)), frame, NotFinite)
  }

  /** Where a pointer counts as being: its place, held to the view, or the middle. */
  function PointerPlace(pointer: (Number, Number)): Point {
    if pointer.0.Finite? && pointer.1.Finite?
    then Point(Clamp(pointer.0.value, -1.0, 1.0), Clamp(pointer.1.value, -1.0, 1.0))
    else Point(0.0, 0.0)
  }

  function Wide(aspect: Number): real {
    if aspect.Finite? && aspect.value > 0.0 then aspect.value else 1.0
  }

  function NextZoom(zoom: real, factor: real): (next: real)
    ensures MIN_ZOOM <= next <= MAX_ZOOM
  {
    Clamp(zoom * factor, MIN_ZOOM, MAX_ZOOM)
  }

  /** The view a zoom asks for, before it is settled. */
  function ZoomAsked(m: Maths, view: View, frame: Frame, factor: real, pointer: (Number, Number), aspect: Number): View
    requires m.Lawful() && view.zoom > 0.0
  {
    var zoom := NextZoom(view.zoom, factor);
    var at := PointerPlace(pointer);
    var change := HalfHeight(m, frame, view.zoom) - HalfHeight(m, frame, zoom);
    view.(zoom := zoom, shiftX := view.shiftX + at.x * Wide(aspect) * change, shiftY := view.shiftY + at.y * change)
  }

  function Zoomed(m: Maths, view: View, frame: Frame, factor: Number, pointer: (Number, Number), aspect: Number): View
    requires m.Lawful() && view.zoom > 0.0
  {
    if !factor.Finite? || factor.value <= 0.0 then view
    else Settled(m, Exactly(ZoomAsked(m, view, frame, factor.value, pointer, aspect)), frame, aspect)
  }

  /** A place for the camera and a place to point it at. */
  datatype Pose = Pose(position: Vector, target: Vector)

  function PoseOf(m: Maths, view: View, frame: Frame): Pose {
    var axes := AxesOf(FacingOf(m, view.azimuth, view.elevation));
    var target := Sum(frame.centre, Sum(Scaled(axes.right, view.shiftX), Scaled(axes.up, view.shiftY)));
    Pose(Sum(target, Scaled(axes.back, frame.distance)), target)
  }

  // ----- the limits -----

  function Shift(view: View): Point {
    Point(view.shiftX, view.shiftY)
  }

  ghost predicate OverItsModel(m: Maths, frame: Frame, view: View) {
    OutlineIsThere(m, view.azimuth, view.elevation, frame);
    InRegion(Outline(m, view.azimuth, view.elevation, frame), Shift(view))
  }

  ghost predicate InLimits(m: Maths, frame: Frame, view: View) {
    && -m.pi < view.azimuth <= m.pi
    && -m.Straight() <= view.elevation <= m.Straight()
    && MIN_ZOOM <= view.zoom <= MAX_ZOOM
    && OverItsModel(m, frame, view)
  }

  lemma WrapAngleWraps(m: Maths, angle: real) returns (turns: int)
    requires m.pi > 0.0
    ensures -m.pi < WrapAngle(m, angle) <= m.pi
    ensures WrapAngle(m, angle) == angle - 2.0 * m.pi * (turns as real)
    ensures -m.pi < angle <= m.pi ==> WrapAngle(m, angle) == angle
  {
    var whole := 2.0 * m.pi;
    var u := (angle - m.pi) / whole;
    turns := Ceil(u);
    assert u * whole == angle - m.pi;
    var rest := turns as real - u;
    assert 0.0 <= rest < 1.0;
    var over := rest * whole;
    assert over == (turns as real) * whole - u * whole;
    assert WrapAngle(m, angle) == m.pi - over;
    Fits(rest, whole, over);
    if -m.pi < angle <= m.pi {
      NegativeFraction(u, whole);
      assert turns == 0;
    }
  }

  lemma Fits(rest: real, whole: real, over: real)
    requires 0.0 <= rest < 1.0 && whole > 0.0 && over == rest * whole
    ensures 0.0 <= over < whole
  {
    ProductSign(rest, whole);
    ProductPositive(1.0 - rest, whole);
  }

  lemma NegativeFraction(u: real, whole: real)
    requires whole > 0.0 && -whole < u * whole <= 0.0
    ensures -1.0 < u <= 0.0
  {
    if u > 0.0 {
      ProductPositive(u, whole);
    }
    if u <= -1.0 {
      ProductSign(-1.0 - u, whole);
    }
  }

  lemma SettledIsInLimits(m: Maths, given: Given, frame: Frame, aspect: Number)
    requires m.Lawful()
    ensures InLimits(m, frame, Settled(m, given, frame, aspect))
  {
    hide InRegion, Convex, OutlineOf, OverModel, WrapAngle;
    var _ := WrapAngleWraps(m, Pick(given.azimuth, 0.0));
    var view := Settled(m, given, frame, aspect);
    assert m.Straight() >= 0.0;
    var f := FacingOf(m, view.azimuth, view.elevation);
    OutlineIsThere(m, view.azimuth, view.elevation, frame);
    OutlineIsConvex(f, frame.halfSize);
    OverModelIsNearest(Point(Pick(given.shiftX, 0.0), Pick(given.shiftY, 0.0)), OutlineOf(f, frame.halfSize));
  }

  lemma OutlineIsConvex(f: Facing, half: Vector)
    ensures Convex(OutlineOf(f, half))
  {
    ConvexOutline.OutlineIsConvexHull(Corners(AxesOf(f), half));
  }

  /** A view within its limits is as it is after settling, so settling twice
      is settling once. */
  lemma SettledKeepsValid(m: Maths, view: View, frame: Frame, aspect: Number)
    requires m.Lawful() && InLimits(m, frame, view)
    ensures Settled(m, Exactly(view), frame, aspect) == view
  {
    hide InRegion, Convex, OutlineOf, OverModel, WrapAngle;
    var _ := WrapAngleWraps(m, view.azimuth);
    OutlineIsConvex(FacingOf(m, view.azimuth, view.elevation), frame.halfSize);
    OverModelKeepsInside(Shift(view), Outline(m, view.azimuth, view.elevation, frame));
  }

  // ----- every run -----

  datatype Step =
    | Turn(right: Number, up: Number)
    | Pan(dx: Number, dy: Number, height: Number)
    | Zoom(factor: Number, pointer: (Number, Number), aspect: Number)

  function Stepped(m: Maths, frame: Frame, view: View, step: Step): View
    requires m.Lawful() && view.zoom > 0.0
  {
    match step
    case Turn(right, up) => Turned(m, view, frame, right, up)
    case Pan(dx, dy, height) => Panned(m, view, frame, dx, dy, height)
    case Zoom(factor, pointer, aspect) => Zoomed(m, view, frame, factor, pointer, aspect)
  }

  lemma StepStaysInLimits(m: Maths, frame: Frame, view: View, step: Step)
    requires m.Lawful() && InLimits(m, frame, view)
    ensures InLimits(m, frame, Stepped(m, frame, view, step))
  {
    hide InLimits, Settled, PanAsked, ZoomAsked;
    assert view.zoom > 0.0 by { ZoomIsPositive(m, frame, view); }
    match step
    case Turn(right, up) =>
      if right.Finite? && up.Finite? {
        SettledIsInLimits(m, Exactly(TurnAsked(view, right.value, up.value)), frame, NotFinite);
      }
    case Pan(dx, dy, height) =>
      if dx.Finite? && dy.Finite? {
        SettledIsInLimits(m, Exactly(PanAsked(m, view, frame, dx.value, dy.value, height)), frame, NotFinite);
      }
    case Zoom(factor, pointer, aspect) =>
      if factor.Finite? && factor.value > 0.0 {
        SettledIsInLimits(m, Exactly(ZoomAsked(m, view, frame, factor.value, pointer, aspect)), frame, aspect);
      }
  }

  lemma ZoomIsPositive(m: Maths, frame: Frame, view: View)
    requires InLimits(m, frame, view)
    ensures view.zoom > 0.0
  {
  }

  /** The view after a run of turns, pans and zooms, in order. */
  ghost function Run(m: Maths, frame: Frame, view: View, steps: seq<Step>): (end: View)
    requires m.Lawful() && InLimits(m, frame, view)
    ensures InLimits(m, frame, end)
    decreases |steps|
  {
    if steps == [] then view
    else
      StepStaysInLimits(m, frame, view, steps[0]);
      ZoomIsPositive(m, frame, view);
      Run(m, frame, Stepped(m, frame, view, steps[0]), steps[1..])
  }

  lemma FrameHoldsModel(m: Maths, centre: seq<Number>, halfSize: seq<Number>)
    requires m.Lawful()
    ensures var f := ModelFrame(m, centre, halfSize);
      && f.halfSize.x >= 0.0 && f.halfSize.y >= 0.0 && f.halfSize.z >= 0.0
      && 0.0 < f.radius < f.distance
      && 0.0 < f.near < f.distance - f.radius && f.distance + f.radius < f.far
      && Square(f.halfSize.x) + Square(f.halfSize.y) + Square(f.halfSize.z) <= Square(f.radius)
  {
    hide Square;
    var f, s := ModelFrame(m, centre, halfSize), m.sin(m.HalfField());
    SineBelowOne(m.cos(m.HalfField()), s);
    var sum := Square(f.halfSize.x) + Square(f.halfSize.y) + Square(f.halfSize.z);
    SquareSigns(f.halfSize.x);
    SquareSigns(f.halfSize.y);
    SquareSigns(f.halfSize.z);
    var diagonal := m.sqrt(sum);
    assert Square(diagonal) == sum;
    SquareGrows(diagonal, f.radius);
    Farther(f.radius, s, f.distance);
  }

  lemma SineBelowOne(c: real, s: real)
    requires Square(c) + Square(s) == 1.0
    ensures s <= 1.0
  {
    hide Square;
    SquareSigns(c);
    if s > 1.0 {
      SquareAboveOne(s, Square(s));
    }
  }

  lemma SquareAboveOne(s: real, q: real)
    requires s > 1.0 && q == Square(s)
    ensures q > 1.0
  {
    ProductPositive(s - 1.0, s);
  }

  lemma SquareGrows(a: real, b: real)
    requires 0.0 <= a <= b
    ensures Square(a) <= Square(b)
  {
    ProductSign(b - a, b + a);
    assert (b - a) * (b + a) == Square(b) - Square(a);
  }

  lemma Farther(size: real, s: real, distance: real)
    requires size > 0.0 && 0.0 < s <= 1.0 && distance == size * FIT_MARGIN / s
    ensures distance > size
  {
    assert distance * s == size * FIT_MARGIN;
    if distance <= size {
      ProductSign(size - distance, s);
      ProductSign(1.0 - s, size);
    }
  }

  // ----- what the limits are for -----

  function Minus(a: Vector, b: Vector): Vector {
    Vector(a.x - b.x, a.y - b.y, a.z - b.z)
  }

  /** How far in front of the camera a place is. */
  function Depth(m: Maths, view: View, frame: Frame, place: Vector): real {
    DotV(Minus(PoseOf(m, view, frame).position, place), AxesOf(FacingOf(m, view.azimuth, view.elevation)).back)
  }

  lemma DepthOfPoint(m: Maths, view: View, frame: Frame, p: Vector)
    requires m.Lawful()
    ensures Depth(m, view, frame, Sum(frame.centre, p))
      == frame.distance - DotV(p, AxesOf(FacingOf(m, view.azimuth, view.elevation)).back)
  {
    hide Square, DotV;
    var f := FacingOf(m, view.azimuth, view.elevation);
    var axes := AxesOf(f);
    FrameJoins(f, Shift(view), frame.distance);
    var camera := Placed(axes, Shift(view), frame.distance);
    assert Minus(PoseOf(m, view, frame).position, Sum(frame.centre, p)) == Minus(camera, p);
    DotOfDifference(camera, p, axes.back);
  }

  lemma DotOfDifference(a: Vector, b: Vector, d: Vector)
    ensures DotV(Minus(a, b), d) == DotV(a, d) - DotV(b, d)
  {
  }

  /** No point of the box is farther from the centre than the radius, along any
      direction of the frame. */
  lemma BoxInSphere(f: Facing, half: Vector, radius: real, p: Vector)
    requires f.Unit() && radius > 0.0 && InBox(half, p)
    requires Square(half.x) + Square(half.y) + Square(half.z) <= Square(radius)
    ensures -radius <= DotV(p, AxesOf(f).back) <= radius
  {
    hide Square, DotV;
    var b := DotV(p, AxesOf(f).back);
    FrameSplits(f, p);
    SquareSigns(DotV(p, AxesOf(f).right));
    SquareSigns(DotV(p, AxesOf(f).up));
    SquareOfSide(half.x, p.x);
    SquareOfSide(half.y, p.y);
    SquareOfSide(half.z, p.z);
    assert Square(b) <= Square(radius);
    RootBound(b, radius);
  }

  lemma SquareOfSide(h: real, x: real)
    requires -h <= x <= h
    ensures Square(x) <= Square(h)
  {
    ProductSign(h - x, h + x);
    assert (h - x) * (h + x) == Square(h) - Square(x);
  }

  lemma RootBound(b: real, r: real)
    requires r > 0.0 && Square(b) <= Square(r)
    ensures -r <= b <= r
  {
    assert (b - r) * (b + r) == Square(b) - Square(r);
    if b > r {
      ProductPositive(b - r, b + r);
    }
    if b < -r {
      ProductPositive(r - b, -b - r);
    }
  }

  /** The line the camera looks along at the middle of the view meets the box. */
  ghost predicate MiddleShowsModel(m: Maths, view: View, frame: Frame) {
    var back := AxesOf(FacingOf(m, view.azimuth, view.elevation)).back;
    exists t: real :: InBox(frame.halfSize, Minus(Sum(PoseOf(m, view, frame).target, Scaled(back, t)), frame.centre))
  }

  ghost predicate ModelIsDrawn(m: Maths, view: View, frame: Frame) {
    forall p :: InBox(frame.halfSize, p) ==> frame.near < Depth(m, view, frame, Sum(frame.centre, p)) < frame.far
  }

  lemma ModelStaysDrawn(m: Maths, centre: seq<Number>, halfSize: seq<Number>, view: View)
    requires m.Lawful()
    ensures ModelIsDrawn(m, view, ModelFrame(m, centre, halfSize))
  {
    hide Square, DotV, Depth, ModelFrame;
    var frame, f := ModelFrame(m, centre, halfSize), FacingOf(m, view.azimuth, view.elevation);
    FrameHoldsModel(m, centre, halfSize);
    forall p | InBox(frame.halfSize, p)
      ensures frame.near < Depth(m, view, frame, Sum(frame.centre, p)) < frame.far
    {
      DepthOfPoint(m, view, frame, p);
      BoxInSphere(f, frame.halfSize, frame.radius, p);
    }
  }

  lemma OverModelShowsIt(m: Maths, frame: Frame, view: View)
    requires m.Lawful() && InLimits(m, frame, view)
    requires frame.halfSize.x >= 0.0 && frame.halfSize.y >= 0.0 && frame.halfSize.z >= 0.0
    ensures MiddleShowsModel(m, view, frame)
  {
    hide Square, InBox, InRegion;
    var f := FacingOf(m, view.azimuth, view.elevation);
    MiddleShowsBox(f, frame.halfSize, Shift(view));
    var t: real :| InBox(frame.halfSize, Placed(AxesOf(f), Shift(view), t));
    assert Minus(Sum(PoseOf(m, view, frame).target, Scaled(AxesOf(f).back, t)), frame.centre)
        == Placed(AxesOf(f), Shift(view), t);
  }

  /** From the starting view, after any turns, pans and zooms with any inputs,
      the view is within its limits, settling it changes nothing, its middle
      shows the model and nothing of the model is cut off. */
  lemma {:induction false} EveryViewShowsModel(m: Maths, centre: seq<Number>, halfSize: seq<Number>, aspect: Number,
                                               azimuth: Number, elevation: Number, steps: seq<Step>)
    requires m.Lawful()
    ensures
      var frame := ModelFrame(m, centre, halfSize);
      var start := StandardView(m, frame, aspect, azimuth, elevation);
      && InLimits(m, frame, start)
      && var end := Run(m, frame, start, steps);
      && InLimits(m, frame, end)
      && (forall any :: Settled(m, Exactly(end), frame, any) == end)
      && MiddleShowsModel(m, end, frame)
      && ModelIsDrawn(m, end, frame)
  {
    hide ModelFrame, Settled, InLimits, MiddleShowsModel, ModelIsDrawn;
    var frame := ModelFrame(m, centre, halfSize);
    var given := Given(azimuth, elevation, Finite(FittingZoom(aspect)), Finite(0.0), Finite(0.0));
    SettledIsInLimits(m, given, frame, aspect);
    var end := Run(m, frame, StandardView(m, frame, aspect, azimuth, elevation), steps);
    forall any ensures Settled(m, Exactly(end), frame, any) == end {
      SettledKeepsValid(m, end, frame, any);
    }
    FrameHoldsModel(m, centre, halfSize);
    OverModelShowsIt(m, frame, end);
    ModelStaysDrawn(m, centre, halfSize, end);
  }

  /** The place in the model's plane under a pointer. */
  function UnderPointer(m: Maths, frame: Frame, view: View, pointer: (Number, Number), aspect: Number): Point
    requires m.Lawful() && view.zoom > 0.0
  {
    var at, height := PointerPlace(pointer), HalfHeight(m, frame, view.zoom);
    Point(view.shiftX + at.x * Wide(aspect) * height, view.shiftY + at.y * height)
  }

  /** A zoom keeps the place under the pointer exactly when the shift it asks
      for is still over the model. */
  lemma ZoomKeepsPointer(m: Maths, frame: Frame, view: View, factor: real, pointer: (Number, Number), aspect: Number)
    requires m.Lawful() && InLimits(m, frame, view) && factor > 0.0
    ensures
      var asked := ZoomAsked(m, view, frame, factor, pointer, aspect);
      var zoomed := Zoomed(m, view, frame, Finite(factor), pointer, aspect);
      && zoomed.zoom == NextZoom(view.zoom, factor)
      && (UnderPointer(m, frame, zoomed, pointer, aspect) == UnderPointer(m, frame, view, pointer, aspect)
          <==> OverItsModel(m, frame, asked))
  {
    hide InRegion, Convex, OutlineOf, OverModel, HalfHeight, WrapAngle, UnderPointer, PointerPlace, NextZoom;
    var asked := ZoomAsked(m, view, frame, factor, pointer, aspect);
    var zoomed := Zoomed(m, view, frame, Finite(factor), pointer, aspect);
    var _ := WrapAngleWraps(m, view.azimuth);
    OutlineIsConvex(FacingOf(m, view.azimuth, view.elevation), frame.halfSize);
    OverModelKeepsInside(Shift(asked), Outline(m, view.azimuth, view.elevation, frame));
    assert Shift(zoomed) == Shift(asked) <==> OverItsModel(m, frame, asked);
    AskedKeepsPointer(m, frame, view, factor, pointer, aspect);
    ClampTwice(NextZoom(view.zoom, factor));
    SameZoomSameOffset(m, frame, zoomed, asked, pointer, aspect);
  }

  lemma ClampTwice(zoom: real)
    requires MIN_ZOOM <= zoom <= MAX_ZOOM
    ensures Clamp(zoom, MIN_ZOOM, MAX_ZOOM) == zoom
  {
  }

  lemma AskedKeepsPointer(m: Maths, frame: Frame, view: View, factor: real, pointer: (Number, Number), aspect: Number)
    requires m.Lawful() && view.zoom > 0.0
    ensures var asked := ZoomAsked(m, view, frame, factor, pointer, aspect);
      && asked.zoom > 0.0
      && UnderPointer(m, frame, asked, pointer, aspect) == UnderPointer(m, frame, view, pointer, aspect)
  {
    hide HalfHeight, PointerPlace, NextZoom, Wide;
    var at, zoom := PointerPlace(pointer), NextZoom(view.zoom, factor);
    var before, after := HalfHeight(m, frame, view.zoom), HalfHeight(m, frame, zoom);
    var asked := ZoomAsked(m, view, frame, factor, pointer, aspect);
    var was, now := UnderPointer(m, frame, view, pointer, aspect), UnderPointer(m, frame, asked, pointer, aspect);
    assert now.x == was.x by { MovesAsMuch(view.shiftX, at.x * Wide(aspect), before, after); }
    assert now.y == was.y by { MovesAsMuch(view.shiftY, at.y, before, after); }
  }

  lemma MovesAsMuch(shift: real, k: real, before: real, after: real)
    ensures shift + k * (before - after) + k * after == shift + k * before
  {
  }

  lemma SameZoomSameOffset(m: Maths, frame: Frame, a: View, b: View, pointer: (Number, Number), aspect: Number)
    requires m.Lawful() && a.zoom == b.zoom > 0.0
    ensures UnderPointer(m, frame, a, pointer, aspect) == UnderPointer(m, frame, b, pointer, aspect)
      <==> Shift(a) == Shift(b)
  {
    hide HalfHeight, PointerPlace;
  }

  /** A turn moves the two angles only, and leaves the model's centre where it
      is on screen exactly when the shift is inside the outline then seen. */
  lemma TurnKeepsCentre(m: Maths, frame: Frame, view: View, right: real, up: real)
    requires m.Lawful() && InLimits(m, frame, view)
    ensures
      var azimuth := WrapAngle(m, view.azimuth - right);
      var elevation := Clamp(view.elevation + up, -m.Straight(), m.Straight());
      var turned := Turned(m, view, frame, Finite(right), Finite(up));
      && turned == View(azimuth, elevation, view.zoom, turned.shiftX, turned.shiftY)
      && (Shift(turned) == Shift(view)
          <==> OverItsModel(m, frame, View(azimuth, elevation, view.zoom, view.shiftX, view.shiftY)))
  {
    hide InRegion, Convex, OutlineOf, OverModel, WrapAngle;
    var turned := Turned(m, view, frame, Finite(right), Finite(up));
    OutlineIsConvex(FacingOf(m, turned.azimuth, turned.elevation), frame.halfSize);
    OverModelKeepsInside(Shift(view), Outline(m, turned.azimuth, turned.elevation, frame));
  }

  // ----- what turns and pans do -----

  /** Whole turns do not change where an angle is wrapped to. */
  lemma WrapIsPeriodic(m: Maths, angle: real, turns: int)
    requires m.pi > 0.0 && -m.pi < angle <= m.pi
    ensures WrapAngle(m, angle + 2.0 * m.pi * (turns as real)) == angle
  {
    hide WrapAngle;
    var whole, more := 2.0 * m.pi, angle + 2.0 * m.pi * (turns as real);
    var k := WrapAngleWraps(m, more);
    var rest := (turns - k) as real;
    var moved := whole * rest;
    DistributesTurns(whole, turns as real, k as real, rest, moved);
    assert WrapAngle(m, more) == angle + moved;
    LessThanOneTurn(rest, whole, moved);
    assert turns == k;
  }

  lemma DistributesTurns(whole: real, a: real, b: real, c: real, moved: real)
    requires c == a - b && moved == whole * c
    ensures whole * a - whole * b == moved
  {
  }

  lemma LessThanOneTurn(rest: real, whole: real, moved: real)
    requires whole > 0.0 && moved == whole * rest && -whole < moved < whole
    ensures -1.0 < rest < 1.0
  {
    if rest >= 1.0 {
      ProductSign(rest - 1.0, whole);
    }
    if rest <= -1.0 {
      ProductSign(-1.0 - rest, whole);
    }
  }

  /** Turning and turning back gives the azimuth back, and the whole view when
      the elevation meets no limit and the shift stays over the model. */
  lemma TurnsBack(m: Maths, frame: Frame, view: View, right: real, up: real)
    requires m.Lawful() && InLimits(m, frame, view)
    ensures
      var there := Turned(m, view, frame, Finite(right), Finite(up));
      var back := Turned(m, there, frame, Finite(-right), Finite(-up));
      && back.azimuth == view.azimuth
      && (there.elevation == view.elevation + up && Shift(there) == Shift(view) ==> back == view)
  {
    hide InRegion, Convex, OutlineOf, OverModel, WrapAngle;
    WrapsBack(m, view.azimuth, right);
    OutlineIsConvex(FacingOf(m, view.azimuth, view.elevation), frame.halfSize);
    OverModelKeepsInside(Shift(view), Outline(m, view.azimuth, view.elevation, frame));
  }

  lemma WrapsBack(m: Maths, angle: real, right: real)
    requires m.pi > 0.0 && -m.pi < angle <= m.pi
    ensures WrapAngle(m, WrapAngle(m, angle - right) - (-right)) == angle
  {
    hide WrapAngle;
    var turns := WrapAngleWraps(m, angle - right);
    var whole := 2.0 * m.pi;
    NegatedTurns(whole, turns);
    assert WrapAngle(m, angle - right) - (-right) == angle + whole * ((-turns) as real);
    WrapIsPeriodic(m, angle, -turns);
  }

  lemma NegatedTurns(whole: real, turns: int)
    ensures whole * ((-turns) as real) == -(whole * (turns as real))
  {
  }

  /** The place in the model's plane under a pointer `px` pixels right of the
      view's middle and `py` below it. */
  function UnderPixel(m: Maths, frame: Frame, view: View, px: real, py: real, height: Number): Point
    requires m.Lawful() && view.zoom > 0.0
  {
    var perPixel := PerPixel(m, frame, view.zoom, height);
    Point(view.shiftX + px * perPixel, view.shiftY - py * perPixel)
  }

  /** A pan keeps the place that was under the pointer under it exactly when the
      shift it asks for is still over the model. */
  lemma PanFollowsPointer(m: Maths, frame: Frame, view: View, dx: real, dy: real, height: Number, px: real, py: real)
    requires m.Lawful() && InLimits(m, frame, view)
    ensures
      var panned := Panned(m, view, frame, Finite(dx), Finite(dy), height);
      && panned == view.(shiftX := panned.shiftX, shiftY := panned.shiftY)
      && (UnderPixel(m, frame, panned, px + dx, py + dy, height) == UnderPixel(m, frame, view, px, py, height)
          <==> OverItsModel(m, frame, PanAsked(m, view, frame, dx, dy, height)))
  {
    hide InRegion, Convex, OutlineOf, OverModel, HalfHeight, WrapAngle, UnderPixel, Pixels;
    var asked := PanAsked(m, view, frame, dx, dy, height);
    var panned := Panned(m, view, frame, Finite(dx), Finite(dy), height);
    var _ := WrapAngleWraps(m, view.azimuth);
    OutlineIsConvex(FacingOf(m, view.azimuth, view.elevation), frame.halfSize);
    OverModelKeepsInside(Shift(asked), Outline(m, view.azimuth, view.elevation, frame));
    assert panned.zoom == view.zoom;
    assert Shift(panned) == Shift(asked) <==> OverItsModel(m, frame, asked);
    AskedFollows(m, frame, view, dx, dy, height, px, py);
    SameZoomSamePixel(m, frame, panned, asked, px + dx, py + dy, height);
  }

  lemma AskedFollows(m: Maths, frame: Frame, view: View, dx: real, dy: real, height: Number, px: real, py: real)
    requires m.Lawful() && view.zoom > 0.0
    ensures UnderPixel(m, frame, PanAsked(m, view, frame, dx, dy, height), px + dx, py + dy, height)
      == UnderPixel(m, frame, view, px, py, height)
  {
    hide PerPixel, Maths.Lawful;
    var perPixel := PerPixel(m, frame, view.zoom, height);
    Spreads(px, dx, perPixel, px * perPixel, dx * perPixel, (px + dx) * perPixel);
    Spreads(py, dy, perPixel, py * perPixel, dy * perPixel, (py + dy) * perPixel);
  }

  lemma Spreads(a: real, b: real, t: real, byA: real, byB: real, byBoth: real)
    requires byA == a * t && byB == b * t && byBoth == (a + b) * t
    ensures byBoth == byA + byB
  {
  }

  lemma SameZoomSamePixel(m: Maths, frame: Frame, a: View, b: View, px: real, py: real, height: Number)
    requires m.Lawful() && a.zoom == b.zoom > 0.0
    ensures UnderPixel(m, frame, a, px, py, height) == UnderPixel(m, frame, b, px, py, height) <==> Shift(a) == Shift(b)
  {
    hide HalfHeight, Pixels;
  }
}
