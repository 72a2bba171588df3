/** Where the camera stands and what a pointer points at, in the world's own
    directions: x to the right of the front, y up, z towards the viewer. */
module CameraPose {
  import opened Plane
  import opened Regions
  import opened BoxOutline
  import opened ShiftLimit
  import opened Camera
  import opened FittingView

  // ----- where the camera stands -----

  /** From the place the camera looks at to the camera. */
  function Stand(m: Maths, view: View, frame: Frame): Vector {
    Minus(PoseOf(m, view, frame).position, PoseOf(m, view, frame).target)
  }

  /** At azimuth 0 and elevation 0 the camera is in front of the model: a shift
      to the right moves it along x, and one up along y. */
  lemma FrontView(m: Maths, view: View, frame: Frame)
    requires m.Lawful() && view.azimuth == 0.0 && view.elevation == 0.0
    ensures PoseOf(m, view, frame).target == Sum(frame.centre, Vector(view.shiftX, view.shiftY, 0.0))
    ensures Stand(m, view, frame) == Vector(0.0, 0.0, frame.distance)
  {
    hide Maths.Adds, Square;
    assert FacingOf(m, view.azimuth, view.elevation) == Facing(1.0, 0.0, 1.0, 0.0);
    hide AxesOf, FacingOf, Maths.Lawful, Sum, Scaled, Minus;
    FrontAxes();
    StandsAlongZ(frame.centre, view.shiftX, view.shiftY, frame.distance);
  }

  lemma StandsAlongZ(centre: Vector, x: real, y: real, d: real)
    ensures
      var target := Sum(centre, Vector(x, y, 0.0));
      && Sum(centre, Sum(Scaled(Vector(1.0, 0.0, 0.0), x), Scaled(Vector(0.0, 1.0, 0.0), y))) == target
      && Minus(Sum(target, Scaled(Vector(0.0, 0.0, 1.0), d)), target) == Vector(0.0, 0.0, d)
  {
  }

  lemma FrontAxes()
    ensures AxesOf(Facing(1.0, 0.0, 1.0, 0.0))
         == Axes(Vector(0.0, 0.0, 1.0), Vector(1.0, 0.0, 0.0), Vector(0.0, 1.0, 0.0))
  {
  }

  /** The camera stands at the azimuth to the right of the front, counted around
      the vertical, and at the elevation above the model's level. */
  lemma StandsAt(m: Maths, view: View, frame: Frame)
    ensures var stand, level := Stand(m, view, frame), frame.distance * m.cos(view.elevation);
      && stand.y == frame.distance * m.sin(view.elevation)
      && stand.x == level * m.sin(view.azimuth) && stand.z == level * m.cos(view.azimuth)
  {
  }

  /** A turn takes the camera around the vertical by `right`, against the azimuth,
      and to the height of its elevation. */
  lemma TurnGoesRound(m: Maths, view: View, frame: Frame, right: real, up: real)
    requires m.Lawful()
    ensures
      var turned := Turned(m, view, frame, Finite(right), Finite(up));
      var elevation := Clamp(view.elevation + up, -m.Straight(), m.Straight());
      var before, after := Stand(m, view, frame), Stand(m, turned, frame);
      var was, now := m.cos(view.elevation), m.cos(elevation);
      && after.y == frame.distance * m.sin(elevation)
      && after.x * was == (before.x * m.cos(right) - before.z * m.sin(right)) * now
      && after.z * was == (before.x * m.sin(right) + before.z * m.cos(right)) * now
  {
    hide Maths.Adds, Square, OutlineOf, OverModel, WrapAngle, Stand, Maths.Lawful;
    var turned := Turned(m, view, frame, Finite(right), Finite(up));
    StandsAt(m, view, frame);
    StandsAt(m, turned, frame);
    WrappedFaces(m, view.azimuth - right);
    FacesLess(m, view.azimuth, right);
    GoesRound(frame.distance, m.cos(view.elevation), m.cos(turned.elevation), m.sin(view.azimuth), m.cos(view.azimuth),
              m.sin(right), m.cos(right));
  }

  lemma GoesRound(d: real, was: real, now: real, s: real, c: real, sr: real, cr: real)
    ensures d * now * (s * cr - c * sr) * was == (d * was * s * cr - d * was * c * sr) * now
    ensures d * now * (c * cr + s * sr) * was == (d * was * s * sr + d * was * c * cr) * now
  {
  }

  /** Cosine and sine of a difference. */
  lemma FacesLess(m: Maths, a: real, b: real)
    requires m.Lawful()
    ensures m.cos(a - b) == m.cos(a) * m.cos(b) + m.sin(a) * m.sin(b)
    ensures m.sin(a - b) == m.sin(a) * m.cos(b) - m.cos(a) * m.sin(b)
  {
    assert m.Adds(a - b, b) && (a - b) + b == a;
    var p, q := m.cos(a - b), m.sin(a - b);
    UnitBack(m.cos(b), m.sin(b), p, q, m.cos(a), m.sin(a));
  }

  lemma UnitBack(c: real, s: real, p: real, q: real, x: real, y: real)
    requires Square(c) + Square(s) == 1.0
    requires x == p * c - q * s && y == q * c + p * s
    ensures p == x * c + y * s && q == y * c - x * s
  {
    assert x * c + y * s == p * (Square(c) + Square(s));
    assert y * c - x * s == q * (Square(c) + Square(s));
  }

  /** Wrapping an angle does not change where it faces. */
  lemma WrappedFaces(m: Maths, angle: real)
    requires m.Lawful()
    ensures m.cos(WrapAngle(m, angle)) == m.cos(angle) && m.sin(WrapAngle(m, angle)) == m.sin(angle)
  {
    hide WrapAngle;
    var turns := WrapAngleWraps(m, angle);
    WholeTurns(m, WrapAngle(m, angle), turns, angle);
  }

  lemma OneTurn(m: Maths, angle: real, more: real)
    requires m.Lawful() && more == angle + 2.0 * m.pi
    ensures m.cos(more) == m.cos(angle) && m.sin(more) == m.sin(angle)
  {
    hide Square;
    assert m.Adds(angle, 2.0 * m.pi);
  }

  lemma {:induction false} WholeTurns(m: Maths, angle: real, turns: int, more: real)
    requires m.Lawful() && more == angle + 2.0 * m.pi * (turns as real)
    ensures m.cos(more) == m.cos(angle) && m.sin(more) == m.sin(angle)
    decreases if turns < 0 then -turns else turns
  {
    hide Maths.Lawful;
    if turns > 0 {
      WholeTurns(m, angle, turns - 1, more - 2.0 * m.pi);
      OneTurn(m, more - 2.0 * m.pi, more);
    } else if turns < 0 {
      WholeTurns(m, angle, turns + 1, more + 2.0 * m.pi);
      OneTurn(m, more, more + 2.0 * m.pi);
    } else {
      assert more == angle + 2.0 * m.pi * 0.0 == angle;
    }
  }

  // ----- what a pointer points at -----

  /** The direction one ahead, `x` to the right and `y` up, as the camera faces. */
  function Ray(axes: Axes, x: real, y: real): Vector {
    Minus(Sum(Scaled(axes.right, x), Scaled(axes.up, y)), axes.back)
  }

  /** How far to the side a pointer is at depth 1; at the view's edge it is half
      the view's size. */
  function AtDepthOne(m: Maths, view: View, pointer: (Number, Number), aspect: Number): Point
    requires m.Lawful() && view.zoom > 0.0
  {
    var at := PointerPlace(pointer);
    Point(at.x * Wide(aspect) * HalfView(m, view.zoom), at.y * HalfView(m, view.zoom))
  }

  /** The place under the pointer is where the line from the camera through the
      pointer meets the plane through the model's centre. */
  lemma PointerSeesPlace(m: Maths, view: View, frame: Frame, pointer: (Number, Number), aspect: Number)
    requires m.Lawful() && view.zoom > 0.0
    ensures var axes, at := AxesOf(FacingOf(m, view.azimuth, view.elevation)), AtDepthOne(m, view, pointer, aspect);
      var under := UnderPointer(m, frame, view, pointer, aspect);
      Sum(PoseOf(m, view, frame).position, Scaled(Ray(axes, at.x, at.y), frame.distance))
      == Sum(frame.centre, Sum(Scaled(axes.right, under.x), Scaled(axes.up, under.y)))
  {
    hide Maths.Adds, AxesOf, FacingOf, PointerPlace, Wide, Square, Sum, Scaled, Minus;
    var axes, at := AxesOf(FacingOf(m, view.azimuth, view.elevation)), PointerPlace(pointer);
    var tall, d := HalfView(m, view.zoom), frame.distance;
    var x, y, height := at.x * Wide(aspect) * tall, at.y * tall, HalfHeight(m, frame, view.zoom);
    HeightIs(d, Tangent(m), view.zoom, height);
    assert AtDepthOne(m, view, pointer, aspect) == Point(x, y);
    hide HalfView, HalfHeight, AtDepthOne;
    Reassociates(at.x * Wide(aspect), tall, d);
    Reassociates(at.y, tall, d);
    assert UnderPointer(m, frame, view, pointer, aspect) == Point(view.shiftX + x * d, view.shiftY + y * d);
    LineMeetsPlane(axes, frame.centre, Shift(view), d, x, y);
  }

  lemma HeightIs(d: real, tangent: real, zoom: real, height: real)
    requires zoom > 0.0 && height == d * tangent / zoom
    ensures height == tangent / zoom * d
  {
  }

  lemma Reassociates(a: real, b: real, c: real)
    ensures a * (b * c) == a * b * c
  {
  }

  /** The line from the camera along `x` to the right, `y` up and one ahead, after
      the camera's distance. */
  lemma LineMeetsPlane(axes: Axes, centre: Vector, shift: Point, d: real, x: real, y: real)
    ensures
      var target := Sum(centre, Sum(Scaled(axes.right, shift.x), Scaled(axes.up, shift.y)));
      Sum(Sum(target, Scaled(axes.back, d)), Scaled(Ray(axes, x, y), d))
      == Sum(centre, Sum(Scaled(axes.right, shift.x + x * d), Scaled(axes.up, shift.y + y * d)))
  {
    Spreads3(axes, x, y, d);
    SpreadsBy(axes.right, shift.x, x, d);
    SpreadsBy(axes.up, shift.y, y, d);
    hide Scaled;
  }

  /** A ray scaled is its three parts scaled. */
  lemma Spreads3(axes: Axes, x: real, y: real, d: real)
    ensures Scaled(Ray(axes, x, y), d)
         == Minus(Sum(Scaled(Scaled(axes.right, x), d), Scaled(Scaled(axes.up, y), d)), Scaled(axes.back, d))
  {
  }

  lemma SpreadsBy(a: Vector, s: real, x: real, d: real)
    ensures Scaled(a, s + x * d) == Sum(Scaled(a, s), Scaled(Scaled(a, x), d))
  {
    Spread(a.x, s, x, d);
    Spread(a.y, s, x, d);
    Spread(a.z, s, x, d);
  }

  lemma Spread(a: real, s: real, x: real, d: real)
    ensures a * (s + x * d) == a * s + a * x * d
  {
    Reassociates(a, x, d);
  }

  // ----- the box, the zoom and the pan, as given -----

  /** The frame's box is the one given, around the centre given; in place of a
      broken centre or size it has the origin, or no size. */
  lemma FrameIsBox(m: Maths, centre: seq<Number>, halfSize: seq<Number>, p: Vector)
    requires m.Lawful()
    ensures var frame := ModelFrame(m, centre, halfSize);
      && (IsPoint(centre) ==>
            centre == [Finite(frame.centre.x), Finite(frame.centre.y), Finite(frame.centre.z)])
      && (!IsPoint(centre) ==> frame.centre == Vector(0.0, 0.0, 0.0))
      && (IsPoint(halfSize) ==>
            (InBox(frame.halfSize, p) <==> Abs(p.x) <= Abs(halfSize[0].value) && Abs(p.y) <= Abs(halfSize[1].value)
                                           && Abs(p.z) <= Abs(halfSize[2].value)))
      && (!IsPoint(halfSize) ==> (InBox(frame.halfSize, p) <==> p == Vector(0.0, 0.0, 0.0)))
      && IsPoint(centre) == (|centre| == 3 && centre[0].Finite? && centre[1].Finite? && centre[2].Finite?)
  {
    hide Square, Maths.Adds;
  }

  /** A model with any size is in a sphere as small as its box, or of the least
      radius; one without has the radius of an empty model. */
  lemma RadiusIsLeast(m: Maths, centre: seq<Number>, halfSize: seq<Number>)
    requires m.Lawful()
    ensures var frame := ModelFrame(m, centre, halfSize);
      var diagonal := Square(frame.halfSize.x) + Square(frame.halfSize.y) + Square(frame.halfSize.z);
      && (frame.halfSize == Vector(0.0, 0.0, 0.0) ==> frame.radius == EMPTY_RADIUS)
      && (frame.halfSize != Vector(0.0, 0.0, 0.0) ==>
            frame.radius == MIN_RADIUS > 0.0 || Square(frame.radius) == diagonal)
  {
    hide Square, Maths.Adds;
    var f := ModelFrame(m, centre, halfSize);
    SquareSigns(f.halfSize.x);
    SquareSigns(f.halfSize.y);
    SquareSigns(f.halfSize.z);
    SquareOfNone();
    var diagonal := m.sqrt(Square(f.halfSize.x) + Square(f.halfSize.y) + Square(f.halfSize.z));
    SquareSigns(diagonal);
  }

  /** Zooming by `factor` divides what the view shows by it; at a limit the zoom
      is the limit. */
  lemma ZoomScales(m: Maths, frame: Frame, view: View, factor: real, pointer: (Number, Number), aspect: Number)
    requires m.Lawful() && view.zoom > 0.0 && factor > 0.0
    ensures
      var zoomed := Zoomed(m, view, frame, Finite(factor), pointer, aspect);
      && zoomed.zoom > 0.0
      && (view.zoom * factor <= MIN_ZOOM ==> zoomed.zoom == MIN_ZOOM)
      && (view.zoom * factor >= MAX_ZOOM ==> zoomed.zoom == MAX_ZOOM)
      && (MIN_ZOOM <= view.zoom * factor <= MAX_ZOOM ==>
            HalfHeight(m, frame, zoomed.zoom) * factor == HalfHeight(m, frame, view.zoom))
  {
    hide Square, Maths.Adds, Zoomed;
    var shown := frame.distance * (m.sin(m.HalfField()) / m.cos(m.HalfField()));
    ZoomsTo(m, frame, view, factor, pointer, aspect);
    if MIN_ZOOM <= view.zoom * factor <= MAX_ZOOM {
      Divides(shown, view.zoom, factor, view.zoom * factor);
    }
  }

  lemma ZoomsTo(m: Maths, frame: Frame, view: View, factor: real, pointer: (Number, Number), aspect: Number)
    requires m.Lawful() && view.zoom > 0.0 && factor > 0.0
    ensures var zoomed, asked := Zoomed(m, view, frame, Finite(factor), pointer, aspect), view.zoom * factor;
      zoomed.zoom == (if asked < MIN_ZOOM then MIN_ZOOM else if asked > MAX_ZOOM then MAX_ZOOM else asked)
  {
    hide Square, Maths.Adds, OutlineOf, OverModel, WrapAngle, PointerPlace, Wide, HalfHeight;
    var zoom := NextZoom(view.zoom, factor);
    ClampTwice(zoom);
    assert ZoomAsked(m, view, frame, factor, pointer, aspect).zoom == zoom;
  }

  lemma Divides(shown: real, zoom: real, factor: real, now: real)
    requires zoom > 0.0 && factor > 0.0 && now == zoom * factor && now > 0.0
    ensures shown / now * factor == shown / zoom
  {
    var q := shown / now;
    assert q * now == shown;
    assert q * factor * zoom == shown;
  }

  /** Zooming twice is zooming by both factors at once, while no limit is met. */
  lemma ZoomsJoin(m: Maths, frame: Frame, view: View, f: real, g: real, pointer: (Number, Number), aspect: Number)
    requires m.Lawful() && view.zoom > 0.0 && f > 0.0 && g > 0.0
    requires MIN_ZOOM <= view.zoom * f <= MAX_ZOOM && MIN_ZOOM <= view.zoom * (f * g) <= MAX_ZOOM
    ensures
      var once := Zoomed(m, view, frame, Finite(f), pointer, aspect);
      && once.zoom > 0.0
      && Zoomed(m, once, frame, Finite(g), pointer, aspect).zoom
         == Zoomed(m, view, frame, Finite(f * g), pointer, aspect).zoom
  {
    hide Square, Maths.Adds, Zoomed;
    ZoomsTo(m, frame, view, f, pointer, aspect);
    ZoomsTo(m, frame, Zoomed(m, view, frame, Finite(f), pointer, aspect), g, pointer, aspect);
    ZoomsTo(m, frame, view, f * g, pointer, aspect);
    Reassociates(view.zoom, f, g);
  }

  /** A pan by the view's whole height moves the model by the whole height shown. */
  lemma PanScales(m: Maths, frame: Frame, view: View, dx: real, dy: real, height: real)
    requires m.Lawful() && view.zoom > 0.0 && height >= 1.0
    ensures var asked, shown := PanAsked(m, view, frame, dx, dy, Finite(height)), 2.0 * HalfHeight(m, frame, view.zoom);
      && (view.shiftX - asked.shiftX) * height == dx * shown
      && (asked.shiftY - view.shiftY) * height == dy * shown
  {
    hide HalfHeight, Maths.Adds, Square;
    var shown := 2.0 * HalfHeight(m, frame, view.zoom);
    assert shown / height * height == shown;
  }
}
