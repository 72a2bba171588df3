/** The view a model starts in: the whole model is in it, however the camera
    faces, unless the view is too narrow even for the least zoom. */
module FittingView {
  import opened Plane
  import opened Regions
  import opened BoxOutline
  import opened ShiftLimit
  import opened Camera

  // ----- a cone and a sphere in it -----

  /** Half a view's size at depth 1, and a sphere of radius `radius` whose centre
      is at depth `distance`: whether the whole sphere is in the view. */
  predicate Covers(k: real, distance: real, radius: real) {
    Times(Square(k), Square(distance) - Square(radius)) > Square(radius)
  }

  lemma ConeClears(kk: real, d: real, r: real, b: real)
    requires kk >= 0.0 && Times(kk, Square(d) - Square(r)) > Square(r)
    ensures Square(r) - Square(b) < Times(kk, Square(d - b))
  {
    hide Square, Times, CompletedSquare;
    var q := Times(kk, Square(d - b)) - (Square(r) - Square(b));
    SquareSigns((kk + 1.0) * b - kk * d);
    SquareOfDifference(d, b);
    SquareOfMix(kk, d, b);
    CompletesSquare(kk, Square(d), Square(r), Square(b), Times(d, b), Square(d - b), q);
    Positive(kk + 1.0, q);
  }

  lemma SquareOfDifference(a: real, b: real)
    ensures Square(a - b) == Square(a) - 2.0 * Times(a, b) + Square(b)
  {
  }

  lemma SquareOfMix(k: real, a: real, b: real)
    ensures Square((k + 1.0) * b - k * a) == CompletedSquare(k, Square(a), Square(b), Times(a, b))
  {
  }

  function CompletedSquare(k: real, aa: real, bb: real, ab: real): real {
    (k + 1.0) * (k + 1.0) * bb - 2.0 * k * (k + 1.0) * ab + k * k * aa
  }

  lemma CompletesSquare(k: real, dd: real, rr: real, bb: real, db: real, apart: real, q: real)
    requires apart == dd - 2.0 * db + bb && q == Times(k, apart) - (rr - bb)
    ensures Times(k + 1.0, q) == CompletedSquare(k, dd, bb, db) + (Times(k, dd - rr) - rr)
  {
    assert q == k * (dd - 2.0 * db + bb) - (rr - bb);
  }

  lemma Positive(a: real, b: real)
    requires a > 0.0 && Times(a, b) > 0.0
    ensures b > 0.0
  {
    if b <= 0.0 {
      ProductSign(a, -b);
    }
  }

  /** Nothing in the sphere is outside a view that covers it. */
  lemma SphereIsInside(k: real, d: real, r: real, x: real, b: real)
    requires k > 0.0 && 0.0 < r < d && Covers(k, d, r) && Square(x) + Square(b) <= Square(r)
    ensures Abs(x) < Times(k, d - b)
  {
    hide Square, Times;
    SquareSigns(x);
    SquareSigns(k);
    RootBound(b, r);
    ConeClears(Square(k), d, r, b);
    SquareOfProduct(k, d - b);
    ProductsArePositive(k, d - b);
    RootBelow(x, Times(k, d - b));
  }

  lemma ProductsArePositive(a: real, b: real)
    requires a > 0.0 && b > 0.0
    ensures Times(a, b) > 0.0
  {
  }

  lemma SquareOfProduct(a: real, b: real)
    ensures Square(Times(a, b)) == Times(Square(a), Square(b))
  {
  }

  lemma RootBelow(x: real, y: real)
    requires y > 0.0 && Square(x) < Square(y)
    ensures Abs(x) < y
  {
    hide Square;
    if x >= y {
      SquareGrows(y, x);
    } else if -x >= y {
      SquareGrows(y, -x);
      SquareOfNegated(x);
    }
  }

  lemma SquareOfNegated(x: real)
    ensures Square(-x) == Square(x)
  {
  }

  /** Where a sphere that is not covered reaches the view's edge: the point where
      a line from the camera touches it. */
  lemma SphereReachesOut(k: real, d: real, r: real, root: real) returns (x: real, b: real)
    requires k > 0.0 && 0.0 < r < d && !Covers(k, d, r)
    requires root >= 0.0 && Square(root) == Square(d) - Square(r)
    ensures Square(x) + Square(b) == Square(r) && x >= Times(k, d - b)
  {
    var u, v := root / d, r / d;
    assert u * d == root && v * d == r;
    x, b := r * u, r * v;
    hide Square, Times;
    UnitOf(d, r, root, u, v);
    OnSphere(r, u, v);
    SquareOfProduct(k, root);
    ProductsArePositive'(k, root);
    RootAtMost(Times(k, root), r);
    EdgeAt(k, d, r, root, u, v);
  }

  lemma ProductsArePositive'(a: real, b: real)
    requires a > 0.0 && b >= 0.0
    ensures Times(a, b) >= 0.0
  {
  }

  lemma RootAtMost(a: real, r: real)
    requires r > 0.0 && Square(a) <= Square(r)
    ensures a <= r
  {
    hide Square;
    RootBound(a, r);
  }

  lemma UnitOf(d: real, r: real, root: real, u: real, v: real)
    requires d > 0.0 && u * d == root && v * d == r && root >= 0.0
    requires Square(root) == Square(d) - Square(r)
    ensures Square(u) + Square(v) == 1.0 && u >= 0.0
  {
    hide Square, Times;
    ScaledSquares(u, v, d, root, r);
    SquareSigns(d);
    OneOf(Square(u) + Square(v), Square(d));
    if u < 0.0 {
      ProductPositive(-u, d);
    }
  }

  lemma ScaledSquares(u: real, v: real, d: real, ud: real, vd: real)
    requires ud == u * d && vd == v * d
    ensures Times(Square(u) + Square(v), Square(d)) == Square(ud) + Square(vd)
  {
  }

  lemma OneOf(a: real, dd: real)
    requires dd > 0.0 && Times(a, dd) == dd
    ensures a == 1.0
  {
  }

  lemma OnSphere(r: real, u: real, v: real)
    requires Square(u) + Square(v) == 1.0
    ensures Square(r * u) + Square(r * v) == Square(r)
  {
    assert Square(r * u) + Square(r * v) == Square(r) * (Square(u) + Square(v));
  }

  lemma EdgeAt(k: real, d: real, r: real, root: real, u: real, v: real)
    requires u * d == root && v * d == r && Square(u) + Square(v) == 1.0
    requires u >= 0.0 && Times(k, root) <= r
    ensures r * u >= Times(k, d - r * v)
  {
    assert d - r * v == d - d * Square(v);
    assert d * Square(v) == d * (1.0 - Square(u));
    assert d - r * v == root * u;
    assert Times(k, root * u) == (k * root) * u;
    ProductSign(r - k * root, u);
  }

  // ----- the view a model starts in -----

  function Tangent(m: Maths): real
    requires m.Lawful()
  {
    m.sin(m.HalfField()) / m.cos(m.HalfField())
  }

  /** Half the view's height at depth 1. */
  function HalfView(m: Maths, zoom: real): real
    requires m.Lawful() && zoom > 0.0
  {
    Tangent(m) / zoom
  }

  function HalfAcross(m: Maths, zoom: real, aspect: Number): real
    requires m.Lawful() && zoom > 0.0
  {
    HalfView(m, zoom) * Wide(aspect)
  }

  /** Where `place` is from the line the camera looks along, along `axis`. */
  function Aside(m: Maths, view: View, frame: Frame, place: Vector, axis: Vector): real {
    DotV(Minus(place, PoseOf(m, view, frame).position), axis)
  }

  predicate InHeight(m: Maths, view: View, frame: Frame, place: Vector)
    requires m.Lawful() && view.zoom > 0.0
  {
    var up := AxesOf(FacingOf(m, view.azimuth, view.elevation)).up;
    Abs(Aside(m, view, frame, place, up)) < Times(HalfView(m, view.zoom), Depth(m, view, frame, place))
  }

  /** In a view `aspect` wide for each unit high. */
  predicate InWidth(m: Maths, view: View, frame: Frame, aspect: Number, place: Vector)
    requires m.Lawful() && view.zoom > 0.0
  {
    var right := AxesOf(FacingOf(m, view.azimuth, view.elevation)).right;
    Abs(Aside(m, view, frame, place, right))
      < Times(HalfAcross(m, view.zoom, aspect), Depth(m, view, frame, place))
  }

  /** The view is wide enough for the model at its fitting zoom. Every view at
      least as wide for its height as the least zoom is. */
  predicate WideEnough(m: Maths, aspect: Number) {
    Times(Square(Wide(aspect) / FittingZoom(aspect)), Square(FIT_MARGIN) - Square(m.sin(m.HalfField())))
      > Square(m.cos(m.HalfField()))
  }

  lemma LeastZoomIsWideEnough(m: Maths, aspect: Number)
    requires m.Lawful()
    ensures 0.0 < FittingZoom(aspect) <= 1.0
    ensures Wide(aspect) >= MIN_ZOOM ==> WideEnough(m, aspect)
  {
    var s, c, wide := m.sin(m.HalfField()), m.cos(m.HalfField()), Wide(aspect) / FittingZoom(aspect);
    if Wide(aspect) >= MIN_ZOOM {
      assert wide >= 1.0;
      AtLeastOne(wide, Square(FIT_MARGIN) - Square(s), s, c);
    }
  }

  lemma AtLeastOne(wide: real, margin: real, s: real, c: real)
    requires wide >= 1.0 && Square(c) + Square(s) == 1.0 && margin == Square(FIT_MARGIN) - Square(s)
    ensures Times(Square(wide), margin) > Square(c)
  {
    var ww := Square(wide);
    assert ww >= 1.0 by {
      SquareGrows(1.0, wide);
    }
    assert Square(FIT_MARGIN) > 1.0;
    SquareSigns(c);
    ProductSign(ww - 1.0, margin);
  }

  /** Whether the view covers a sphere does not depend on the sphere's size. */
  lemma CoversExactly(k: real, d: real, r: real, s: real, c: real, wide: real)
    requires r > 0.0 && s > 0.0 && c > 0.0 && Square(c) + Square(s) == 1.0
    requires k * c == s * wide && d * s == r * FIT_MARGIN
    ensures Covers(k, d, r) <==> Times(Square(wide), Square(FIT_MARGIN) - Square(s)) > Square(c)
  {
    var left := Times(Square(k), Square(d) - Square(r)) - Square(r);
    var right := Times(Square(wide), Square(FIT_MARGIN) - Square(s)) - Square(c);
    SquaresOfProducts(k, c, s, wide);
    SquaresOfProducts(d, s, r, FIT_MARGIN);
    SquareSigns(c);
    SquareSigns(r);
    hide Square;
    ScaledCover(Square(k), Square(d), Square(r), Square(s), Square(c), Square(wide), Square(FIT_MARGIN), left, right);
    SameSign(Square(c), left, Square(r), right);
  }

  lemma SquaresOfProducts(a: real, b: real, a': real, b': real)
    requires a * b == a' * b'
    ensures Times(Square(a), Square(b)) == Times(Square(a'), Square(b'))
  {
    assert Square(a) * Square(b) == (a * b) * (a * b);
    assert Square(a') * Square(b') == (a' * b') * (a' * b');
  }

  lemma ScaledCover(kk: real, dd: real, rr: real, ss: real, cc: real, ww: real, ff: real, left: real, right: real)
    requires Times(kk, cc) == Times(ss, ww) && Times(dd, ss) == Times(rr, ff) && cc + ss == 1.0
    requires left == Times(kk, dd - rr) - rr && right == Times(ww, ff - ss) - cc
    ensures cc * left == rr * right
  {
    assert cc * left == Times(kk, cc) * (dd - rr) - cc * rr;
    assert Times(ss, ww) * (dd - rr) == ww * Times(dd, ss) - ww * ss * rr;
    assert ww * Times(rr, ff) == rr * (ww * ff);
    assert rr * right == rr * (ww * ff) - ww * ss * rr - cc * rr;
  }

  lemma SameSign(a: real, x: real, b: real, y: real)
    requires a > 0.0 && b > 0.0 && a * x == b * y
    ensures x > 0.0 <==> y > 0.0
  {
    if x > 0.0 {
      ProductPositive(a, x);
      Positive(b, y);
    }
    if y > 0.0 {
      ProductPositive(b, y);
      Positive(a, x);
    }
  }

  lemma FrameDistance(m: Maths, centre: seq<Number>, halfSize: seq<Number>)
    requires m.Lawful()
    ensures var frame := ModelFrame(m, centre, halfSize);
      frame.distance == frame.radius * FIT_MARGIN / m.sin(m.HalfField())
  {
    hide Square;
  }

  /** In the starting view the model's centre is in the middle. */
  lemma StartsAtCentre(m: Maths, frame: Frame, aspect: Number, azimuth: Number, elevation: Number)
    requires m.Lawful()
    requires frame.halfSize.x >= 0.0 && frame.halfSize.y >= 0.0 && frame.halfSize.z >= 0.0
    ensures var view := StandardView(m, frame, aspect, azimuth, elevation);
      Shift(view) == Point(0.0, 0.0) && view.zoom == FittingZoom(aspect) > 0.0
  {
    hide Square, WrapAngle, InRegion, Convex, OutlineOf, OverModel;
    LeastZoomIsWideEnough(m, aspect);
    var view := StandardView(m, frame, aspect, azimuth, elevation);
    var f, middle := FacingOf(m, view.azimuth, view.elevation), Vector(0.0, 0.0, 0.0);
    assert InBox(frame.halfSize, middle) && Seen(AxesOf(f), middle) == Point(0.0, 0.0);
    OutlineIsPictureOfBox(f, frame.halfSize, Point(0.0, 0.0));
    OverModelKeepsInside(Point(0.0, 0.0), OutlineOf(f, frame.halfSize));
  }

  /** Where a place `p` from the model's centre is, seen from the camera. */
  lemma PlaceOfPoint(m: Maths, view: View, frame: Frame, p: Vector)
    requires m.Lawful() && Shift(view) == Point(0.0, 0.0)
    ensures var axes, place := AxesOf(FacingOf(m, view.azimuth, view.elevation)), Sum(frame.centre, p);
      && Depth(m, view, frame, place) == frame.distance - DotV(p, axes.back)
      && Aside(m, view, frame, place, axes.right) == DotV(p, axes.right)
      && Aside(m, view, frame, place, axes.up) == DotV(p, axes.up)
  {
    hide Depth, Aside, AxesOf, FacingOf, DotV, Placed, Facing.Unit, Maths.Lawful;
    var f := FacingOf(m, view.azimuth, view.elevation);
    FacingIsUnit(m, view.azimuth, view.elevation);
    DepthOfPoint(m, view, frame, p);
    FrameJoins(f, Shift(view), frame.distance);
    AsideOfPoint(m, view, frame, p, AxesOf(f).right);
    AsideOfPoint(m, view, frame, p, AxesOf(f).up);
  }

  lemma AsideOfPoint(m: Maths, view: View, frame: Frame, p: Vector, axis: Vector)
    ensures var camera := Placed(AxesOf(FacingOf(m, view.azimuth, view.elevation)), Shift(view), frame.distance);
      Aside(m, view, frame, Sum(frame.centre, p), axis) == DotV(p, axis) - DotV(camera, axis)
  {
    hide DotV, AxesOf, FacingOf;
    var camera := Placed(AxesOf(FacingOf(m, view.azimuth, view.elevation)), Shift(view), frame.distance);
    assert Minus(Sum(frame.centre, p), PoseOf(m, view, frame).position) == Minus(p, camera);
    DotOfDifference(p, camera, axis);
  }

  function LengthSquared(p: Vector): real {
    Square(p.x) + Square(p.y) + Square(p.z)
  }

  /** The view a model starts in shows, from top to bottom, all of the model's
      sphere, and from side to side all of it exactly when it is wide enough. */
  lemma FittingViewShowsSphere(m: Maths, centre: seq<Number>, halfSize: seq<Number>, aspect: Number,
                               azimuth: Number, elevation: Number)
    requires m.Lawful()
    ensures var frame := ModelFrame(m, centre, halfSize);
      var view := StandardView(m, frame, aspect, azimuth, elevation);
      && view.zoom > 0.0
      && (forall p :: LengthSquared(p) <= Square(frame.radius) ==> InHeight(m, view, frame, Sum(frame.centre, p)))
      && ((forall p :: LengthSquared(p) <= Square(frame.radius) ==>
             InWidth(m, view, frame, aspect, Sum(frame.centre, p)))
          <==> WideEnough(m, aspect))
  {
    hide Square, ModelFrame, StandardView, InHeight, InWidth, LengthSquared, WideEnough;
    var frame := ModelFrame(m, centre, halfSize);
    var view := StandardView(m, frame, aspect, azimuth, elevation);
    FrameHoldsModel(m, centre, halfSize);
    FrameDistance(m, centre, halfSize);
    StartsAtCentre(m, frame, aspect, azimuth, elevation);
    forall p | LengthSquared(p) <= Square(frame.radius)
      ensures InHeight(m, view, frame, Sum(frame.centre, p))
      ensures WideEnough(m, aspect) ==> InWidth(m, view, frame, aspect, Sum(frame.centre, p))
    {
      SpherePointIsIn(m, view, frame, aspect, p);
    }
    if !WideEnough(m, aspect) {
      var p := SomePointIsOut(m, view, frame, aspect);
    }
  }

  lemma HalfViews(m: Maths, frame: Frame, aspect: Number)
    requires m.Lawful() && frame.radius > 0.0 && frame.distance == frame.radius * FIT_MARGIN / m.sin(m.HalfField())
    ensures var zoom := FittingZoom(aspect);
      && 0.0 < zoom && HalfView(m, zoom) > 0.0 && HalfAcross(m, zoom, aspect) > 0.0
      && Covers(HalfView(m, zoom), frame.distance, frame.radius)
      && (Covers(HalfAcross(m, zoom, aspect), frame.distance, frame.radius) <==> WideEnough(m, aspect))
  {
    hide Square, Times, Covers;
    LeastZoomIsWideEnough(m, aspect);
    var s, c, zoom, wide := m.sin(m.HalfField()), m.cos(m.HalfField()), FittingZoom(aspect), Wide(aspect);
    var tall := HalfView(m, zoom);
    assert frame.distance * s == frame.radius * FIT_MARGIN;
    Quotients(s, c, zoom, wide, tall);
    CoversExactly(tall, frame.distance, frame.radius, s, c, 1.0 / zoom);
    assert 1.0 / zoom >= 1.0 by { Inverse(zoom); }
    AtLeastOne(1.0 / zoom, Square(FIT_MARGIN) - Square(s), s, c);
    CoversExactly(HalfAcross(m, zoom, aspect), frame.distance, frame.radius, s, c, wide / zoom);
    assert WideEnough(m, aspect) <==> Times(Square(wide / zoom), Square(FIT_MARGIN) - Square(s)) > Square(c);
  }

  lemma FacingIsUnit(m: Maths, azimuth: real, elevation: real)
    requires m.Lawful()
    ensures FacingOf(m, azimuth, elevation).Unit()
  {
  }

  lemma Inverse(zoom: real)
    requires 0.0 < zoom <= 1.0
    ensures 1.0 / zoom >= 1.0
  {
    var i := 1.0 / zoom;
    assert i * zoom == 1.0;
    if i < 1.0 {
      ProductPositive(1.0 - i, zoom);
    }
  }

  lemma Quotients(s: real, c: real, zoom: real, wide: real, tall: real)
    requires s > 0.0 && c > 0.0 && zoom > 0.0 && wide > 0.0 && tall == s / c / zoom
    ensures tall > 0.0 && tall * wide > 0.0
    ensures tall * c == s * (1.0 / zoom) && tall * wide * c == s * (wide / zoom)
  {
    var t, i := s / c, 1.0 / zoom;
    assert t * c == s && i * zoom == 1.0 && tall * zoom == t;
    Positive(c, t);
    Positive(zoom, tall);
    ProductPositive(tall, wide);
    assert tall == t * i by { assert tall * zoom == t * i * zoom; }
    assert wide / zoom == wide * i;
  }

  lemma SpherePointIsIn(m: Maths, view: View, frame: Frame, aspect: Number, p: Vector)
    requires m.Lawful() && Shift(view) == Point(0.0, 0.0) && view.zoom == FittingZoom(aspect) > 0.0
    requires 0.0 < frame.radius < frame.distance
    requires frame.distance == frame.radius * FIT_MARGIN / m.sin(m.HalfField())
    requires LengthSquared(p) <= Square(frame.radius)
    ensures InHeight(m, view, frame, Sum(frame.centre, p))
    ensures WideEnough(m, aspect) ==> InWidth(m, view, frame, aspect, Sum(frame.centre, p))
  {
    hide Square, Times, Covers, DotV, Depth, Aside;
    hide HalfView, HalfAcross, WideEnough, Wide, FittingZoom, AxesOf, FacingOf;
    hide Maths.Lawful, Facing.Unit;
    FacingIsUnit(m, view.azimuth, view.elevation);
    var f := FacingOf(m, view.azimuth, view.elevation);
    var axes, tall := AxesOf(f), HalfView(m, view.zoom);
    var x, y, b := DotV(p, axes.right), DotV(p, axes.up), DotV(p, axes.back);
    PlaceOfPoint(m, view, frame, p);
    FrameSplits(f, p);
    HalfViews(m, frame, aspect);
    SquareSigns(x);
    SquareSigns(y);
    SphereIsInside(tall, frame.distance, frame.radius, y, b);
    if WideEnough(m, aspect) {
      SphereIsInside(HalfAcross(m, view.zoom, aspect), frame.distance, frame.radius, x, b);
    }
  }

  lemma SomePointIsOut(m: Maths, view: View, frame: Frame, aspect: Number) returns (p: Vector)
    requires m.Lawful() && Shift(view) == Point(0.0, 0.0) && view.zoom == FittingZoom(aspect) > 0.0
    requires 0.0 < frame.radius < frame.distance
    requires frame.distance == frame.radius * FIT_MARGIN / m.sin(m.HalfField())
    requires !WideEnough(m, aspect)
    ensures LengthSquared(p) <= Square(frame.radius) && !InWidth(m, view, frame, aspect, Sum(frame.centre, p))
  {
    hide Square, Times, Covers, DotV, Depth, Aside;
    hide HalfView, HalfAcross, WideEnough, Wide, FittingZoom, AxesOf, FacingOf;
    hide Facing.Unit, Placed;
    FacingIsUnit(m, view.azimuth, view.elevation);
    var f := FacingOf(m, view.azimuth, view.elevation);
    var dd, rr := Square(frame.distance), Square(frame.radius);
    HalfViews(m, frame, aspect);
    SquareGrows(frame.radius, frame.distance);
    var x, b := SphereReachesOut(HalfAcross(m, view.zoom, aspect), frame.distance, frame.radius, m.sqrt(dd - rr));
    p := Placed(AxesOf(f), Point(x, 0.0), b);
    FrameJoins(f, Point(x, 0.0), b);
    FrameSplits(f, p);
    PlaceOfPoint(m, view, frame, p);
    SquareOfNone();
  }

  lemma SquareOfNone()
    ensures Square(0.0) == 0.0
  {
  }

  /** The view a model starts in shows the whole model: always from top to
      bottom, and from side to side when it is wide enough. */
  lemma FittingViewShowsModel(m: Maths, centre: seq<Number>, halfSize: seq<Number>, aspect: Number,
                              azimuth: Number, elevation: Number, p: Vector)
    requires m.Lawful() && InBox(ModelFrame(m, centre, halfSize).halfSize, p)
    ensures var frame := ModelFrame(m, centre, halfSize);
      var view := StandardView(m, frame, aspect, azimuth, elevation);
      && view.zoom > 0.0
      && InHeight(m, view, frame, Sum(frame.centre, p))
      && (WideEnough(m, aspect) ==> InWidth(m, view, frame, aspect, Sum(frame.centre, p)))
  {
    hide Square, ModelFrame, StandardView, InHeight, InWidth, WideEnough;
    var frame := ModelFrame(m, centre, halfSize);
    FrameHoldsModel(m, centre, halfSize);
    SquareOfSide(frame.halfSize.x, p.x);
    SquareOfSide(frame.halfSize.y, p.y);
    SquareOfSide(frame.halfSize.z, p.z);
    assert LengthSquared(p) <= Square(frame.radius);
    FittingViewShowsSphere(m, centre, halfSize, aspect, azimuth, elevation);
  }
}
