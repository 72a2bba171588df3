/** Projecting the model's box along the camera's direction. The directions come
    from the cosines and sines of two angles. */
module BoxOutline {
  import opened Plane
  import opened Regions
  import ConvexOutline
  import Mixtures
  import ShiftLimit

  datatype Vector = Vector(x: real, y: real, z: real)

  function DotV(a: Vector, b: Vector): real {
    a.x * b.x + a.y * b.y + a.z * b.z
  }

  /** The azimuth's and the elevation's cosine and sine. */
  datatype Facing = Facing(along: real, across: real, flat: real, lift: real) {
    ghost predicate Unit() {
      && Square(along) + Square(across) == 1.0
      && Square(flat) + Square(lift) == 1.0
    }
  }

  datatype Axes = Axes(back: Vector, right: Vector, up: Vector)

  function AxesOf(f: Facing): Axes {
    Axes(Vector(f.flat * f.across, f.lift, f.flat * f.along),
         Vector(f.along, 0.0, -f.across),
         Vector(-f.lift * f.across, f.flat, -f.lift * f.along))
  }

  /** Where `p` appears in the camera's plane. */
  function Seen(axes: Axes, p: Vector): Point {
    Point(DotV(p, axes.right), DotV(p, axes.up))
  }

  predicate InBox(half: Vector, p: Vector) {
    && -half.x <= p.x <= half.x
    && -half.y <= p.y <= half.y
    && -half.z <= p.z <= half.z
  }

  function Side(positive: bool, h: real): real {
    if positive then h else -h
  }

  function Corner(axes: Axes, half: Vector, x: bool, y: bool, z: bool): Point {
    Seen(axes, Vector(Side(x, half.x), Side(y, half.y), Side(z, half.z)))
  }

  function Corners(axes: Axes, half: Vector): seq<Point> {
    [ Corner(axes, half, false, false, false), Corner(axes, half, false, false, true),
      Corner(axes, half, false, true, false), Corner(axes, half, false, true, true),
      Corner(axes, half, true, false, false), Corner(axes, half, true, false, true),
      Corner(axes, half, true, true, false), Corner(axes, half, true, true, true) ]
  }

  function OutlineOf(f: Facing, half: Vector): seq<Point> {
    ConvexOutline.Outline(Corners(AxesOf(f), half))
  }

  /** The corners pushed in three nested loops, then the outline around them. */
  method FindOutlineOf(f: Facing, half: Vector) returns (shape: seq<Point>)
    ensures shape == OutlineOf(f, half)
    ensures ConvexOutline.IsOutlineOf(shape, Corners(AxesOf(f), half))
  {
    hide ConvexOutline.IsOutlineOf, Seen;
    var axes := AxesOf(f);
    var corners: seq<Point> := [];
    for i := 0 to 2
      invariant corners == Corners(axes, half)[..4 * i]
    {
      for j := 0 to 2
        invariant corners == Corners(axes, half)[..4 * i + 2 * j]
      {
        for k := 0 to 2
          invariant corners == Corners(axes, half)[..4 * i + 2 * j + k]
        {
          corners := corners + [Corner(axes, half, i == 1, j == 1, k == 1)];
        }
      }
    }
    assert corners == Corners(axes, half);
    shape := ConvexOutline.FindOutline(corners);
  }

  // ----- an orthonormal frame -----

  function Mixed(a: real, b: real, p: real, q: real): real {
    a * p + b * q
  }

  /** Turning by a unit pair and back. */
  lemma Rotation(c: real, s: real, p: real, q: real)
    requires Square(c) + Square(s) == 1.0
    ensures Mixed(c, s, Mixed(c, -s, p, q), Mixed(s, c, p, q)) == p
    ensures Mixed(-s, c, Mixed(c, -s, p, q), Mixed(s, c, p, q)) == q
  {
    assert c * (c * p - s * q) + s * (s * p + c * q) == (Square(c) + Square(s)) * p;
    assert -s * (c * p - s * q) + c * (s * p + c * q) == (Square(c) + Square(s)) * q;
  }

  lemma RotationBack(c: real, s: real, p: real, q: real)
    requires Square(c) + Square(s) == 1.0
    ensures Mixed(c, -s, Mixed(c, s, p, q), Mixed(-s, c, p, q)) == p
    ensures Mixed(s, c, Mixed(c, s, p, q), Mixed(-s, c, p, q)) == q
  {
    Rotation(c, -s, p, q);
  }

  lemma RotationKeepsLength(c: real, s: real, p: real, q: real)
    requires Square(c) + Square(s) == 1.0
    ensures Square(Mixed(c, -s, p, q)) + Square(Mixed(s, c, p, q)) == Square(p) + Square(q)
  {
    assert Square(Mixed(c, -s, p, q)) + Square(Mixed(s, c, p, q))
        == (Square(c) + Square(s)) * (Square(p) + Square(q));
  }

  function Sum(a: Vector, b: Vector): Vector {
    Vector(a.x + b.x, a.y + b.y, a.z + b.z)
  }

  function Scaled(a: Vector, t: real): Vector {
    Vector(a.x * t, a.y * t, a.z * t)
  }

  /** The point at shift `s` and `t` towards the camera. */
  function Placed(axes: Axes, s: Point, t: real): Vector {
    Sum(Sum(Scaled(axes.right, s.x), Scaled(axes.up, s.y)), Scaled(axes.back, t))
  }

  /** How far `p` is along the view, seen from above. */
  function Level(f: Facing, p: Vector): real {
    Mixed(f.across, f.along, p.x, p.z)
  }

  lemma Expand(k: real, l: real, m: real, u: real, b: real)
    ensures k * Mixed(l, m, u, b) == (l * k) * u + (m * k) * b
  {
  }

  lemma Components(f: Facing, p: Vector)
    ensures DotV(p, AxesOf(f).right) == Mixed(f.along, -f.across, p.x, p.z)
    ensures DotV(p, AxesOf(f).up) == Mixed(f.flat, -f.lift, p.y, Level(f, p))
    ensures DotV(p, AxesOf(f).back) == Mixed(f.lift, f.flat, p.y, Level(f, p))
  {
    Expand(-f.lift, f.across, f.along, p.x, p.z);
    Expand(f.flat, f.across, f.along, p.x, p.z);
  }

  lemma PlacedIs(f: Facing, s: Point, b: real)
    ensures var w := Mixed(-f.lift, f.flat, s.y, b);
      Placed(AxesOf(f), s, b) == Vector(Mixed(f.along, f.across, s.x, w), Mixed(f.flat, f.lift, s.y, b),
                                        Mixed(-f.across, f.along, s.x, w))
  {
    hide Mixed;
    PlacedPart(f.along, f.across, -f.lift, f.flat, s.x, s.y, b);
    PlacedPart(-f.across, f.along, -f.lift, f.flat, s.x, s.y, b);
    PlacedHeight(f.flat, f.lift, s.x, s.y, b);
  }

  lemma PlacedPart(a: real, k: real, l: real, m: real, r: real, u: real, b: real)
    ensures a * r + (l * k) * u + (m * k) * b == Mixed(a, k, r, Mixed(l, m, u, b))
  {
    Expand(k, l, m, u, b);
  }

  lemma PlacedHeight(flat: real, lift: real, r: real, u: real, b: real)
    ensures 0.0 * r + flat * u + lift * b == Mixed(flat, lift, u, b)
  {
  }

  /** The three directions split any point, and keep its length. */
  lemma FrameSplits(f: Facing, p: Vector)
    requires f.Unit()
    ensures Placed(AxesOf(f), Seen(AxesOf(f), p), DotV(p, AxesOf(f).back)) == p
    ensures Square(DotV(p, AxesOf(f).right)) + Square(DotV(p, AxesOf(f).up)) + Square(DotV(p, AxesOf(f).back))
      == Square(p.x) + Square(p.y) + Square(p.z)
  {
    hide Square, DotV, Mixed, Placed, AxesOf;
    Components(f, p);
    PlacedIs(f, Seen(AxesOf(f), p), DotV(p, AxesOf(f).back));
    Rotation(f.along, f.across, p.x, p.z);
    RotationKeepsLength(f.along, f.across, p.x, p.z);
    Rotation(f.flat, f.lift, p.y, Level(f, p));
    RotationKeepsLength(f.flat, f.lift, p.y, Level(f, p));
  }

  /** A point put somewhere in the frame is found there again. */
  lemma FrameJoins(f: Facing, s: Point, t: real)
    requires f.Unit()
    ensures Seen(AxesOf(f), Placed(AxesOf(f), s, t)) == s
    ensures DotV(Placed(AxesOf(f), s, t), AxesOf(f).back) == t
  {
    hide Square, DotV, Mixed, Placed, AxesOf;
    PlacedIs(f, s, t);
    Components(f, Placed(AxesOf(f), s, t));
    RotationBack(f.along, f.across, s.x, Mixed(-f.lift, f.flat, s.y, t));
    RotationBack(f.flat, f.lift, s.y, t);
  }

  // ----- the outline is the picture of the whole box -----

  ghost predicate SeenInBox(f: Facing, half: Vector, s: Point) {
    exists p: Vector :: InBox(half, p) && Seen(AxesOf(f), p) == s
  }

  function LerpV(a: Vector, b: Vector, t: real): Vector {
    Vector(a.x + t * (b.x - a.x), a.y + t * (b.y - a.y), a.z + t * (b.z - a.z))
  }

  /** Between two points that differ along some axes only. */
  lemma LerpAlong(a: Vector, b: Vector, t: real)
    ensures a.x == b.x ==> LerpV(a, b, t).x == a.x
    ensures a.y == b.y ==> LerpV(a, b, t).y == a.y
    ensures a.z == b.z ==> LerpV(a, b, t).z == a.z
  {
  }

  lemma DotIsLinear(a: Vector, b: Vector, t: real, d: Vector)
    ensures DotV(LerpV(a, b, t), d) == DotV(a, d) + t * (DotV(b, d) - DotV(a, d))
  {
    assert (t * (b.x - a.x)) * d.x == t * (b.x * d.x - a.x * d.x);
    assert (t * (b.y - a.y)) * d.y == t * (b.y * d.y - a.y * d.y);
    assert (t * (b.z - a.z)) * d.z == t * (b.z * d.z - a.z * d.z);
  }

  lemma SeenIsLinear(axes: Axes, a: Vector, b: Vector, t: real)
    ensures Seen(axes, LerpV(a, b, t)) == Lerp(Seen(axes, a), Seen(axes, b), t)
  {
    hide DotV;
    DotIsLinear(a, b, t, axes.right);
    DotIsLinear(a, b, t, axes.up);
  }

  lemma Within(low: real, high: real, a: real, b: real, t: real)
    requires low <= a <= high && low <= b <= high && 0.0 <= t <= 1.0
    ensures low <= a + t * (b - a) <= high
  {
    ShiftLimit.Mix(a - low, b - low, t);
    ShiftLimit.Mix(high - a, high - b, t);
  }

  lemma BoxIsConvex(half: Vector, a: Vector, b: Vector, t: real)
    requires InBox(half, a) && InBox(half, b) && 0.0 <= t <= 1.0
    ensures InBox(half, LerpV(a, b, t))
  {
    Within(-half.x, half.x, a.x, b.x, t);
    Within(-half.y, half.y, a.y, b.y, t);
    Within(-half.z, half.z, a.z, b.z, t);
  }

  lemma SeenInBoxIsConvex(f: Facing, half: Vector)
    ensures Mixtures.ConvexSet(s => SeenInBox(f, half, s))
  {
    hide Seen, Lerp, InBox;
    forall s, z, t: real | SeenInBox(f, half, s) && SeenInBox(f, half, z) && 0.0 <= t <= 1.0
      ensures SeenInBox(f, half, Lerp(s, z, t))
    {
      var a :| InBox(half, a) && Seen(AxesOf(f), a) == s;
      var b :| InBox(half, b) && Seen(AxesOf(f), b) == z;
      BoxIsConvex(half, a, b, t);
      SeenIsLinear(AxesOf(f), a, b, t);
    }
  }

  lemma CornersAreSeen(f: Facing, half: Vector, q: Point)
    requires half.x >= 0.0 && half.y >= 0.0 && half.z >= 0.0
    requires q in Corners(AxesOf(f), half)
    ensures SeenInBox(f, half, q)
  {
    var x, y, z :| q == Corner(AxesOf(f), half, x, y, z);
    var p := Vector(Side(x, half.x), Side(y, half.y), Side(z, half.z));
    assert InBox(half, p) && Seen(AxesOf(f), p) == q;
  }

  /** A number between `-h` and `h` as a mixture of the two. */
  lemma FractionOfSide(h: real, x: real) returns (t: real)
    requires -h <= x <= h
    ensures 0.0 <= t <= 1.0 && x == -h + t * (h - -h)
  {
    if h == 0.0 {
      t := 0.0;
    } else {
      t := (x + h) / (2.0 * h);
      assert t * (2.0 * h) == x + h;
      Mixtures.Fraction(x + h, 2.0 * h);
    }
  }

  /** Whether the convex region `shape` has the picture of `p`. */
  ghost predicate Shows(shape: seq<Point>, axes: Axes, p: Vector)
    requires shape != []
  {
    InRegion(shape, Seen(axes, p))
  }

  lemma ShowsBetween(shape: seq<Point>, axes: Axes, a: Vector, b: Vector, t: real)
    requires Convex(shape) && Shows(shape, axes, a) && Shows(shape, axes, b) && 0.0 <= t <= 1.0
    ensures Shows(shape, axes, LerpV(a, b, t))
  {
    hide Convex, InRegion, Seen, LerpV, Lerp;
    SeenIsLinear(axes, a, b, t);
    RegionIsConvexAt(shape, Seen(axes, a), Seen(axes, b), t);
  }

  lemma RegionIsConvexAt(shape: seq<Point>, p: Point, q: Point, t: real)
    requires Convex(shape) && InRegion(shape, p) && InRegion(shape, q) && 0.0 <= t <= 1.0
    ensures InRegion(shape, Lerp(p, q, t))
  {
    ShiftLimit.RegionIsConvex(shape, p, q, t);
  }

  lemma BoxIsShown(f: Facing, half: Vector, p: Vector)
    requires InBox(half, p)
    ensures Convex(OutlineOf(f, half)) && Shows(OutlineOf(f, half), AxesOf(f), p)
  {
    hide Seen, InRegion, Convex, OutlineOf;
    CornersAreShown(f, half);
    var u := FractionOfSide(half.x, p.x);
    var v := FractionOfSide(half.y, p.y);
    var w := FractionOfSide(half.z, p.z);
    ShownInside(OutlineOf(f, half), AxesOf(f), half, p, u, v, w);
  }

  lemma CornersAreShown(f: Facing, half: Vector)
    ensures Convex(OutlineOf(f, half))
    ensures forall x, y, z :: InRegion(OutlineOf(f, half), Corner(AxesOf(f), half, x, y, z))
  {
    hide Seen, InRegion, Convex, AxesOf;
    ConvexOutline.OutlineIsConvexHull(Corners(AxesOf(f), half));
    forall x, y, z ensures InRegion(OutlineOf(f, half), Corner(AxesOf(f), half, x, y, z)) {
      assert Corner(AxesOf(f), half, x, y, z) in Corners(AxesOf(f), half);
    }
  }

  /** From the corners to the edges, to the sides and to the inside. */
  lemma ShownInside(shape: seq<Point>, axes: Axes, half: Vector, p: Vector, u: real, v: real, w: real)
    requires Convex(shape)
    requires forall x, y, z :: InRegion(shape, Corner(axes, half, x, y, z))
    requires 0.0 <= u <= 1.0 && 0.0 <= v <= 1.0 && 0.0 <= w <= 1.0
    requires p == Vector(-half.x + u * (half.x - -half.x), -half.y + v * (half.y - -half.y),
                         -half.z + w * (half.z - -half.z))
    ensures Shows(shape, axes, p)
  {
    hide InRegion, Seen;
    ShownOnSide(shape, axes, half, false, p, v, w);
    ShownOnSide(shape, axes, half, true, p, v, w);
    var a, b := Vector(-half.x, p.y, p.z), Vector(half.x, p.y, p.z);
    ShowsBetween(shape, axes, a, b, u);
    LerpAlong(a, b, u);
    assert LerpV(a, b, u) == p;
  }

  lemma ShownOnSide(shape: seq<Point>, axes: Axes, half: Vector, x: bool, p: Vector, v: real, w: real)
    requires Convex(shape)
    requires forall x, y, z :: InRegion(shape, Corner(axes, half, x, y, z))
    requires 0.0 <= v <= 1.0 && 0.0 <= w <= 1.0
    requires p.y == -half.y + v * (half.y - -half.y) && p.z == -half.z + w * (half.z - -half.z)
    ensures Shows(shape, axes, Vector(Side(x, half.x), p.y, p.z))
  {
    hide InRegion, Seen;
    ShownOnEdge(shape, axes, half, x, false, p.z, w);
    ShownOnEdge(shape, axes, half, x, true, p.z, w);
    var a, b := Vector(Side(x, half.x), -half.y, p.z), Vector(Side(x, half.x), half.y, p.z);
    ShowsBetween(shape, axes, a, b, v);
    LerpAlong(a, b, v);
    assert LerpV(a, b, v) == Vector(Side(x, half.x), p.y, p.z);
  }

  lemma ShownOnEdge(shape: seq<Point>, axes: Axes, half: Vector, x: bool, y: bool, pz: real, w: real)
    requires Convex(shape)
    requires forall x, y, z :: InRegion(shape, Corner(axes, half, x, y, z))
    requires 0.0 <= w <= 1.0 && pz == -half.z + w * (half.z - -half.z)
    ensures Shows(shape, axes, Vector(Side(x, half.x), Side(y, half.y), pz))
  {
    hide InRegion, Seen;
    assert InRegion(shape, Corner(axes, half, x, y, false)) && InRegion(shape, Corner(axes, half, x, y, true));
    var a, b := Vector(Side(x, half.x), Side(y, half.y), -half.z), Vector(Side(x, half.x), Side(y, half.y), half.z);
    ShowsBetween(shape, axes, a, b, w);
    LerpAlong(a, b, w);
    assert LerpV(a, b, w) == Vector(Side(x, half.x), Side(y, half.y), pz);
  }

  /** The outline of the eight corners holds exactly what is seen of the box. */
  lemma OutlineIsPictureOfBox(f: Facing, half: Vector, s: Point)
    requires half.x >= 0.0 && half.y >= 0.0 && half.z >= 0.0
    ensures Convex(OutlineOf(f, half))
    ensures InRegion(OutlineOf(f, half), s) <==> SeenInBox(f, half, s)
  {
    hide Seen, InRegion, Convex, SeenInBox, Mixtures.ConvexSet;
    var shape, corners := OutlineOf(f, half), Corners(AxesOf(f), half);
    ConvexOutline.OutlineIsConvexHull(corners);
    if InRegion(shape, s) {
      SeenInBoxIsConvex(f, half);
      forall p | p in shape ensures SeenInBox(f, half, p) {
        CornersAreSeen(f, half, p);
      }
      Mixtures.RegionIsMixtures(z => SeenInBox(f, half, z), shape, s);
    }
    if SeenInBox(f, half, s) {
      SeenIsShown(f, half, s);
    }
  }

  lemma SeenIsShown(f: Facing, half: Vector, s: Point)
    requires SeenInBox(f, half, s)
    ensures InRegion(OutlineOf(f, half), s)
  {
    var p :| InBox(half, p) && Seen(AxesOf(f), p) == s;
    BoxIsShown(f, half, p);
  }

  /** The line the camera looks along at shift `s` meets the box. */
  ghost predicate LineMeetsBox(f: Facing, half: Vector, s: Point) {
    exists t: real :: InBox(half, Placed(AxesOf(f), s, t))
  }

  /** The line through the middle of the view meets the box exactly when the
      shift is inside the outline. */
  lemma MiddleShowsBox(f: Facing, half: Vector, s: Point)
    requires f.Unit() && half.x >= 0.0 && half.y >= 0.0 && half.z >= 0.0
    ensures InRegion(OutlineOf(f, half), s) <==> LineMeetsBox(f, half, s)
  {
    hide InBox, Seen, DotV, Placed, InRegion, OutlineOf;
    OutlineIsPictureOfBox(f, half, s);
    if SeenInBox(f, half, s) {
      var p :| InBox(half, p) && Seen(AxesOf(f), p) == s;
      FrameSplits(f, p);
    }
    if LineMeetsBox(f, half, s) {
      var t: real :| InBox(half, Placed(AxesOf(f), s, t));
      FrameJoins(f, s, t);
    }
  }
}
