/** A box has at most six corners on its outline: of the eight corners seen, two
    opposite ones are always inside or double. */
module SixCorners {
  import opened Plane
  import opened Regions
  import opened BoxOutline
  import ConvexOutline

  /** What is seen of the box's half size along each of its axes. */
  datatype Edges = Edges(x: Point, y: Point, z: Point) {
    function Corner(x: bool, y: bool, z: bool): Point {
      Point(Side(x, this.x.x) + Side(y, this.y.x) + Side(z, this.z.x),
            Side(x, this.x.y) + Side(y, this.y.y) + Side(z, this.z.y))
    }
  }

  const NOWHERE := Point(0.0, 0.0)

  function EdgesOf(axes: Axes, half: Vector): Edges {
    Edges(Seen(axes, Vector(half.x, 0.0, 0.0)),
          Seen(axes, Vector(0.0, half.y, 0.0)),
          Seen(axes, Vector(0.0, 0.0, half.z)))
  }

  lemma CornerIs(axes: Axes, half: Vector, x: bool, y: bool, z: bool)
    ensures BoxOutline.Corner(axes, half, x, y, z) == EdgesOf(axes, half).Corner(x, y, z)
  {
  }

  // ----- a corner of an outline -----

  /** From corner `v`, every other point `q` is on the left along `e`. */
  predicate IsLeft(e: Point, v: Point, q: Point) {
    q != v ==> Det(e, To(v, q)) > 0.0
  }

  /** There is a line through each corner with all the rest on its left. */
  lemma CornerStandsOut(shape: seq<Point>, i: nat) returns (h: nat, k: nat)
    requires |shape| >= 3 && Convex(shape) && i < |shape|
    ensures h < |shape| && k < |shape|
    ensures forall q :: LeftOfAll(shape, q) ==> IsLeft(To(shape[h], shape[k]), shape[i], q)
  {
    hide Cross, Det;
    h := if i == 0 then |shape| - 1 else i - 1;
    k := NextIndex(i, |shape|);
    assert NextIndex(h, |shape|) == i;
    var a, v, b := shape[h], shape[i], shape[k];
    assert StrictTurn(shape, h);
    forall q | LeftOfAll(shape, q) ensures IsLeft(To(a, b), v, q) {
      assert LeftOfEdge(shape, h, q) && LeftOfEdge(shape, i, q);
      TwoSides(a, v, b, q);
    }
  }

  lemma TwoSides(a: Point, v: Point, b: Point, q: Point)
    requires Cross(a, v, b) > 0.0 && Cross(a, v, q) >= 0.0 && Cross(v, b, q) >= 0.0
    ensures IsLeft(To(a, b), v, q)
  {
    var e, f, w := To(a, v), To(v, b), To(v, q);
    CrossIsDet(a, v, b);
    CrossIsDet(a, v, q);
    CrossIsDet(v, b, q);
    assert Det(To(a, b), w) == Det(e, w) + Det(f, w);
    if Det(e, w) == 0.0 && Det(f, w) == 0.0 {
      DetIdentity(e, w, f);
      NoFactor(Det(e, f), w.x);
      NoFactor(Det(e, f), w.y);
    }
  }

  lemma NoFactor(a: real, b: real)
    requires a > 0.0 && b * a == 0.0
    ensures b == 0.0
  {
  }

  /** All eight corners seen are left of every edge of the outline. */
  ghost predicate Holds(shape: seq<Point>, g: Edges) {
    forall x, y, z :: LeftOfAll(shape, g.Corner(x, y, z))
  }

  /** Going along any of the box's axes leads away from a corner that stands out. */
  lemma AxesLeadAway(shape: seq<Point>, g: Edges, e: Point, x: bool, y: bool, z: bool)
    requires Holds(shape, g) && forall q :: LeftOfAll(shape, q) ==> IsLeft(e, g.Corner(x, y, z), q)
    ensures g.x != NOWHERE ==> Side(x, Det(e, g.x)) < 0.0
    ensures g.y != NOWHERE ==> Side(y, Det(e, g.y)) < 0.0
    ensures g.z != NOWHERE ==> Side(z, Det(e, g.z)) < 0.0
  {
    hide LeftOfAll;
    var v := g.Corner(x, y, z);
    assert IsLeft(e, v, g.Corner(!x, y, z)) && IsLeft(e, v, g.Corner(x, !y, z)) && IsLeft(e, v, g.Corner(x, y, !z));
    Flipped(e, v, g.Corner(!x, y, z), x, g.x);
    Flipped(e, v, g.Corner(x, !y, z), y, g.y);
    Flipped(e, v, g.Corner(x, y, !z), z, g.z);
  }

  lemma Flipped(e: Point, v: Point, q: Point, side: bool, g: Point)
    requires IsLeft(e, v, q) && To(v, q) == Point(-2.0 * Side(side, g.x), -2.0 * Side(side, g.y))
    ensures g != NOWHERE ==> Side(side, Det(e, g)) < 0.0
  {
    assert Det(e, To(v, q)) == -2.0 * Side(side, Det(e, g));
  }

  // ----- the two corners that do not stand out -----

  /** Three vectors of a plane depend on each other. */
  lemma Dependent(e: Point, g: Edges)
    ensures Det(g.y, g.z) * Det(e, g.x) + Det(g.z, g.x) * Det(e, g.y) + Det(g.x, g.y) * Det(e, g.z) == 0.0
  {
    DetIdentity(g.x, g.y, g.z);
    var a, b, c := Det(g.y, g.z), Det(g.z, g.x), Det(g.x, g.y);
    assert a * g.x.x + b * g.y.x + c * g.z.x == 0.0;
    assert a * g.x.y + b * g.y.y + c * g.z.y == 0.0;
    assert a * Det(e, g.x) + b * Det(e, g.y) + c * Det(e, g.z)
        == e.x * (a * g.x.y + b * g.y.y + c * g.z.y) - e.y * (a * g.x.x + b * g.y.x + c * g.z.x);
  }

  /** The sides of the corner that is inside; so is its opposite. */
  function InsideX(g: Edges): bool { Det(g.y, g.z) >= 0.0 }

  function InsideY(g: Edges): bool { Det(g.z, g.x) >= 0.0 }

  function InsideZ(g: Edges): bool { Det(g.x, g.y) >= 0.0 }

  lemma ProductIsSigned(a: real, p: real, side: bool)
    requires Side(side, p) < 0.0
    ensures side == (a >= 0.0) ==> a * p <= 0.0 && (a != 0.0 ==> a * p < 0.0)
    ensures side != (a >= 0.0) ==> a * p >= 0.0 && (a != 0.0 ==> a * p > 0.0)
  {
    var b, q := if a >= 0.0 then a else -a, if p >= 0.0 then p else -p;
    ProductSign(b, q);
    if a != 0.0 {
      ProductPositive(b, q);
    }
    assert a * p == b * q || a * p == -(b * q);
  }

  lemma InsideDoesNotStandOut(g: Edges, e: Point, x: bool, y: bool, z: bool)
    requires Side(x, Det(e, g.x)) < 0.0 && Side(y, Det(e, g.y)) < 0.0 && Side(z, Det(e, g.z)) < 0.0
    requires Det(g.y, g.z) != 0.0 || Det(g.z, g.x) != 0.0 || Det(g.x, g.y) != 0.0
    ensures !(x == InsideX(g) && y == InsideY(g) && z == InsideZ(g))
    ensures !(x != InsideX(g) && y != InsideY(g) && z != InsideZ(g))
  {
    hide Det;
    Dependent(e, g);
    ProductIsSigned(Det(g.y, g.z), Det(e, g.x), x);
    ProductIsSigned(Det(g.z, g.x), Det(e, g.y), y);
    ProductIsSigned(Det(g.x, g.y), Det(e, g.z), z);
  }

  lemma DetOfCorner(g: Edges, x: bool, y: bool, z: bool, w: Point)
    ensures Det(g.Corner(x, y, z), w) == Side(x, Det(g.x, w)) + Side(y, Det(g.y, w)) + Side(z, Det(g.z, w))
  {
  }

  lemma DetOfDifference(a: Point, b: Point, w: Point)
    ensures Det(To(a, b), w) == Det(b, w) - Det(a, w)
  {
  }

  ghost predicate IsCorner(g: Edges, p: Point) {
    exists x, y, z :: p == g.Corner(x, y, z)
  }

  /** What is seen along the axes is not all along one line, when the outline has
      three corners. */
  lemma NotAllAlongOneLine(g: Edges, a: Point, b: Point, side: bool)
    requires IsCorner(g, a) && IsCorner(g, b)
    requires Side(side, Det(To(a, b), g.x)) < 0.0
    ensures Det(g.y, g.z) != 0.0 || Det(g.z, g.x) != 0.0 || Det(g.x, g.y) != 0.0
  {
    var x, y, z :| a == g.Corner(x, y, z);
    var x', y', z' :| b == g.Corner(x', y', z');
    DetOfDifference(a, b, g.x);
    DetOfCorner(g, x, y, z, g.x);
    DetOfCorner(g, x', y', z', g.x);
    assert Det(g.x, g.x) == 0.0 && Det(g.y, g.x) == -Det(g.x, g.y);
  }

  /** An outline around eight corners, each of its corners one of them. */
  ghost predicate IsAround(shape: seq<Point>, g: Edges) {
    && |shape| >= 3 && Convex(shape) && ConvexOutline.AllDiffer(shape) && Holds(shape, g)
    && forall p :: p in shape ==> IsCorner(g, p)
  }

  /** The corners that may stand out. */
  function Six(g: Edges): (six: seq<Point>)
    ensures |six| == 6
  {
    var x, y, z := InsideX(g), InsideY(g), InsideZ(g);
    [g.Corner(x, y, !z), g.Corner(x, !y, z), g.Corner(x, !y, !z),
     g.Corner(!x, y, z), g.Corner(!x, y, !z), g.Corner(!x, !y, z)]
  }

  lemma CornerIsOfSix(shape: seq<Point>, g: Edges, i: nat)
    requires IsAround(shape, g) && i < |shape|
    requires g.x != NOWHERE && g.y != NOWHERE && g.z != NOWHERE
    ensures shape[i] in Six(g)
  {
    hide Det, Convex, LeftOfAll, IsLeft, Edges.Corner;
    assert IsCorner(g, shape[i]);
    var x, y, z :| shape[i] == g.Corner(x, y, z);
    var h, k := CornerStandsOut(shape, i);
    var e := To(shape[h], shape[k]);
    AxesLeadAway(shape, g, e, x, y, z);
    assert IsCorner(g, shape[h]) && IsCorner(g, shape[k]);
    NotAllAlongOneLine(g, shape[h], shape[k], x);
    InsideDoesNotStandOut(g, e, x, y, z);
  }

  /** With nothing seen along one axis, the corners are four. */
  function Four(g: Edges): (four: seq<Point>)
    ensures |four| == 4
  {
    if g.x == NOWHERE then
      [g.Corner(true, true, true), g.Corner(true, true, false),
       g.Corner(true, false, true), g.Corner(true, false, false)]
    else if g.y == NOWHERE then
      [g.Corner(true, true, true), g.Corner(true, true, false),
       g.Corner(false, true, true), g.Corner(false, true, false)]
    else
      [g.Corner(true, true, true), g.Corner(true, false, true),
       g.Corner(false, true, true), g.Corner(false, false, true)]
  }

  lemma CornerIsOfFour(g: Edges, p: Point)
    requires IsCorner(g, p) && (g.x == NOWHERE || g.y == NOWHERE || g.z == NOWHERE)
    ensures p in Four(g)
  {
    hide Edges.Corner;
    var x, y, z :| p == g.Corner(x, y, z);
    NothingAlong(g, x, y, z);
  }

  lemma NothingAlong(g: Edges, x: bool, y: bool, z: bool)
    ensures g.x == NOWHERE ==> g.Corner(x, y, z) == g.Corner(true, y, z)
    ensures g.y == NOWHERE ==> g.Corner(x, y, z) == g.Corner(x, true, z)
    ensures g.z == NOWHERE ==> g.Corner(x, y, z) == g.Corner(x, y, true)
  {
  }

  lemma {:induction false} NoMoreThan(list: seq<Point>, places: seq<Point>)
    requires ConvexOutline.AllDiffer(list) && forall p :: p in list ==> p in places
    ensures |list| <= |places|
    decreases |places|
  {
    if list != [] {
      assert list[0] in list;
      var first, rest := places[0], places[1..];
      assert places == [first] + rest;
      if k :| 0 <= k < |list| && list[k] == first {
        var others := list[..k] + list[k + 1..];
        forall p | p in others ensures p in rest {
          var i :| 0 <= i < |others| && others[i] == p;
          var at := if i < k then i else i + 1;
          assert list[at] == p && list[at] in list && list[at] != list[k];
        }
        NoMoreThan(others, rest);
      } else {
        NoMoreThan(list, rest);
      }
    }
  }

  lemma SeenCorners(axes: Axes, half: Vector, shape: seq<Point>)
    requires |shape| >= 3 && ConvexOutline.IsOutlineOf(shape, Corners(axes, half))
    ensures IsAround(shape, EdgesOf(axes, half))
  {
    hide Convex, LeftOfAll, InRegion, Edges.Corner, EdgesOf, BoxOutline.Corner;
    var g, corners := EdgesOf(axes, half), Corners(axes, half);
    forall x, y, z ensures LeftOfAll(shape, g.Corner(x, y, z)) {
      CornerIs(axes, half, x, y, z);
      assert BoxOutline.Corner(axes, half, x, y, z) in corners;
    }
    forall p | p in shape ensures IsCorner(g, p) {
      assert p in corners;
      var x, y, z :| p == BoxOutline.Corner(axes, half, x, y, z);
      CornerIs(axes, half, x, y, z);
    }
  }

  /** The outline of a box has at most six corners. */
  lemma OutlineHasSixCorners(f: Facing, half: Vector)
    ensures |OutlineOf(f, half)| <= 6
  {
    hide Convex, LeftOfAll, InRegion, Edges.Corner, ConvexOutline.AllDiffer, Six, Four, AxesOf, EdgesOf;
    var axes, shape := AxesOf(f), OutlineOf(f, half);
    var g := EdgesOf(axes, half);
    ConvexOutline.OutlineIsConvexHull(Corners(axes, half));
    if |shape| >= 3 {
      SeenCorners(axes, half, shape);
      if g.x == NOWHERE || g.y == NOWHERE || g.z == NOWHERE {
        forall p | p in shape ensures p in Four(g) {
          CornerIsOfFour(g, p);
        }
        NoMoreThan(shape, Four(g));
      } else {
        forall p | p in shape ensures p in Six(g) {
          var i: nat :| i < |shape| && shape[i] == p;
          CornerIsOfSix(shape, g, i);
        }
        NoMoreThan(shape, Six(g));
      }
    }
  }
}
