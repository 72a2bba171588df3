/** A region's points are the mixtures of its corners. */
module Mixtures {
  import opened Plane
  import opened Regions
  import O = ShiftLimit

  ghost predicate ConvexSet(within: Point -> bool) {
    forall p, q, t: real :: within(p) && within(q) && 0.0 <= t <= 1.0 ==> within(Lerp(p, q, t))
  }

  lemma Barycentric(a: Point, b: Point, c: Point, s: Point)
    ensures Cross(b, c, s) + Cross(c, a, s) + Cross(a, b, s) == Cross(a, b, c)
    ensures Cross(a, b, c) * s.x == Cross(b, c, s) * a.x + Cross(c, a, s) * b.x + Cross(a, b, s) * c.x
    ensures Cross(a, b, c) * s.y == Cross(b, c, s) * a.y + Cross(c, a, s) * b.y + Cross(a, b, s) * c.y
  {
  }

  /** One coordinate of a mixture as two steps: `m` between `b` and `c`, then
      the result between `a` and `m`. */
  lemma TwoSteps(u: real, v: real, w: real, a: real, b: real, c: real, s: real)
    requires u >= 0.0 && v >= 0.0 && w >= 0.0 && v + w > 0.0
    requires (u + v + w) * s == u * a + v * b + w * c
    ensures s == a + ((v + w) / (u + v + w)) * (b + (w / (v + w)) * (c - b) - a)
  {
    var d, e := u + v + w, v + w;
    var t, r := e / d, w / e;
    assert t * d == e && r * e == w;
    var m := b + r * (c - b);
    assert e * m == e * b + (r * e) * (c - b) == v * b + w * c;
    var z := a + t * (m - a);
    assert d * z == d * a + (t * d) * (m - a) == d * a + e * m - e * a;
    assert d * (s - z) == 0.0;
    O.NoFactor(d, s - z);
  }

  lemma TriangleIsMixture(within: Point -> bool, a: Point, b: Point, c: Point, s: Point)
    requires ConvexSet(within) && within(a) && within(b) && within(c)
    requires Cross(b, c, s) >= 0.0 && Cross(c, a, s) >= 0.0 && Cross(a, b, s) >= 0.0
    requires Cross(a, b, c) > 0.0
    ensures within(s)
  {
    hide Cross;
    Barycentric(a, b, c, s);
    var u, v, w := Cross(b, c, s), Cross(c, a, s), Cross(a, b, s);
    if v + w > 0.0 {
      var r, t := w / (v + w), (v + w) / (u + v + w);
      Fraction(w, v + w);
      Fraction(v + w, u + v + w);
      TwoSteps(u, v, w, a.x, b.x, c.x, s.x);
      TwoSteps(u, v, w, a.y, b.y, c.y, s.y);
      assert s == Lerp(a, Lerp(b, c, r), t);
    } else {
      O.NoFactor(u, s.x - a.x);
      O.NoFactor(u, s.y - a.y);
    }
  }

  lemma Fraction(a: real, d: real)
    requires d > 0.0 && 0.0 <= a <= d
    ensures 0.0 <= a / d <= 1.0
  {
  }

  /** The fan of triangles from corner 0 has one that `s` is in. */
  lemma {:induction false} FanTriangle(shape: seq<Point>, s: Point, k: nat) returns (i: nat)
    requires |shape| >= 3 && LeftOfAll(shape, s)
    requires 1 <= k < |shape| - 1 && Cross(shape[0], shape[k], s) >= 0.0
    ensures 1 <= i < |shape| - 1
    ensures Cross(shape[0], shape[i], s) >= 0.0 && Cross(shape[i + 1], shape[0], s) >= 0.0
    decreases |shape| - k
  {
    hide Cross;
    SwapCross(shape[0], shape[k + 1], s);
    if k + 1 == |shape| - 1 {
      assert LeftOfEdge(shape, k + 1, s);
      i := k;
    } else if Cross(shape[0], shape[k + 1], s) >= 0.0 {
      i := FanTriangle(shape, s, k + 1);
    } else {
      i := k;
    }
  }

  lemma SwapCross(a: Point, b: Point, s: Point)
    ensures Cross(a, b, s) == -Cross(b, a, s)
  {
  }

  lemma SegmentIsMixture(within: Point -> bool, a: Point, b: Point, s: Point)
    requires ConvexSet(within) && within(a) && within(b) && OnSegment(a, b, s)
    ensures within(s)
  {
    hide Lerp;
  }

  /** A convex set that has the corners has the whole region. */
  lemma RegionIsMixtures(within: Point -> bool, shape: seq<Point>, s: Point)
    requires Convex(shape) && ConvexSet(within) && InRegion(shape, s)
    requires forall p :: p in shape ==> within(p)
    ensures within(s)
  {
    hide Cross, ConvexSet, OnSegment;
    if |shape| >= 3 {
      assert LeftOfEdge(shape, 0, s);
      var i := FanTriangle(shape, s, 1);
      var a, b, c := shape[0], shape[i], shape[i + 1];
      assert LeftOfEdge(shape, i, s);
      assert a in shape;
      assert LeftOfAll(shape, a);
      assert LeftOfEdge(shape, i, a);
      if Cross(b, c, s) == 0.0 {
        O.OnEdgeLine(shape, i, s);
        SegmentIsMixture(within, b, c, s);
      } else {
        Barycentric(a, b, c, s);
        TriangleIsMixture(within, a, b, c, s);
      }
    } else {
      SegmentIsMixture(within, shape[0], shape[|shape| - 1], s);
    }
  }
}
