/** Keeping the shift over the model: the nearest point of the outline. */
module ShiftLimit {
  import opened Plane
  import opened Regions

  // ----- the program -----

  function Clamp(value: real, low: real, high: real): real {
    var atLeast := if value < low then low else value;
    if atLeast > high then high else atLeast
  }

  /** How far along the segment the point nearest `p` is. */
  function FractionOf(p: Point, a: Point, b: Point): (t: real)
    ensures 0.0 <= t <= 1.0
  {
    var length := SquaredLength(To(a, b));
    if length > 0.0 then Clamp(Dot(To(a, p), To(a, b)) / length, 0.0, 1.0) else 0.0
  }

  function NearestOnSegment(p: Point, a: Point, b: Point): Point {
    Lerp(a, b, FractionOf(p, a, b))
  }

  /** The nearest squared distance so far; none before the first edge. */
  datatype Limit = Infinite | Within(squared: real)

  predicate Nearer(distance: real, limit: Limit) {
    limit.Infinite? || distance < limit.squared
  }

  predicate Inside(shift: Point, shape: seq<Point>) {
    |shape| >= 3 && forall i: nat :: i < |shape| ==> LeftOfEdge(shape, i, shift)
  }

  /** The best point once the edges from `i` on were tried too. */
  function Scan(shift: Point, shape: seq<Point>, i: nat, best: Point, limit: Limit): Point
    requires i <= |shape|
    decreases |shape| - i
  {
    if i == |shape| then best
    else
      var point := NearestOnSegment(shift, shape[i], After(shape, i));
      var distance := DistanceSquared(point, shift);
      if Nearer(distance, limit) then Scan(shift, shape, i + 1, point, Within(distance))
      else Scan(shift, shape, i + 1, best, limit)
  }

  function OverModel(shift: Point, shape: seq<Point>): Point
    requires shape != []
  {
    if Inside(shift, shape) then shift else Scan(shift, shape, 0, shape[0], Infinite)
  }

  /** The loop over the edges keeps the shift in the region, at its nearest point. */
  method MoveOverModel(shift: Point, shape: seq<Point>) returns (best: Point)
    requires shape != []
    ensures best == OverModel(shift, shape)
    ensures Convex(shape) ==> IsNearest(shape, shift, best)
  {
    if Convex(shape) {
      OverModelIsNearest(shift, shape);
    }
    if Inside(shift, shape) {
      return shift;
    }
    best := shape[0];
    var bestDistance := Infinite;
    for i := 0 to |shape|
      invariant Scan(shift, shape, i, best, bestDistance) == Scan(shift, shape, 0, shape[0], Infinite)
    {
      var point := NearestOnSegment(shift, shape[i], After(shape, i));
      var distance := DistanceSquared(point, shift);
      if Nearer(distance, bestDistance) {
        best, bestDistance := point, Within(distance);
      }
    }
  }

  // ----- one segment -----

  /** `r` is a point of the region, and no point of the region is nearer to `shift`. */
  ghost predicate IsNearest(shape: seq<Point>, shift: Point, r: Point)
    requires shape != []
  {
    InRegion(shape, r) &&
    forall q :: InRegion(shape, q) ==> DistanceSquared(r, shift) <= DistanceSquared(q, shift)
  }

  /** How much farther fraction `u` of a segment is than `t`, in squared distance. */
  function Gain(t: real, u: real, length: real, dot: real): real {
    (u - t) * ((u + t) * length - 2.0 * dot)
  }

  /** Squared distance along a segment is a parabola, least at `dot / length`. */
  lemma Parabola(length: real, dot: real, t: real, u: real)
    requires length > 0.0 && 0.0 <= u <= 1.0
    requires t == Clamp(dot / length, 0.0, 1.0)
    ensures Gain(t, u, length, dot) >= 0.0
  {
    var m := dot / length;
    assert m * length == dot;
    var slope := (u + t) * length - 2.0 * dot;
    assert slope == (u + t - 2.0 * m) * length;
    if u > t {
      assert t >= m;
      ProductSign(u + t - 2.0 * m, length);
      ProductSign(u - t, slope);
    } else {
      if u < t {
        assert t <= m;
      }
      if u < t {
        ProductSign(-(u + t - 2.0 * m), length);
        ProductSign(t - u, -slope);
      }
    }
  }

  lemma DistanceAlong(p: Point, a: Point, b: Point, t: real, u: real)
    ensures DistanceSquared(Lerp(a, b, u), p) - DistanceSquared(Lerp(a, b, t), p)
      == Gain(t, u, SquaredLength(To(a, b)), Dot(To(a, p), To(a, b)))
  {
    hide Square, Gain, SquaredLength, Times, Dot, Off;
    var v, e := To(a, b), To(a, p);
    DistanceParts(p, a, b, u);
    DistanceParts(p, a, b, t);
    Squares(v.x, e.x, t, u);
    Squares(v.y, e.y, t, u);
    GainsAdd(t, u, Square(v.x), Times(e.x, v.x), Square(v.y), Times(e.y, v.y));
    Parts(e, v);
  }

  function Times(a: real, b: real): real {
    a * b
  }

  lemma Parts(e: Point, v: Point)
    ensures SquaredLength(v) == Square(v.x) + Square(v.y)
    ensures Dot(e, v) == Times(e.x, v.x) + Times(e.y, v.y)
  {
  }

  lemma DistanceParts(p: Point, a: Point, b: Point, t: real)
    ensures DistanceSquared(Lerp(a, b, t), p)
      == Square(Off(t, To(a, b).x, To(a, p).x)) + Square(Off(t, To(a, b).y, To(a, p).y))
  {
    hide Square;
    assert To(p, Lerp(a, b, t)) == Point(Off(t, To(a, b).x, To(a, p).x), Off(t, To(a, b).y, To(a, p).y));
  }

  function Off(t: real, d: real, e: real): real {
    t * d - e
  }

  lemma GainsAdd(t: real, u: real, length: real, dot: real, length': real, dot': real)
    ensures Gain(t, u, length, dot) + Gain(t, u, length', dot') == Gain(t, u, length + length', dot + dot')
  {
  }

  lemma Squares(d: real, e: real, t: real, u: real)
    ensures Square(Off(u, d, e)) - Square(Off(t, d, e)) == Gain(t, u, Square(d), Times(e, d))
  {
  }

  lemma NearestOnSegmentIsNearest(p: Point, a: Point, b: Point)
    ensures OnSegment(a, b, NearestOnSegment(p, a, b))
    ensures forall q :: OnSegment(a, b, q) ==>
      DistanceSquared(NearestOnSegment(p, a, b), p) <= DistanceSquared(q, p)
  {
    hide DistanceSquared, Lerp;
    var t := FractionOf(p, a, b);
    forall q | OnSegment(a, b, q)
      ensures DistanceSquared(Lerp(a, b, t), p) <= DistanceSquared(q, p)
    {
      var u: real :| 0.0 <= u <= 1.0 && q == Lerp(a, b, u);
      NoFractionIsNearer(p, a, b, u);
    }
  }

  lemma NoFractionIsNearer(p: Point, a: Point, b: Point, u: real)
    requires 0.0 <= u <= 1.0
    ensures DistanceSquared(Lerp(a, b, FractionOf(p, a, b)), p) <= DistanceSquared(Lerp(a, b, u), p)
  {
    hide DistanceSquared, Lerp, Clamp, SquaredLength, Dot, Gain;
    var length, dot, t := SquaredLength(To(a, b)), Dot(To(a, p), To(a, b)), FractionOf(p, a, b);
    if length > 0.0 {
      DistanceAlong(p, a, b, t, u);
      Parabola(length, dot, t, u);
    } else {
      LengthSigns(To(a, b));
      SameEnds(a, b, u);
    }
  }

  lemma SameEnds(a: Point, b: Point, u: real)
    requires a.x == b.x && a.y == b.y
    ensures Lerp(a, b, u) == a && Lerp(a, b, 0.0) == a
  {
  }

  lemma LengthSigns(v: Point)
    ensures SquaredLength(v) >= 0.0
    ensures SquaredLength(v) > 0.0 || (v.x == 0.0 && v.y == 0.0)
  {
    hide Square;
    SquareSigns(v.x);
    SquareSigns(v.y);
  }

  // ----- the scan over the edges -----

  ghost predicate OnEdge(shape: seq<Point>, i: nat, q: Point)
    requires i < |shape|
  {
    OnSegment(shape[i], After(shape, i), q)
  }

  ghost predicate OnSomeEdge(shape: seq<Point>, q: Point) {
    exists i: nat :: i < |shape| && OnEdge(shape, i, q)
  }

  lemma {:induction false} ScanFindsBest(shift: Point, shape: seq<Point>, i: nat, best: Point, limit: Limit)
    requires i <= |shape|
    requires limit.Within? ==> limit.squared == DistanceSquared(best, shift)
    ensures var r := Scan(shift, shape, i, best, limit);
      && (limit.Within? ==> DistanceSquared(r, shift) <= limit.squared)
      && (r == best || OnSomeEdge(shape, r))
      && (i < |shape| && limit.Infinite? ==> OnSomeEdge(shape, r))
      && (forall k: nat, q :: i <= k < |shape| && OnEdge(shape, k, q) ==>
            DistanceSquared(r, shift) <= DistanceSquared(q, shift))
    decreases |shape| - i
  {
    hide DistanceSquared, NearestOnSegment, OnSegment;
    if i < |shape| {
      var point := NearestOnSegment(shift, shape[i], After(shape, i));
      var distance := DistanceSquared(point, shift);
      NearestOnSegmentIsNearest(shift, shape[i], After(shape, i));
      assert OnEdge(shape, i, point);
      var best', limit' := if Nearer(distance, limit) then point else best,
                           if Nearer(distance, limit) then Within(distance) else limit;
      ScanFindsBest(shift, shape, i + 1, best', limit');
      var r := Scan(shift, shape, i + 1, best', limit');
      assert DistanceSquared(r, shift) <= distance;
      forall k: nat, q | i <= k < |shape| && OnEdge(shape, k, q)
        ensures DistanceSquared(r, shift) <= DistanceSquared(q, shift)
      {
        if k == i {
          assert OnSegment(shape[i], After(shape, i), q);
        }
      }
    }
  }

  // ----- leaving a convex polygon -----

  lemma CrossAlong(a: Point, b: Point, p: Point, q: Point, t: real)
    ensures Cross(a, b, Lerp(p, q, t)) == Cross(a, b, p) + t * (Cross(a, b, q) - Cross(a, b, p))
  {
    var dx, dy := b.x - a.x, b.y - a.y;
    assert dx * (t * (q.y - p.y)) == t * (dx * (q.y - p.y));
    assert dy * (t * (q.x - p.x)) == t * (dy * (q.x - p.x));
  }

  lemma Mix(v: real, w: real, t: real)
    requires v >= 0.0 && w >= 0.0 && 0.0 <= t <= 1.0
    ensures v + t * (w - v) >= 0.0
  {
    ProductSign(t, w);
    ProductSign(1.0 - t, v);
  }

  /** Half-planes are convex. */
  lemma LeftOfEdgeAlong(shape: seq<Point>, i: nat, p: Point, q: Point, t: real)
    requires i < |shape| && LeftOfEdge(shape, i, p) && LeftOfEdge(shape, i, q) && 0.0 <= t <= 1.0
    ensures LeftOfEdge(shape, i, Lerp(p, q, t))
  {
    CrossAlong(shape[i], After(shape, i), p, q, t);
    Mix(Cross(shape[i], After(shape, i), p), Cross(shape[i], After(shape, i), q), t);
  }

  lemma LeftOfAllAlong(shape: seq<Point>, p: Point, q: Point, t: real)
    requires LeftOfAll(shape, p) && LeftOfAll(shape, q) && 0.0 <= t <= 1.0
    ensures LeftOfAll(shape, Lerp(p, q, t))
  {
    hide LeftOfEdge;
    forall i: nat | i < |shape| ensures LeftOfEdge(shape, i, Lerp(p, q, t)) {
      LeftOfEdgeAlong(shape, i, p, q, t);
    }
  }

  lemma LerpAgain(s: Point, q: Point, t: real, u: real)
    requires 0.0 <= t <= 1.0 && 0.0 <= u <= 1.0
    ensures Lerp(Lerp(s, q, t), q, u) == Lerp(s, q, t + u * (1.0 - t))
    ensures 0.0 <= t + u * (1.0 - t) <= 1.0
  {
    ProductSign(u, 1.0 - t);
    ProductSign(1.0 - u, 1.0 - t);
    assert u * ((1.0 - t) * (q.x - s.x)) == (u * (1.0 - t)) * (q.x - s.x);
    assert u * ((1.0 - t) * (q.y - s.y)) == (u * (1.0 - t)) * (q.y - s.y);
  }

  lemma OnSegmentAgain(s: Point, q: Point, b: Point, u: real)
    requires OnSegment(s, q, b) && 0.0 <= u <= 1.0
    ensures OnSegment(s, q, Lerp(b, q, u))
  {
    var t: real :| 0.0 <= t <= 1.0 && b == Lerp(s, q, t);
    LerpAgain(s, q, t, u);
  }

  /** Going from outside to `q` inside, the first place left of the first `k`
      edges is on the line of one of them, unless it is the start. */
  lemma {:induction false} Enter(shape: seq<Point>, s: Point, q: Point, k: nat) returns (b: Point, i: nat)
    requires |shape| >= 3 && LeftOfAll(shape, q) && k <= |shape|
    ensures OnSegment(s, q, b) && i < |shape|
    ensures forall j: nat :: j < k ==> LeftOfEdge(shape, j, b)
    ensures b == s || Cross(shape[i], After(shape, i), b) == 0.0
  {
    hide Cross, OnSegment, Lerp;
    if k == 0 {
      b, i := s, 0;
      StartOfSegment(s, q);
    } else {
      b, i := Enter(shape, s, q, k - 1);
      var v, w := Cross(shape[k - 1], After(shape, k - 1), b), Cross(shape[k - 1], After(shape, k - 1), q);
      if v < 0.0 {
        assert LeftOfEdge(shape, k - 1, q);
        var u := CrossesLine(shape[k - 1], After(shape, k - 1), b, q);
        var c := Lerp(b, q, u);
        OnSegmentAgain(s, q, b, u);
        forall j: nat | j < k ensures LeftOfEdge(shape, j, c) {
          if j < k - 1 {
            assert LeftOfEdge(shape, j, q) && LeftOfEdge(shape, j, b);
            LeftOfEdgeAlong(shape, j, b, q, u);
          }
        }
        b, i := c, k - 1;
      }
    }
  }

  lemma StartOfSegment(s: Point, q: Point)
    ensures OnSegment(s, q, s) && OnSegment(s, q, q)
  {
    assert s == Lerp(s, q, 0.0);
    assert q == Lerp(s, q, 1.0);
  }

  /** Where the way from right of a line to left of it crosses it. */
  lemma CrossesLine(a: Point, b: Point, p: Point, q: Point) returns (u: real)
    requires Cross(a, b, p) < 0.0 <= Cross(a, b, q)
    ensures 0.0 <= u <= 1.0 && Cross(a, b, Lerp(p, q, u)) == 0.0
  {
    hide Cross;
    u := ZeroBetween(Cross(a, b, p), Cross(a, b, q));
    CrossAlong(a, b, p, q, u);
  }

  lemma ZeroBetween(v: real, w: real) returns (u: real)
    requires v < 0.0 <= w
    ensures 0.0 <= u <= 1.0 && v + u * (w - v) == 0.0
  {
    u := -v / (w - v);
    assert u * (w - v) == -v;
  }

  lemma AlongLine(ex: real, ey: real, across: real, up: real) returns (t: real)
    requires ex != 0.0 || ey != 0.0
    requires ex * up - ey * across == 0.0
    ensures across == t * ex && up == t * ey
  {
    if ex != 0.0 {
      t := across / ex;
      assert across == t * ex;
      assert ey * (t * ex) == ex * (t * ey);
      NoFactor(ex, up - t * ey);
    } else {
      t := up / ey;
      NoFactor(ey, across);
    }
  }

  lemma NoFactor(d: real, a: real)
    requires d != 0.0 && d * a == 0.0
    ensures a == 0.0
  {
  }

  lemma OnLineOf(c: Point, d: Point, b: Point) returns (t: real)
    requires c != d && Cross(c, d, b) == 0.0
    ensures b == Lerp(c, d, t)
  {
    t := AlongLine(d.x - c.x, d.y - c.y, b.x - c.x, b.y - c.y);
  }

  /** A point on the line of an edge, left of both neighbouring edges, is on it. */
  lemma BetweenNeighbours(prev: Point, c: Point, d: Point, next: Point, b: Point)
    requires Cross(prev, c, d) > 0.0 && Cross(c, d, next) > 0.0
    requires Cross(c, d, b) == 0.0 && Cross(prev, c, b) >= 0.0 && Cross(d, next, b) >= 0.0
    ensures OnSegment(c, d, b)
  {
    CrossOfRepeated(c, next);
    var t := OnLineOf(c, d, b);
    Repeated(prev, c, d, next);
    CrossAlong(prev, c, c, d, t);
    CrossAlong(d, next, c, d, t);
    FromProducts(t, Cross(prev, c, d), Cross(d, next, c));
  }

  lemma Repeated(prev: Point, c: Point, d: Point, next: Point)
    ensures Cross(prev, c, c) == 0.0 && Cross(d, next, d) == 0.0
    ensures Cross(d, next, c) == Cross(c, d, next)
  {
  }

  lemma FromProducts(t: real, v: real, w: real)
    requires v > 0.0 && w > 0.0 && t * v >= 0.0 && w + t * (0.0 - w) >= 0.0
    ensures 0.0 <= t <= 1.0
  {
    QuotientSign(v, t);
    assert w * (1.0 - t) == w + t * (0.0 - w);
    QuotientSign(w, 1.0 - t);
  }

  lemma OnEdgeLine(shape: seq<Point>, i: nat, b: Point)
    requires |shape| >= 3 && TurnsStrictlyLeft(shape) && LeftOfAll(shape, b) && i < |shape|
    requires Cross(shape[i], After(shape, i), b) == 0.0
    ensures OnEdge(shape, i, b)
  {
    hide Cross, OnSegment;
    var p, n := if i == 0 then |shape| - 1 else i - 1, NextIndex(i, |shape|);
    assert NextIndex(p, |shape|) == i;
    assert StrictTurn(shape, p) && StrictTurn(shape, i);
    assert LeftOfEdge(shape, p, b) && LeftOfEdge(shape, n, b);
    BetweenNeighbours(shape[p], shape[i], After(shape, i), After(shape, n), b);
  }

  lemma SegmentShorter(s: Point, q: Point, b: Point)
    requires OnSegment(s, q, b)
    ensures DistanceSquared(b, s) <= DistanceSquared(q, s)
  {
    var t: real :| 0.0 <= t <= 1.0 && b == Lerp(s, q, t);
    hide Square;
    SquaresShrink(t, To(s, q).x, To(s, b).x);
    SquaresShrink(t, To(s, q).y, To(s, b).y);
  }

  lemma SquaresShrink(t: real, d: real, e: real)
    requires 0.0 <= t <= 1.0 && e == t * d
    ensures Square(e) <= Square(d)
  {
    SquareSigns(d);
    ProductSign(1.0 - t, 1.0 + t);
    ProductSign(1.0 - t * t, d * d);
    assert e * e == (t * t) * (d * d);
  }

  /** From outside, some point of an edge is as near as any point of the region. */
  lemma SomeEdgeIsAsNear(shape: seq<Point>, s: Point, q: Point) returns (b: Point, i: nat)
    requires |shape| >= 3 && Convex(shape) && LeftOfAll(shape, q) && !LeftOfAll(shape, s)
    ensures i < |shape| && OnEdge(shape, i, b) && DistanceSquared(b, s) <= DistanceSquared(q, s)
  {
    hide Cross, OnSegment, DistanceSquared;
    b, i := Enter(shape, s, q, |shape|);
    OnEdgeLine(shape, i, b);
    SegmentShorter(s, q, b);
  }

  lemma EdgeInRegion(shape: seq<Point>, i: nat, q: Point)
    requires Convex(shape) && i < |shape| && OnEdge(shape, i, q)
    ensures InRegion(shape, q)
  {
    var t: real :| 0.0 <= t <= 1.0 && q == Lerp(shape[i], After(shape, i), t);
    if |shape| >= 3 {
      LeftOfAllAlong(shape, shape[i], After(shape, i), t);
    } else if i == 1 {
      LerpBack(shape[1], shape[0], t);
    }
  }

  lemma LerpBack(a: Point, b: Point, t: real)
    ensures Lerp(a, b, t) == Lerp(b, a, 1.0 - t)
  {
  }

  // ----- the results -----

  /** `OverModel` gives the point of the region nearest the shift. */
  lemma OverModelIsNearest(shift: Point, shape: seq<Point>)
    requires Convex(shape)
    ensures IsNearest(shape, shift, OverModel(shift, shape))
  {
    hide Cross, DistanceSquared, OnSegment, LeftOfEdge;
    if Inside(shift, shape) {
      assert LeftOfAll(shape, shift);
      forall q ensures DistanceSquared(shift, shift) <= DistanceSquared(q, shift) {
        DistanceSigns(q, shift);
      }
    } else {
      ScanFindsBest(shift, shape, 0, shape[0], Infinite);
      var r := Scan(shift, shape, 0, shape[0], Infinite);
      var k: nat :| k < |shape| && OnEdge(shape, k, r);
      EdgeInRegion(shape, k, r);
      forall q | InRegion(shape, q) ensures DistanceSquared(r, shift) <= DistanceSquared(q, shift) {
        if |shape| >= 3 {
          var b, i := SomeEdgeIsAsNear(shape, shift, q);
        } else {
          assert After(shape, 0) == shape[|shape| - 1];
          assert OnEdge(shape, 0, q);
        }
      }
    }
  }

  lemma DistanceSigns(q: Point, s: Point)
    ensures DistanceSquared(s, s) == 0.0 && DistanceSquared(q, s) >= 0.0
    ensures q != s ==> DistanceSquared(q, s) > 0.0
  {
    hide Square, SquaredLength;
    LengthSigns(To(s, q));
    NoLength();
    assert To(s, s) == Point(0.0, 0.0);
  }

  /** A shift already over the model stays, so keeping it there twice changes nothing. */
  lemma OverModelKeepsInside(shift: Point, shape: seq<Point>)
    requires Convex(shape)
    ensures InRegion(shape, shift) <==> OverModel(shift, shape) == shift
    ensures OverModel(OverModel(shift, shape), shape) == OverModel(shift, shape)
  {
    hide DistanceSquared, Scan, InRegion, Inside;
    var r := OverModel(shift, shape);
    OverModelIsNearest(shift, shape);
    OverModelIsNearest(r, shape);
    DistanceSigns(r, shift);
    DistanceSigns(OverModel(r, shape), r);
    DistanceSigns(r, r);
    DistanceSigns(shift, shift);
  }

  lemma RegionIsConvex(shape: seq<Point>, p: Point, q: Point, t: real)
    requires Convex(shape) && InRegion(shape, p) && InRegion(shape, q) && 0.0 <= t <= 1.0
    ensures InRegion(shape, Lerp(p, q, t))
  {
    if |shape| >= 3 {
      LeftOfAllAlong(shape, p, q, t);
    } else {
      var a, b := shape[0], shape[|shape| - 1];
      var u: real :| 0.0 <= u <= 1.0 && p == Lerp(a, b, u);
      var v: real :| 0.0 <= v <= 1.0 && q == Lerp(a, b, v);
      MixOfFractions(u, v, t);
      LerpOfLerps(a, b, u, v, t);
    }
  }

  lemma MixOfFractions(u: real, v: real, t: real)
    requires 0.0 <= u <= 1.0 && 0.0 <= v <= 1.0 && 0.0 <= t <= 1.0
    ensures 0.0 <= u + t * (v - u) <= 1.0
  {
    Mix(u, v, t);
    Mix(1.0 - u, 1.0 - v, t);
  }

  lemma LerpOfLerps(a: Point, b: Point, u: real, v: real, t: real)
    ensures Lerp(Lerp(a, b, u), Lerp(a, b, v), t) == Lerp(a, b, u + t * (v - u))
  {
    MixOfMixes(a.x, b.x - a.x, u, v, t);
    MixOfMixes(a.y, b.y - a.y, u, v, t);
  }

  lemma MixOfMixes(a: real, d: real, u: real, v: real, t: real)
    ensures a + u * d + t * ((a + v * d) - (a + u * d)) == a + (u + t * (v - u)) * d
  {
    var w := t * (v - u);
    assert t * ((v - u) * d) == w * d;
  }

  /** The nearest point is unique, so it does not matter which edge gives it. */
  lemma NearestIsUnique(shape: seq<Point>, shift: Point, r: Point, r': Point)
    requires Convex(shape) && IsNearest(shape, shift, r) && IsNearest(shape, shift, r')
    ensures r == r'
  {
    hide InRegion;
    RegionIsConvex(shape, r, r', 0.5);
    Halfway(r, r', shift);
    DistanceSigns(r, r');
  }

  lemma NoLength()
    ensures SquaredLength(Point(0.0, 0.0)) == 0.0
  {
  }

  lemma Halfway(r: Point, r': Point, s: Point)
    ensures 4.0 * DistanceSquared(Lerp(r, r', 0.5), s)
      == 2.0 * DistanceSquared(r, s) + 2.0 * DistanceSquared(r', s) - DistanceSquared(r, r')
  {
  }

  // ----- the view never jumps -----

  /** From the nearest point, every point of the region is away from the shift. */
  lemma RegionIsAway(shape: seq<Point>, shift: Point, r: Point, q: Point)
    requires Convex(shape) && IsNearest(shape, shift, r) && InRegion(shape, q)
    ensures Dot(To(r, shift), To(r, q)) <= 0.0
  {
    hide InRegion, DistanceSquared, Lerp, SquaredLength, Dot, Gain;
    var length, dot := SquaredLength(To(r, q)), Dot(To(r, shift), To(r, q));
    if dot > 0.0 {
      LengthSigns(To(r, q));
      NoWayNoDot(To(r, shift), To(r, q));
      var u := if dot < length then dot / length else 1.0;
      SmallStepGains(length, dot, u);
      RegionIsConvex(shape, r, q, u);
      DistanceAlong(shift, r, q, 0.0, u);
      NoStep(r, q);
    }
  }

  lemma NoWayNoDot(a: Point, v: Point)
    ensures v.x == 0.0 && v.y == 0.0 ==> Dot(a, v) == 0.0
  {
  }

  lemma NoStep(a: Point, b: Point)
    ensures Lerp(a, b, 0.0) == a
  {
  }

  lemma SmallStepGains(length: real, dot: real, u: real)
    requires length > 0.0 && dot > 0.0 && u == if dot < length then dot / length else 1.0
    ensures 0.0 < u <= 1.0 && Gain(0.0, u, length, dot) < 0.0
  {
    if dot < length {
      assert u * length == dot;
      assert u > 0.0 by {
        if u <= 0.0 {
          ProductSign(-u, length);
        }
      }
      assert u <= 1.0 by {
        if u > 1.0 {
          ProductSign(u - 1.0, length);
        }
      }
      assert Gain(0.0, u, length, dot) == -(u * dot);
      ProductPositive(u, dot);
    }
  }

  /** Two shifts are never taken farther apart. So when a shift moves a little,
      the view moves no more. */
  lemma NeverJumps(shape: seq<Point>, p: Point, q: Point)
    requires Convex(shape)
    ensures DistanceSquared(OverModel(p, shape), OverModel(q, shape)) <= DistanceSquared(p, q)
  {
    hide InRegion, OverModel, DistanceSquared, Dot;
    var r, s := OverModel(p, shape), OverModel(q, shape);
    OverModelIsNearest(p, shape);
    OverModelIsNearest(q, shape);
    RegionIsAway(shape, p, r, s);
    RegionIsAway(shape, q, s, r);
    AwayKeepsNear(p, q, r, s);
  }

  lemma AwayKeepsNear(p: Point, q: Point, r: Point, s: Point)
    requires Dot(To(r, p), To(r, s)) <= 0.0 && Dot(To(s, q), To(s, r)) <= 0.0
    ensures DistanceSquared(r, s) <= DistanceSquared(p, q)
  {
    hide Square, Times, Dot;
    var d, e := To(s, r), To(q, p);
    Parts(To(r, p), To(r, s));
    Parts(To(s, q), To(s, r));
    Difference(d.x, e.x);
    Difference(d.y, e.y);
    SquareSigns(e.x - d.x);
    SquareSigns(e.y - d.y);
    Crossed(p.x, q.x, r.x, s.x);
    Crossed(p.y, q.y, r.y, s.y);
  }

  lemma Difference(d: real, e: real)
    ensures Square(e) - Square(d) == Square(e - d) - 2.0 * Times(d, d - e)
  {
  }

  lemma Crossed(p: real, q: real, r: real, s: real)
    ensures Times(p - r, s - r) + Times(q - s, r - s) == Times(r - s, (r - s) - (p - q))
  {
  }
}
