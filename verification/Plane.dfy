/** Points of the camera's plane, the turn test and the order that sorting by
    x and then by y gives. All arithmetic is over exact reals. */
module Plane {
  datatype Point = Point(x: real, y: real)

  /** Above 0 when `o`->`a` and `o`->`b` turn left. */
  function Cross(o: Point, a: Point, b: Point): real {
    (a.x - o.x) * (b.y - o.y) - (a.y - o.y) * (b.x - o.x)
  }

  /** The point a fraction `t` of the way from `a` to `b`. */
  function Lerp(a: Point, b: Point, t: real): Point {
    Point(a.x + t * (b.x - a.x), a.y + t * (b.y - a.y))
  }

  function DistanceSquared(a: Point, b: Point): real {
    SquaredLength(To(b, a))
  }

  // Vectors

  function To(a: Point, b: Point): Point {
    Point(b.x - a.x, b.y - a.y)
  }

  function Square(d: real): real {
    d * d
  }

  function SquaredLength(v: Point): real {
    Square(v.x) + Square(v.y)
  }

  function Dot(a: Point, b: Point): real {
    a.x * b.x + a.y * b.y
  }

  function Det(a: Point, b: Point): real {
    a.x * b.y - a.y * b.x
  }

  /** `v` points along the sorting order, or against it when not `forward`. */
  predicate Ahead(forward: bool, v: Point) {
    if forward then v.x > 0.0 || (v.x == 0.0 && v.y > 0.0)
    else v.x < 0.0 || (v.x == 0.0 && v.y < 0.0)
  }

  predicate Before(forward: bool, a: Point, b: Point) {
    Ahead(forward, To(a, b))
  }

  predicate Upto(forward: bool, a: Point, b: Point) {
    a == b || Before(forward, a, b)
  }

  lemma ProductSign(a: real, b: real)
    requires a >= 0.0 && b >= 0.0
    ensures a * b >= 0.0
  {
  }

  lemma ProductPositive(a: real, b: real)
    requires a > 0.0 && b > 0.0
    ensures a * b > 0.0
  {
  }

  lemma QuotientSign(a: real, b: real)
    requires a > 0.0 && a * b >= 0.0
    ensures b >= 0.0
  {
  }

  lemma SquareSigns(d: real)
    ensures Square(d) >= 0.0
    ensures d != 0.0 ==> Square(d) > 0.0
  {
    if d > 0.0 {
      SquareOfSigned(d, d, Square(d));
    } else if d < 0.0 {
      SquareOfSigned(-d, -d, Square(d));
    }
  }

  lemma SquareOfSigned(a: real, b: real, s: real)
    requires a > 0.0 && b > 0.0 && s == a * b
    ensures s > 0.0
  {
  }

  lemma DetIdentity(a: Point, b: Point, c: Point)
    ensures b.x * Det(a, c) == a.x * Det(b, c) + c.x * Det(a, b)
    ensures b.y * Det(a, c) == a.y * Det(b, c) + c.y * Det(a, b)
  {
  }

  /** Among vectors pointing one way along the order, turning left is transitive. */
  lemma LeftIsTransitiveForward(a: Point, b: Point, c: Point)
    requires Ahead(true, a) && Ahead(true, b) && Ahead(true, c)
    requires Det(a, b) >= 0.0 && Det(b, c) >= 0.0
    ensures Det(a, c) >= 0.0
  {
    DetIdentity(a, b, c);
    if b.x > 0.0 {
      ProductSign(a.x, Det(b, c));
      ProductSign(c.x, Det(a, b));
      QuotientSign(b.x, Det(a, c));
    } else {
      assert b.x == 0.0;
      assert Det(b, c) == b.y * (-c.x);
      QuotientSign(b.y, -c.x);
      assert c.x == 0.0;
      ProductSign(a.x, c.y);
      assert Det(a, c) == a.x * c.y;
    }
  }

  lemma LeftIsTransitive(forward: bool, a: Point, b: Point, c: Point)
    requires Ahead(forward, a) && Ahead(forward, b) && Ahead(forward, c)
    requires Det(a, b) >= 0.0 && Det(b, c) >= 0.0
    ensures Det(a, c) >= 0.0
  {
    if forward {
      LeftIsTransitiveForward(a, b, c);
    } else {
      var a', b', c' := Point(-a.x, -a.y), Point(-b.x, -b.y), Point(-c.x, -c.y);
      assert Det(a', b') == Det(a, b) && Det(b', c') == Det(b, c) && Det(a', c') == Det(a, c);
      LeftIsTransitiveForward(a', b', c');
    }
  }

  lemma CrossIsDet(o: Point, a: Point, b: Point)
    ensures Cross(o, a, b) == Det(To(o, a), To(o, b))
    ensures Cross(o, a, b) == Det(To(o, a), To(a, b))
    ensures Cross(o, a, b) == Cross(a, b, o)
    ensures Cross(o, a, b) == -Cross(a, o, b)
  {
  }

  lemma CrossOfRepeated(a: Point, b: Point)
    ensures Cross(a, b, a) == 0.0 && Cross(a, b, b) == 0.0 && Cross(a, a, b) == 0.0
  {
  }

  lemma BeforeIsTransitive(forward: bool, a: Point, b: Point, c: Point)
    requires Upto(forward, a, b) && Upto(forward, b, c)
    ensures Upto(forward, a, c)
    ensures a != b || b != c ==> Before(forward, a, c)
  {
  }

  lemma BeforeIsTotal(forward: bool, a: Point, b: Point)
    ensures Before(forward, a, b) || a == b || Before(forward, b, a)
    ensures !(Before(forward, a, b) && Upto(forward, b, a))
    ensures Before(forward, a, b) == Before(!forward, b, a)
  {
  }
}
