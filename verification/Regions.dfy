/** Outlines as lists of corners, counter-clockwise, and the region inside one. */
module Regions {
  import opened Plane

  function NextIndex(i: nat, n: nat): (k: nat)
    requires i < n
    ensures k == (i + 1) % n && k < n
  {
    if i + 1 == n then 0 else i + 1
  }

  /** The corner after corner `i`, going round. */
  function After(shape: seq<Point>, i: nat): Point
    requires i < |shape|
  {
    shape[NextIndex(i, |shape|)]
  }

  predicate LeftOfEdge(shape: seq<Point>, i: nat, q: Point)
    requires i < |shape|
  {
    Cross(shape[i], After(shape, i), q) >= 0.0
  }

  ghost predicate LeftOfAll(shape: seq<Point>, q: Point) {
    forall i: nat :: i < |shape| ==> LeftOfEdge(shape, i, q)
  }

  ghost predicate OnSegment(a: Point, b: Point, q: Point) {
    exists t: real :: 0.0 <= t <= 1.0 && q == Lerp(a, b, t)
  }

  /** The points inside `shape` and on it: those left of every edge, or those
      of the segment or the one point when it has no inside. */
  ghost predicate InRegion(shape: seq<Point>, q: Point)
    requires shape != []
  {
    if |shape| >= 3 then LeftOfAll(shape, q) else OnSegment(shape[0], shape[|shape| - 1], q)
  }

  ghost predicate TurnsStrictlyLeft(shape: seq<Point>)
    requires |shape| >= 3
  {
    forall i: nat :: i < |shape| ==> StrictTurn(shape, i)
  }

  predicate StrictTurn(shape: seq<Point>, i: nat)
    requires i < |shape|
  {
    Cross(shape[i], After(shape, i), After(shape, NextIndex(i, |shape|))) > 0.0
  }

  /** A strictly convex counter-clockwise polygon, or a segment or a point. */
  ghost predicate Convex(shape: seq<Point>) {
    && shape != []
    && (|shape| >= 3 ==> TurnsStrictlyLeft(shape) && forall q :: q in shape ==> LeftOfAll(shape, q))
  }
}
