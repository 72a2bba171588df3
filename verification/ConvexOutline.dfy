/** The convex outline around points: Andrew's monotone chain. */
module ConvexOutline {
  import opened Plane
  import opened Regions

  // ----- the algorithm, as functions -----

  function Insert(p: Point, list: seq<Point>): seq<Point> {
    if list == [] || Upto(true, p, list[0]) then [p] + list else [list[0]] + Insert(p, list[1..])
  }

  /** The points by x and then by y. */
  function SortPoints(points: seq<Point>): seq<Point> {
    if points == [] then [] else Insert(points[0], SortPoints(points[1..]))
  }

  function Reversed(list: seq<Point>): seq<Point> {
    seq(|list|, i requires 0 <= i < |list| => list[|list| - 1 - i])
  }

  /** The chain once everything `p` does not turn left from is popped. */
  function Popped(chain: seq<Point>, p: Point): seq<Point> {
    if |chain| >= 2 && Cross(chain[|chain| - 2], chain[|chain| - 1], p) <= 0.0
    then Popped(chain[..|chain| - 1], p) else chain
  }

  /** The chain after every point of `list` was taken in. */
  function Chain(list: seq<Point>): seq<Point> {
    if list == [] then []
    else Popped(Chain(list[..|list| - 1]), list[|list| - 1]) + [list[|list| - 1]]
  }

  function Half(list: seq<Point>): seq<Point> {
    var chain := Chain(list);
    if chain == [] then [] else chain[..|chain| - 1]
  }

  function Outline(points: seq<Point>): seq<Point>
    requires points != []
  {
    var sorted := SortPoints(points);
    var hull := Half(sorted) + Half(Reversed(sorted));
    if |hull| > 0 then hull else SortIsPermutation(points); [sorted[0]]
  }

  // ----- the algorithm, as the program runs it -----

  method HalfOutline(list: seq<Point>) returns (half: seq<Point>)
    ensures half == Half(list)
  {
    var chain: seq<Point> := [];
    for i := 0 to |list|
      invariant chain == Chain(list[..i])
    {
      var point := list[i];
      assert list[..i + 1][..i] == list[..i];
      while |chain| >= 2 && Cross(chain[|chain| - 2], chain[|chain| - 1], point) <= 0.0
        invariant Popped(chain, point) == Popped(Chain(list[..i]), point)
        decreases |chain|
      {
        chain := chain[..|chain| - 1];
      }
      chain := chain + [point];
    }
    assert list[..|list|] == list;
    half := if chain == [] then [] else chain[..|chain| - 1];
  }

  /** The outline, found with loops over two chains, is a convex outline of
      the points; `OutlineIsConvexHull` says what that means. */
  method FindOutline(points: seq<Point>) returns (hull: seq<Point>)
    requires points != []
    ensures hull == Outline(points)
    ensures IsOutlineOf(hull, points)
  {
    var sorted := SortPoints(points);
    var lower := HalfOutline(sorted);
    var upper := HalfOutline(Reversed(sorted));
    hull := lower + upper;
    SortIsPermutation(points);
    if |hull| == 0 {
      hull := [sorted[0]];
    }
    OutlineIsConvexHull(points);
  }

  // ----- sorting -----

  ghost predicate Sorted(forward: bool, list: seq<Point>) {
    forall i, j :: 0 <= i < j < |list| ==> Upto(forward, list[i], list[j])
  }

  lemma {:induction false} InsertSorts(p: Point, list: seq<Point>)
    requires Sorted(true, list)
    ensures Sorted(true, Insert(p, list))
    ensures multiset(Insert(p, list)) == multiset(list) + multiset{p}
  {
    if list == [] {
    } else if Upto(true, p, list[0]) {
      forall j | 0 <= j < |list| ensures Upto(true, p, list[j]) {
        if j > 0 {
          BeforeIsTransitive(true, p, list[0], list[j]);
        }
      }
    } else {
      var rest := Insert(p, list[1..]);
      assert list == [list[0]] + list[1..];
      InsertSorts(p, list[1..]);
      BeforeIsTotal(true, p, list[0]);
      forall j | 0 <= j < |rest| ensures Upto(true, list[0], rest[j]) {
        assert rest[j] in multiset(rest);
        assert rest[j] == p || rest[j] in list[1..];
      }
    }
  }

  lemma {:induction false} SortIsPermutation(points: seq<Point>)
    ensures Sorted(true, SortPoints(points))
    ensures multiset(SortPoints(points)) == multiset(points)
    ensures |SortPoints(points)| == |points|
    ensures forall p :: p in SortPoints(points) <==> p in points
  {
    if points != [] {
      assert points == [points[0]] + points[1..];
      SortIsPermutation(points[1..]);
      InsertSorts(points[0], SortPoints(points[1..]));
    }
    assert |multiset(SortPoints(points))| == |multiset(points)|;
    forall p ensures p in SortPoints(points) <==> p in points {
      assert p in multiset(SortPoints(points)) <==> p in multiset(points);
    }
  }

  /** There is only one sorted order, whatever algorithm finds it. */
  lemma {:induction false} SortedOrderIsUnique(one: seq<Point>, other: seq<Point>)
    requires Sorted(true, one) && Sorted(true, other) && multiset(one) == multiset(other)
    ensures one == other
  {
    hide Upto, Sorted;
    assert |multiset(one)| == |one| && |multiset(other)| == |other|;
    if one != [] {
      assert one == [one[0]] + one[1..] && other == [other[0]] + other[1..];
      assert one[0] in multiset(other) && other[0] in multiset(one);
      SortedEnds(true, one, other[0]);
      SortedEnds(true, other, one[0]);
      Squeezed(one[0], other[0]);
      TailIsSorted(one);
      TailIsSorted(other);
      SortedOrderIsUnique(one[1..], other[1..]);
    }
  }

  lemma TailIsSorted(list: seq<Point>)
    requires list != [] && Sorted(true, list)
    ensures Sorted(true, list[1..]) && multiset(list[1..]) == multiset(list) - multiset{list[0]}
  {
    assert list == [list[0]] + list[1..];
  }

  // ----- one chain -----

  /** What is known of a chain once the points of `list` were taken in: it
      starts and ends with theirs, always turns left, and leaves every one of
      them on its left. */
  ghost predicate ChainOf(forward: bool, list: seq<Point>, chain: seq<Point>) {
    && |list| >= 1 && |chain| >= 1
    && chain[0] == list[0] && chain[|chain| - 1] == list[|list| - 1]
    && (forall i :: 0 <= i < |chain| ==> chain[i] in list)
    && (Increasing(forward, chain) || (chain == [list[0], list[0]] && AllSame(list)))
    && TurnsLeft(chain)
    && Covers(chain, list)
  }

  /** Every point of `list` is on the left of every edge of the chain. */
  ghost predicate Covers(chain: seq<Point>, list: seq<Point>) {
    forall i, q :: 0 <= i < |chain| - 1 && q in list ==> Cross(chain[i], chain[i + 1], q) >= 0.0
  }

  ghost predicate Increasing(forward: bool, chain: seq<Point>) {
    forall i, j :: 0 <= i < j < |chain| ==> Before(forward, chain[i], chain[j])
  }

  ghost predicate AllSame(list: seq<Point>) {
    forall q :: q in list ==> q == list[0]
  }

  ghost predicate TurnsLeft(chain: seq<Point>) {
    forall i :: 0 <= i < |chain| - 2 ==> Cross(chain[i], chain[i + 1], chain[i + 2]) > 0.0
  }

  /** What popping leaves: a prefix that ends in a left turn to `p`, and before
      whose end the chain did not turn left. */
  lemma {:induction false} PoppedIsPrefix(chain: seq<Point>, p: Point)
    requires chain != []
    ensures var j := |Popped(chain, p)|;
      && 1 <= j <= |chain|
      && Popped(chain, p) == chain[..j]
      && (j >= 2 ==> Cross(chain[j - 2], chain[j - 1], p) > 0.0)
      && (j < |chain| ==> Cross(chain[j - 1], chain[j], p) <= 0.0)
  {
    if |chain| >= 2 && Cross(chain[|chain| - 2], chain[|chain| - 1], p) <= 0.0 {
      PoppedIsPrefix(chain[..|chain| - 1], p);
    }
  }

  /** `a` < `b` < `p` and `a` < `q`: when `b` is right of `p`'s direction and `q`
      left of `b`'s, `q` is left of `p`'s. */
  lemma BeyondPopped(forward: bool, a: Point, b: Point, p: Point, q: Point)
    requires Before(forward, a, b) && Before(forward, a, p) && Before(forward, a, q)
    requires Cross(a, b, p) <= 0.0 && Cross(a, b, q) >= 0.0
    ensures Cross(a, p, q) >= 0.0
  {
    CrossIsDet(a, b, p);
    CrossIsDet(a, b, q);
    CrossIsDet(a, p, q);
    assert Det(To(a, p), To(a, b)) == -Det(To(a, b), To(a, p));
    LeftIsTransitive(forward, To(a, p), To(a, b), To(a, q));
  }

  /** A point behind `b` and left of `a`->`b` is left of `b`->`p` when `p` is. */
  lemma BehindTurn(forward: bool, a: Point, b: Point, p: Point, q: Point)
    requires Before(forward, a, b) && Before(forward, b, p) && Before(forward, q, b)
    requires Cross(a, b, p) >= 0.0 && Cross(a, b, q) >= 0.0
    ensures Cross(b, p, q) >= 0.0
  {
    assert Det(To(q, b), To(a, b)) == Cross(a, b, q);
    assert Det(To(a, b), To(b, p)) == Cross(a, b, p);
    assert Det(To(q, b), To(b, p)) == Cross(b, p, q);
    LeftIsTransitive(forward, To(q, b), To(a, b), To(b, p));
  }

  /** Two left turns in a row leave what lies ahead on the left of the first edge. */
  lemma AheadOfTurns(forward: bool, a: Point, b: Point, c: Point, p: Point)
    requires Before(forward, a, b) && Before(forward, b, c) && Upto(forward, c, p)
    requires Cross(a, b, c) >= 0.0 && Cross(b, c, p) >= 0.0
    ensures Cross(a, b, p) >= 0.0
  {
    if c != p {
      assert Det(To(a, b), To(b, c)) == Cross(a, b, c);
      assert Det(To(b, c), To(c, p)) == Cross(b, c, p);
      LeftIsTransitive(forward, To(a, b), To(b, c), To(c, p));
      assert Cross(a, b, p) == Det(To(a, b), To(b, c)) + Det(To(a, b), To(c, p));
    }
  }

  /** A point ahead of a left-turning chain is left of each of its edges. */
  lemma {:induction false} AheadOfChain(forward: bool, chain: seq<Point>, p: Point, i: nat)
    requires Increasing(forward, chain) && TurnsLeft(chain)
    requires i < |chain| - 1 && Before(forward, chain[|chain| - 1], p)
    requires Cross(chain[|chain| - 2], chain[|chain| - 1], p) > 0.0
    ensures Cross(chain[i], chain[i + 1], p) >= 0.0
    decreases |chain| - i
  {
    if i < |chain| - 2 {
      AheadOfChain(forward, chain, p, i + 1);
      BeforeIsTransitive(forward, chain[i + 2], chain[|chain| - 1], p);
      AheadOfTurns(forward, chain[i], chain[i + 1], chain[i + 2], p);
    }
  }

  /** The edge to the new point leaves every point so far on its left. */
  lemma NewEdgeCovers(forward: bool, list: seq<Point>, chain: seq<Point>, p: Point, j: nat, q: Point)
    requires ChainOf(forward, list, chain) && Increasing(forward, chain)
    requires 1 <= j <= |chain| && Before(forward, chain[j - 1], p)
    requires q in list && Upto(forward, list[0], q) && Upto(forward, q, list[|list| - 1])
    requires j >= 2 ==> Cross(chain[j - 2], chain[j - 1], p) > 0.0
    requires j < |chain| ==> Cross(chain[j - 1], chain[j], p) <= 0.0
    ensures Cross(chain[j - 1], p, q) >= 0.0
  {
    var c := chain[j - 1];
    BeforeIsTotal(forward, q, c);
    if q == c {
      CrossOfRepeated(c, p);
    } else if Before(forward, q, c) {
      if j >= 2 {
        BehindTurn(forward, chain[j - 2], c, p, q);
      } else {
        assert false;
      }
    } else {
      if j == |chain| {
        BeforeIsTotal(forward, c, q);
        assert false;
      }
      BeyondPopped(forward, c, chain[j], p, q);
    }
  }

  lemma SortedEnds(forward: bool, list: seq<Point>, q: Point)
    requires Sorted(forward, list) && q in list
    ensures Upto(forward, list[0], q) && Upto(forward, q, list[|list| - 1])
  {
    var k :| 0 <= k < |list| && list[k] == q;
    assert k > 0 ==> Upto(forward, list[0], list[k]);
    assert k < |list| - 1 ==> Upto(forward, list[k], list[|list| - 1]);
  }

  /** After popping, the last corner kept is before `p`, unless all points so
      far are `p`. */
  lemma {:induction false} KeptIsBefore(forward: bool, list: seq<Point>, chain: seq<Point>, p: Point)
    requires ChainOf(forward, list, chain) && Increasing(forward, chain)
    requires Sorted(forward, list + [p])
    ensures 1 <= |Popped(chain, p)| <= |chain|
    ensures Before(forward, chain[|Popped(chain, p)| - 1], p) || (chain == [p] && AllSame(list + [p]))
  {
    hide Cross, Before, TurnsLeft, Covers;
    PoppedIsPrefix(chain, p);
    var j := |Popped(chain, p)|;
    var last := list[|list| - 1];
    assert last == (list + [p])[|list| - 1] && p == (list + [p])[|list|];
    assert Upto(forward, last, p);
    CrossOfRepeated(if |chain| >= 2 then chain[|chain| - 2] else p, p);
    if j < |chain| {
      BeforeIsTransitive(forward, chain[j - 1], last, p);
    } else if last == p {
      assert |chain| == 1;
      assert list[0] == p;
      forall q | q in list + [p] ensures q == p {
        if q in list {
          assert Sorted(forward, list) by {
            forall i, k | 0 <= i < k < |list| ensures Upto(forward, list[i], list[k]) {
              assert Upto(forward, (list + [p])[i], (list + [p])[k]);
            }
          }
          SortedEnds(forward, list, q);
          BeforeIsTotal(forward, p, q);
        }
      }
    }
  }

  /** One point taken in, when the chain so far goes strictly along the order. */
  lemma {:induction false} TakeIn(forward: bool, list: seq<Point>, chain: seq<Point>, p: Point)
    requires ChainOf(forward, list, chain) && Increasing(forward, chain)
    requires Sorted(forward, list + [p])
    ensures ChainOf(forward, list + [p], Popped(chain, p) + [p])
  {
    hide Cross, Before, TurnsLeft, Covers, Increasing, Sorted;
    var j := |Popped(chain, p)|;
    var next := Popped(chain, p) + [p];
    PoppedIsPrefix(chain, p);
    KeptIsBefore(forward, list, chain, p);
    forall i | 0 <= i < |next| ensures next[i] in list + [p] {
      if i < j {
        assert next[i] == chain[i];
      }
    }
    if Before(forward, chain[j - 1], p) {
      KeptTurns(chain, j);
      TurnsAppend(chain[..j], p);
      IncreasingAppend(forward, chain, j, p);
      NextCovers(forward, list, chain, p, j);
    } else {
      TwiceTheSame(forward, list, p);
      assert next == [p, p];
    }
  }

  lemma IncreasingAppend(forward: bool, chain: seq<Point>, j: nat, p: Point)
    requires Increasing(forward, chain) && 1 <= j <= |chain| && Before(forward, chain[j - 1], p)
    ensures Increasing(forward, chain[..j] + [p])
  {
    var next := chain[..j] + [p];
    forall i, k | 0 <= i < k < |next| ensures Before(forward, next[i], next[k]) {
      if k == j && i < j - 1 {
        BeforeIsTransitive(forward, chain[i], chain[j - 1], p);
      }
    }
  }

  lemma NextCovers(forward: bool, list: seq<Point>, chain: seq<Point>, p: Point, j: nat)
    requires ChainOf(forward, list, chain) && Increasing(forward, chain)
    requires Sorted(forward, list + [p])
    requires 1 <= j <= |chain| && Before(forward, chain[j - 1], p)
    requires j >= 2 ==> Cross(chain[j - 2], chain[j - 1], p) > 0.0
    requires j < |chain| ==> Cross(chain[j - 1], chain[j], p) <= 0.0
    ensures Covers(chain[..j] + [p], list + [p])
  {
    hide Cross, Before, ChainOf, Sorted, Increasing;
    var next := chain[..j] + [p];
    forall i, q | 0 <= i < |next| - 1 && q in list + [p] ensures Cross(next[i], next[i + 1], q) >= 0.0 {
      EdgeCovers(forward, list, chain, p, j, i, q);
    }
  }

  lemma EdgeCovers(forward: bool, list: seq<Point>, chain: seq<Point>, p: Point, j: nat, i: nat, q: Point)
    requires ChainOf(forward, list, chain) && Increasing(forward, chain)
    requires Sorted(forward, list + [p]) && q in list + [p]
    requires 1 <= j <= |chain| && Before(forward, chain[j - 1], p) && i < j
    requires j >= 2 ==> Cross(chain[j - 2], chain[j - 1], p) > 0.0
    requires j < |chain| ==> Cross(chain[j - 1], chain[j], p) <= 0.0
    ensures Cross(chain[i], if i == j - 1 then p else chain[i + 1], q) >= 0.0
  {
    hide Cross, Before, Sorted, Increasing;
    if i == j - 1 {
      if q == p {
        CrossOfRepeated(chain[i], p);
      } else {
        LastEdge(forward, list, chain, p, j, q);
      }
    } else if q in list {
      assert Cross(chain[i], chain[i + 1], q) >= 0.0;
    } else {
      KeptTurns(chain, j);
      KeptIncreases(forward, chain, j);
      AheadOfChain(forward, chain[..j], p, i);
    }
  }

  lemma KeptIncreases(forward: bool, chain: seq<Point>, j: nat)
    requires Increasing(forward, chain) && j <= |chain|
    ensures Increasing(forward, chain[..j])
  {
  }

  lemma KeptTurns(chain: seq<Point>, j: nat)
    requires TurnsLeft(chain) && j <= |chain|
    ensures TurnsLeft(chain[..j])
  {
    var kept := chain[..j];
    forall k | 0 <= k < |kept| - 2 ensures Cross(kept[k], kept[k + 1], kept[k + 2]) > 0.0 {
      assert Cross(chain[k], chain[k + 1], chain[k + 2]) > 0.0;
    }
  }

  lemma TwiceTheSame(forward: bool, list: seq<Point>, p: Point)
    requires list != [] && AllSame(list + [p])
    ensures ChainOf(forward, list + [p], [p, p])
  {
    assert (list + [p])[|list|] == p && p in list + [p];
    CrossOfRepeated(p, p);
  }

  lemma TurnsAppend(kept: seq<Point>, p: Point)
    requires TurnsLeft(kept)
    requires |kept| >= 2 ==> Cross(kept[|kept| - 2], kept[|kept| - 1], p) > 0.0
    ensures TurnsLeft(kept + [p])
  {
  }

  lemma LastEdge(forward: bool, list: seq<Point>, chain: seq<Point>, p: Point, j: nat, q: Point)
    requires ChainOf(forward, list, chain) && Increasing(forward, chain)
    requires Sorted(forward, list + [p]) && q in list
    requires 1 <= j <= |chain| && Before(forward, chain[j - 1], p)
    requires j >= 2 ==> Cross(chain[j - 2], chain[j - 1], p) > 0.0
    requires j < |chain| ==> Cross(chain[j - 1], chain[j], p) <= 0.0
    ensures Cross(chain[j - 1], p, q) >= 0.0
  {
    SortedPrefix(forward, list, p);
    SortedEnds(forward, list, q);
    assert (list + [p])[|list| - 1] == list[|list| - 1] && (list + [p])[|list|] == p;
    NewEdgeCovers(forward, list, chain, p, j, q);
  }

  lemma SortedPrefix(forward: bool, list: seq<Point>, p: Point)
    requires Sorted(forward, list + [p])
    ensures Sorted(forward, list)
  {
    forall i, k | 0 <= i < k < |list| ensures Upto(forward, list[i], list[k]) {
      assert Upto(forward, (list + [p])[i], (list + [p])[k]);
    }
  }

  /** One point taken in, when all points so far are the same one, twice. */
  lemma {:induction false} TakeInAfterSame(forward: bool, list: seq<Point>, p: Point)
    requires |list| >= 1 && AllSame(list) && Sorted(forward, list + [p])
    ensures ChainOf(forward, list + [p], Popped([list[0], list[0]], p) + [p])
  {
    var a, all := list[0], list + [p];
    CrossOfRepeated(a, p);
    CrossOfRepeated(p, a);
    assert [a, a][..1] == [a];
    assert Popped([a, a], p) == [a];
    assert all[0] == a && all[|list|] == p;
    assert Upto(forward, a, p);
    forall q | q in all ensures Cross(a, p, q) >= 0.0 {
    }
  }

  lemma {:induction false} ChainHolds(forward: bool, list: seq<Point>)
    requires list != [] && Sorted(forward, list)
    ensures ChainOf(forward, list, Chain(list))
  {
    hide Cross, Before;
    var rest, p := list[..|list| - 1], list[|list| - 1];
    assert list == rest + [p];
    if rest == [] {
      assert Chain(list) == [p];
    } else {
      SortedPrefix(forward, rest, p);
      ChainHolds(forward, rest);
      if Increasing(forward, Chain(rest)) {
        TakeIn(forward, rest, Chain(rest), p);
      } else {
        TakeInAfterSame(forward, rest, p);
      }
    }
  }

  // ----- the two chains together -----

  /** Where one chain ends and the other starts the outline turns strictly left,
      or else every point lies on one line. */
  lemma Junction(forward: bool, a: Point, top: Point, b: Point, q: Point)
    requires Before(forward, a, top) && Before(forward, b, top)
    requires Cross(a, top, b) == 0.0
    requires Cross(a, top, q) >= 0.0 && Cross(top, b, q) >= 0.0
    ensures Cross(a, top, q) == 0.0 && Cross(top, b, q) == 0.0
  {
    var u, v, w := To(a, top), To(b, top), To(top, q);
    assert Det(u, v) == -Cross(a, top, b);
    assert Det(u, w) == Cross(a, top, q);
    assert Det(v, w) == -Cross(top, b, q);
    DetIdentity(v, u, w);
    DetIdentity(u, v, w);
    Parallel(forward, u, v, Det(u, w), Det(v, w));
  }

  lemma Parallel(forward: bool, u: Point, v: Point, du: real, dv: real)
    requires Ahead(forward, u) && Ahead(forward, v) && Det(u, v) == 0.0
    requires v.x * du == u.x * dv && v.y * du == u.y * dv
    requires du >= 0.0 && dv <= 0.0
    ensures du == 0.0 && dv == 0.0
    decreases forward == false
  {
    if !forward {
      Parallel(true, Point(-u.x, -u.y), Point(-v.x, -v.y), du, dv);
    } else if u.x > 0.0 {
      if v.x == 0.0 {
        ProductPositive(u.x, v.y);
        assert false;
      }
      SameSign(v.x, du, u.x, dv);
    } else {
      if v.x > 0.0 {
        ProductPositive(u.y, v.x);
        assert false;
      }
      SameSign(v.y, du, u.y, dv);
    }
  }

  lemma SameSign(a: real, x: real, b: real, y: real)
    requires a > 0.0 && b > 0.0 && x >= 0.0 && y <= 0.0 && a * x == b * y
    ensures x == 0.0 && y == 0.0
  {
    if x > 0.0 {
      ProductPositive(a, x);
      ProductSign(b, -y);
    }
    if y < 0.0 {
      ProductPositive(b, -y);
      ProductSign(a, x);
    }
  }

  // ----- the whole outline -----

  /** What an outline of `points` is: corners that are input points, once around
      all of them, strictly convex; or else the two extremes of points on one
      line, which are one point when they all are. */
  ghost predicate IsOutlineOf(hull: seq<Point>, points: seq<Point>) {
    && Convex(hull)
    && (|hull| >= 3 ==> AllDiffer(hull))
    && (forall p :: p in hull ==> p in points)
    && (forall q :: q in points ==> InRegion(hull, q) && LeftOfAll(hull, q))
    && (|hull| <= 2 ==> forall q :: q in points ==>
          Upto(true, hull[0], q) && Upto(true, q, hull[|hull| - 1]))
  }

  ghost predicate AllDiffer(hull: seq<Point>) {
    forall i, j :: 0 <= i < j < |hull| ==> hull[i] != hull[j]
  }

  lemma ReversedIsSorted(list: seq<Point>)
    requires Sorted(true, list)
    ensures Sorted(false, Reversed(list))
    ensures forall q :: q in Reversed(list) <==> q in list
    ensures |Reversed(list)| == |list|
  {
    var r, n := Reversed(list), |list|;
    forall q | q in list ensures q in r {
      var k :| 0 <= k < n && list[k] == q;
      assert r[n - 1 - k] == q;
    }
    forall i, j | 0 <= i < j < n ensures Upto(false, r[i], r[j]) {
      assert Upto(true, list[n - 1 - j], list[n - 1 - i]);
      BeforeIsTotal(true, list[n - 1 - j], list[n - 1 - i]);
    }
  }

  /** At the end they share, either the two chains turn strictly left into each
      other, or both are single edges. */
  lemma JunctionTurns(forward: bool, list: seq<Point>, l: seq<Point>, u: seq<Point>)
    requires |l| >= 2 && |u| >= 2 && l[|l| - 1] == u[0]
    requires Increasing(forward, l) && Increasing(!forward, u)
    requires TurnsLeft(l) && TurnsLeft(u) && Covers(l, list) && Covers(u, list)
    requires (forall p :: p in l ==> p in list) && (forall p :: p in u ==> p in list)
    ensures |l| > 2 || |u| > 2 ==> Cross(l[|l| - 2], u[0], u[1]) > 0.0
  {
    hide Cross, Before;
    var a, top, b := l[|l| - 2], u[0], u[1];
    assert Before(forward, a, top) && Before(!forward, top, b);
    BeforeIsTotal(forward, b, top);
    assert b in list;
    assert Cross(l[|l| - 2], l[|l| - 1], b) >= 0.0;
    if Cross(a, top, b) == 0.0 {
      if |l| > 2 {
        var q := l[|l| - 3];
        assert q in list;
        assert Cross(l[|l| - 3], l[|l| - 3 + 1], l[|l| - 3 + 2]) > 0.0;
        assert Cross(l[|l| - 2], l[|l| - 2 + 1], q) >= 0.0 && Cross(u[0], u[1], q) >= 0.0;
        Junction(forward, a, top, b, q);
        CrossTurned(q, a, top);
      }
      if |u| > 2 {
        var q := u[2];
        assert q in list;
        assert Cross(u[0], u[0 + 1], u[0 + 2]) > 0.0;
        assert Cross(l[|l| - 2], l[|l| - 2 + 1], q) >= 0.0 && Cross(u[0], u[1], q) >= 0.0;
        Junction(forward, a, top, b, q);
      }
    }
  }

  lemma CrossTurned(o: Point, a: Point, b: Point)
    ensures Cross(o, a, b) == Cross(a, b, o)
  {
  }

  /** A point of the line through `m` and `w`, and between them in the order,
      is on the segment. */
  lemma BetweenIsOnSegment(m: Point, w: Point, q: Point)
    requires Before(true, m, w) && Upto(true, m, q) && Upto(true, q, w)
    requires Cross(m, w, q) == 0.0
    ensures OnSegment(m, w, q)
  {
    if m.x < w.x {
      var t := FractionAcross(m, w, q);
      assert q == Lerp(m, w, t);
    } else {
      var t := FractionUp(m, w, q);
      assert q == Lerp(m, w, t);
    }
  }

  lemma FractionAcross(m: Point, w: Point, q: Point) returns (t: real)
    requires m.x < w.x && m.x <= q.x <= w.x && Cross(m, w, q) == 0.0
    ensures 0.0 <= t <= 1.0 && q.x == m.x + t * (w.x - m.x) && q.y == m.y + t * (w.y - m.y)
  {
    var dx, a := w.x - m.x, q.x - m.x;
    t := a / dx;
    FractionInRange(a, dx, t);
    OnLine(dx, w.y - m.y, a, q.y - m.y, t);
  }

  lemma FractionUp(m: Point, w: Point, q: Point) returns (t: real)
    requires m.x == w.x && q.x == m.x && m.y < w.y && m.y <= q.y <= w.y
    ensures 0.0 <= t <= 1.0 && q.x == m.x + t * (w.x - m.x) && q.y == m.y + t * (w.y - m.y)
  {
    var dy, a := w.y - m.y, q.y - m.y;
    t := a / dy;
    FractionInRange(a, dy, t);
  }

  lemma OnLine(dx: real, dy: real, a: real, b: real, t: real)
    requires dx > 0.0 && dx * b - dy * a == 0.0 && t * dx == a
    ensures b == t * dy
  {
    assert dy * (t * dx) == dx * (t * dy);
    SameFactor(dx, b, t * dy);
  }

  lemma FractionInRange(a: real, d: real, t: real)
    requires d > 0.0 && 0.0 <= a <= d && t == a / d
    ensures 0.0 <= t <= 1.0 && t * d == a
  {
  }

  lemma SameFactor(d: real, a: real, b: real)
    requires d != 0.0 && d * a == d * b
    ensures a == b
  {
    assert d * (a - b) == 0.0;
  }

  /** All that is known of the two chains over points that are not all one. */
  ghost predicate TwoChains(points: seq<Point>, l: seq<Point>, u: seq<Point>) {
    && |l| >= 2 && |u| >= 2 && l[|l| - 1] == u[0] && u[|u| - 1] == l[0]
    && Increasing(true, l) && Increasing(false, u) && TurnsLeft(l) && TurnsLeft(u)
    && Covers(l, points) && Covers(u, points)
    && (forall p :: p in l ==> p in points) && (forall p :: p in u ==> p in points)
    && (forall q :: q in points ==> Upto(true, l[0], q) && Upto(true, q, u[0]))
  }

  function Joined(l: seq<Point>, u: seq<Point>): seq<Point>
    requires |l| >= 1 && |u| >= 1
  {
    l[..|l| - 1] + u[..|u| - 1]
  }

  lemma JoinedCorners(l: seq<Point>, u: seq<Point>, i: nat)
    requires |l| >= 2 && |u| >= 2 && l[|l| - 1] == u[0] && u[|u| - 1] == l[0]
    requires i < |l| + |u| - 2
    ensures |Joined(l, u)| == |l| + |u| - 2
    ensures i < |l| - 1 ==> Joined(l, u)[i] == l[i] && After(Joined(l, u), i) == l[i + 1]
    ensures i >= |l| - 1 ==>
      Joined(l, u)[i] == u[i - (|l| - 1)] && After(Joined(l, u), i) == u[i - (|l| - 1) + 1]
  {
  }

  lemma JoinedEdgeCovers(points: seq<Point>, l: seq<Point>, u: seq<Point>, i: nat, q: Point)
    requires TwoChains(points, l, u) && i < |l| + |u| - 2 && q in points
    ensures i < |Joined(l, u)| && LeftOfEdge(Joined(l, u), i, q)
  {
    hide Cross, Before;
    JoinedCorners(l, u, i);
    if i < |l| - 1 {
      assert Cross(l[i], l[i + 1], q) >= 0.0;
    } else {
      var k := i - (|l| - 1);
      assert Cross(u[k], u[k + 1], q) >= 0.0;
    }
  }

  lemma JoinedTurns(points: seq<Point>, l: seq<Point>, u: seq<Point>, i: nat)
    requires TwoChains(points, l, u) && |l| + |u| > 4 && i < |l| + |u| - 2
    ensures i < |Joined(l, u)| && StrictTurn(Joined(l, u), i)
  {
    hide Cross, Before;
    var hull, n, k := Joined(l, u), |l| + |u| - 2, |l| - 1;
    JoinedCorners(l, u, i);
    JoinedCorners(l, u, NextIndex(i, n));
    if i < k - 1 {
      assert Cross(l[i], l[i + 1], l[i + 2]) > 0.0;
    } else if i == k - 1 {
      JunctionTurns(true, points, l, u);
    } else if i < n - 1 {
      assert Cross(u[i - k], u[i - k + 1], u[i - k + 2]) > 0.0;
    } else {
      JunctionTurns(false, points, u, l);
    }
  }

  lemma ChainDiffers(forward: bool, chain: seq<Point>, i: nat, j: nat)
    requires Increasing(forward, chain) && i < j < |chain|
    ensures chain[i] != chain[j]
  {
    assert Before(forward, chain[i], chain[j]);
  }

  /** The two chains share only their ends: where one passed through a corner of
      the other, that corner would not be a strict turn. */
  lemma ChainsShareEnds(points: seq<Point>, l: seq<Point>, u: seq<Point>, i: nat, j: nat)
    requires TwoChains(points, l, u) && 0 < i < |l| - 1 && 0 < j < |u| - 1
    ensures l[i] != u[j]
  {
    hide Cross, Before;
    var v, behind, next, back := l[i], l[i - 1], l[i + 1], u[j + 1];
    if v == u[j] {
      assert Before(true, l[i], l[i + 1]) && Before(false, u[j], u[j + 1]);
      assert Cross(l[i - 1], l[i - 1 + 1], l[i - 1 + 2]) > 0.0;
      assert behind in points && next in points && back in points;
      assert Cross(l[i], l[i + 1], back) >= 0.0;
      assert Cross(u[j], u[j + 1], next) >= 0.0 && Cross(u[j], u[j + 1], behind) >= 0.0;
      CrossTurned(behind, v, next);
      NoRoom(v, next, back, behind);
    }
  }

  lemma NoRoom(v: Point, next: Point, back: Point, behind: Point)
    requires Before(true, v, next) && Before(false, v, back)
    requires Cross(v, next, back) >= 0.0 && Cross(v, back, next) >= 0.0
    requires Cross(v, back, behind) >= 0.0
    ensures Cross(v, next, behind) <= 0.0
  {
    var a, b, c := To(v, next), To(v, back), To(v, behind);
    assert Det(a, b) == Cross(v, next, back) && Det(b, a) == Cross(v, back, next);
    assert Det(a, c) == Cross(v, next, behind) && Det(b, c) == Cross(v, back, behind);
    assert Det(a, b) == -Det(b, a);
    DetIdentity(a, b, c);
    Opposed(a, b, Det(a, c), Det(b, c));
  }

  lemma Opposed(a: Point, b: Point, ac: real, bc: real)
    requires Ahead(true, a) && Ahead(false, b) && Det(a, b) == 0.0
    requires b.x * ac == a.x * bc && b.y * ac == a.y * bc
    requires bc >= 0.0
    ensures ac <= 0.0
  {
    if a.x > 0.0 {
      assert b.x < 0.0 by {
        if b.x == 0.0 {
          ProductPositive(a.x, -b.y);
        }
      }
      ProductSign(a.x, bc);
      NotAbove(-b.x, ac);
    } else {
      assert b.x == 0.0 by {
        if b.x < 0.0 {
          ProductPositive(a.y, -b.x);
        }
      }
      ProductSign(a.y, bc);
      NotAbove(-b.y, ac);
    }
  }

  lemma NotAbove(a: real, b: real)
    requires a > 0.0 && a * b <= 0.0
    ensures b <= 0.0
  {
    if b > 0.0 {
      ProductPositive(a, b);
    }
  }

  lemma JoinedDiffer(points: seq<Point>, l: seq<Point>, u: seq<Point>)
    requires TwoChains(points, l, u)
    ensures AllDiffer(Joined(l, u))
  {
    hide Cross, Before, TurnsLeft, Covers, Increasing;
    var hull, k := Joined(l, u), |l| - 1;
    forall i, j | 0 <= i < j < |hull| ensures hull[i] != hull[j] {
      JoinedCorners(l, u, i);
      JoinedCorners(l, u, j);
      if j < k {
        ChainDiffers(true, l, i, j);
      } else if i >= k {
        ChainDiffers(false, u, i - k, j - k);
      } else if i == 0 {
        ChainDiffers(false, u, j - k, |u| - 1);
      } else if j == k {
        ChainDiffers(true, l, i, |l| - 1);
      } else {
        ChainsShareEnds(points, l, u, i, j - k);
      }
    }
  }

  lemma JoinedIsOutline(points: seq<Point>, l: seq<Point>, u: seq<Point>)
    requires TwoChains(points, l, u)
    ensures IsOutlineOf(Joined(l, u), points)
  {
    hide Cross, Before, TurnsLeft, Covers, Increasing;
    var hull := Joined(l, u);
    forall q | q in points ensures LeftOfAll(hull, q) {
      forall i: nat | i < |hull| ensures LeftOfEdge(hull, i, q) {
        JoinedEdgeCovers(points, l, u, i, q);
      }
    }
    if |hull| >= 3 {
      forall i: nat | i < |hull| ensures StrictTurn(hull, i) {
        JoinedTurns(points, l, u, i);
      }
      JoinedDiffer(points, l, u);
    } else {
      assert l == [l[0], u[0]] && hull == [l[0], u[0]];
      forall q | q in points ensures OnSegment(hull[0], hull[1], q) {
        TwoSidesAreOneLine(points, l, u, q);
      }
    }
  }

  lemma TwoSidesAreOneLine(points: seq<Point>, l: seq<Point>, u: seq<Point>, q: Point)
    requires TwoChains(points, l, u) && |l| == 2 && |u| == 2 && q in points
    ensures OnSegment(l[0], u[0], q)
  {
    assert Cross(l[0], l[0 + 1], q) >= 0.0 && Cross(u[0], u[0 + 1], q) >= 0.0;
    assert Before(true, l[0], l[1]);
    CrossIsDet(l[0], u[0], q);
    CrossIsDet(u[0], l[0], q);
    BetweenIsOnSegment(l[0], u[0], q);
  }

  lemma {:induction false} ChainOfSame(list: seq<Point>)
    requires list != [] && AllSame(list)
    ensures Chain(list) == if |list| == 1 then [list[0]] else [list[0], list[0]]
  {
    var rest, p := list[..|list| - 1], list[0];
    assert list[|list| - 1] in list;
    if |list| == 1 {
      assert Chain(rest) == [];
    } else {
      forall q | q in rest ensures q == rest[0] {
        assert q in list;
      }
      ChainOfSame(rest);
      CrossOfRepeated(p, p);
      assert [p, p][..1] == [p];
      assert Popped([p], p) == [p] && Popped([p, p], p) == Popped([p, p][..1], p);
    }
  }

  lemma OutlineOfSame(points: seq<Point>)
    requires points != [] && AllSame(points)
    ensures Outline(points) == if |points| == 1 then [points[0]] else [points[0], points[0]]
    ensures IsOutlineOf(Outline(points), points)
  {
    hide Cross, Before, Upto, Chain, Sorted;
    var s, p := SortPoints(points), points[0];
    SortIsPermutation(points);
    ReversedIsSorted(s);
    assert s[0] in s && Reversed(s)[0] in Reversed(s);
    assert AllSame(s) && AllSame(Reversed(s));
    ChainOfSame(s);
    ChainOfSame(Reversed(s));
    assert [p][..0] == [] && [p, p][..1] == [p];
    OneSpotIsOutline(points, Outline(points));
  }

  lemma OneSpotIsOutline(points: seq<Point>, hull: seq<Point>)
    requires points != [] && AllSame(points)
    requires hull == [points[0]] || hull == [points[0], points[0]]
    ensures IsOutlineOf(hull, points)
  {
    var p := points[0];
    assert p == Lerp(p, p, 0.0);
    CrossOfRepeated(p, p);
  }

  lemma OutlineIsConvexHull(points: seq<Point>)
    requires points != []
    ensures IsOutlineOf(Outline(points), points)
    ensures AllSame(points) ==>
      Outline(points) == if |points| == 1 then [points[0]] else [points[0], points[0]]
  {
    hide Cross, Before, TurnsLeft, IsOutlineOf;
    var s := SortPoints(points);
    SortIsPermutation(points);
    ReversedIsSorted(s);
    var r := Reversed(s);
    if AllSame(points) {
      OutlineOfSame(points);
    } else {
      ChainsMeet(points, s, r);
      JoinedIsOutline(points, Chain(s), Chain(r));
    }
  }

  lemma Squeezed(a: Point, q: Point)
    requires Upto(true, a, q) && Upto(true, q, a)
    ensures q == a
  {
  }

  lemma CoversSame(chain: seq<Point>, list: seq<Point>, points: seq<Point>)
    requires Covers(chain, list) && forall q :: q in points ==> q in list
    ensures Covers(chain, points)
  {
    hide Cross;
  }

  lemma EndsDiffer(points: seq<Point>, s: seq<Point>)
    requires points != [] && !AllSame(points) && s != [] && Sorted(true, s)
    requires forall q :: q in points ==> q in s
    ensures s[0] != s[|s| - 1]
    ensures forall q :: q in points ==> Upto(true, s[0], q) && Upto(true, q, s[|s| - 1])
  {
    hide Upto, Sorted;
    forall q | q in points
      ensures Upto(true, s[0], q) && Upto(true, q, s[|s| - 1])
      ensures s[0] == s[|s| - 1] ==> q == s[0]
    {
      SortedEnds(true, s, q);
      if s[0] == s[|s| - 1] {
        Squeezed(s[0], q);
      }
    }
    assert points[0] in points;
  }

  lemma ChainEnds(forward: bool, list: seq<Point>, chain: seq<Point>)
    requires ChainOf(forward, list, chain) && list[0] != list[|list| - 1]
    ensures |chain| >= 2 && Increasing(forward, chain)
  {
    hide Cross, Before, TurnsLeft, Covers, Increasing;
    assert list[|list| - 1] in list;
  }

  lemma {:induction false} ChainsMeet(points: seq<Point>, s: seq<Point>, r: seq<Point>)
    requires points != [] && !AllSame(points)
    requires |s| == |points| && Sorted(true, s) && r == Reversed(s) && Sorted(false, r)
    requires forall q :: q in s <==> q in points
    requires forall q :: q in r <==> q in points
    ensures TwoChains(points, Chain(s), Chain(r))
  {
    hide Cross, Before, Upto, TurnsLeft, Increasing, Sorted, Covers, Chain, AllSame;
    ChainHolds(true, s);
    ChainHolds(false, r);
    var l, u := Chain(s), Chain(r);
    EndsDiffer(points, s);
    ChainEnds(true, s, l);
    ChainEnds(false, r, u);
    CoversSame(l, s, points);
    CoversSame(u, r, points);
  }
}
