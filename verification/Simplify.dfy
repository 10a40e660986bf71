/**
 Line simplification by Ramer-Douglas-Peucker, writing into a shared set of kept indices.
 Distances are kept squared: they are compared with each other and with the tolerance only, and
 squaring preserves the order of non-negative numbers.
 */
module Simplify {
  import opened Sorting
  import opened Network

  // ----- Distance to a segment ----------------------------------------------------------------

  function Norm(x: real, y: real): real {
    x * x + y * y
  }

  /** The point a fraction `t` of the way from `a` to `b`. */
  function Along(a: Point, b: Point, t: real): Point {
    Point(a.x + t * (b.x - a.x), a.y + t * (b.y - a.y))
  }

  function Between(p: Point, q: Point): real {
    Norm(p.x - q.x, p.y - q.y)
  }

  /** The squared length of the segment, and the scalar product with the way from `a` to `p`. */
  function Span(a: Point, b: Point): real {
    Norm(b.x - a.x, b.y - a.y)
  }

  function Dot(p: Point, a: Point, b: Point): real {
    (p.x - a.x) * (b.x - a.x) + (p.y - a.y) * (b.y - a.y)
  }

  function Ratio(x: real, y: real): real
    requires y > 0.0
  {
    x / y
  }

  /** Where on the segment the projection of `p` falls, clamped to its ends. */
  function Foot(p: Point, a: Point, b: Point): real {
    if b.x - a.x == 0.0 && b.y - a.y == 0.0 then 0.0
    else
      PositiveNorm(b.x - a.x, b.y - a.y);
      Clamp(Ratio(Dot(p, a, b), Span(a, b)))
  }

  function Clamp(t: real): real {
    if t < 0.0 then 0.0 else if t > 1.0 then 1.0 else t
  }

  /** The squared distance from `p` to the segment from `a` to `b`. */
  function DistanceToSegment(p: Point, a: Point, b: Point): real {
    Between(p, Along(a, b, Foot(p, a, b)))
  }

  lemma Product(a: real, b: real) returns (s: real)
    requires (a > 0.0 && b > 0.0) || (a < 0.0 && b < 0.0)
    ensures s == a * b && s > 0.0
  {
    s := a * b;
  }

  lemma Square(x: real) returns (s: real)
    ensures s == x * x && s >= 0.0
    ensures x != 0.0 ==> s > 0.0
  {
    if x == 0.0 {
      s := 0.0;
    } else {
      s := Product(x, x);
    }
  }

  lemma PositiveNorm(x: real, y: real)
    requires x != 0.0 || y != 0.0
    ensures Norm(x, y) > 0.0
  {
    var xx := Square(x);
    var yy := Square(y);
    assert Norm(x, y) == xx + yy;
  }

  /** The squared distance to a point on the line is a quadratic in its position. */
  lemma Quadratic(p: Point, a: Point, b: Point, t: real)
    ensures Between(p, Along(a, b, t)) == Between(p, a) - 2.0 * (t * Dot(p, a, b)) + t * t * Span(a, b)
  {
    var dx, dy, ex, ey := b.x - a.x, b.y - a.y, p.x - a.x, p.y - a.y;
    Expand(ex, t, dx);
    Expand(ey, t, dy);
    assert t * (ex * dx + ey * dy) == t * (ex * dx) + t * (ey * dy);
    assert t * t * (dx * dx + dy * dy) == t * t * (dx * dx) + t * t * (dy * dy);
    assert p.x - Along(a, b, t).x == ex - t * dx && p.y - Along(a, b, t).y == ey - t * dy;
  }

  lemma Expand(e: real, t: real, d: real)
    ensures (e - t * d) * (e - t * d) == e * e - 2.0 * (t * (e * d)) + t * t * (d * d)
  {
    var u := t * d;
    assert (e - u) * (e - u) == e * e - 2.0 * (e * u) + u * u;
    assert e * u == t * (e * d);
    assert u * u == t * t * (d * d);
  }

  // On [0, 1] the quadratic -2tB + ttC is least at its vertex B / C, clamped.

  lemma LeastInside(B: real, C: real, v: real, t: real)
    requires C > 0.0 && v * C == B
    ensures -2.0 * (v * B) + v * v * C <= -2.0 * (t * B) + t * t * C
  {
    var r := t - v;
    var rr := Square(r);
    var q := rr * C;
    var vB, vvC, rB := v * B, v * v * C, r * B;
    assert q >= 0.0;
    assert t * B == vB + rB;
    assert vvC == v * B;
    assert r * v * C == rB;
    assert t * t * C == vvC + 2.0 * (r * v * C) + q;
  }

  lemma LeastAtStart(B: real, C: real, t: real)
    requires C > 0.0 && B <= 0.0 && 0.0 <= t
    ensures 0.0 <= -2.0 * (t * B) + t * t * C
  {
    var tt := Square(t);
    var a, b := t * B, tt * C;
    assert a <= 0.0;
    assert b >= 0.0;
  }

  lemma LeastAtEnd(B: real, C: real, t: real)
    requires C > 0.0 && B >= C && t <= 1.0
    ensures -2.0 * B + C <= -2.0 * (t * B) + t * t * C
  {
    var r := 1.0 - t;
    var rr := Square(r);
    var q := rr * C;
    var d := r * (B - C);
    assert q >= 0.0;
    assert d >= 0.0;
    assert t * B == B - r * B;
    assert t * t * C == C - 2.0 * (r * C) + q;
    assert d == r * B - r * C;
  }

  lemma ClampedVertex(B: real, C: real, s: real, t: real)
    requires C > 0.0 && 0.0 <= t <= 1.0 && s == Clamp(Ratio(B, C))
    ensures -2.0 * (s * B) + s * s * C <= -2.0 * (t * B) + t * t * C
  {
    var v := Ratio(B, C);
    assert v * C == B;
    if v < 0.0 {
      LeastAtStart(B, C, t);
    } else if v > 1.0 {
      var w := Product(v - 1.0, C);
      assert w == v * C - C;
      LeastAtEnd(B, C, t);
    } else {
      LeastInside(B, C, v, t);
    }
  }

  /** The clamped projection is the nearest point of the segment. */
  lemma FootIsNearest(p: Point, a: Point, b: Point, t: real)
    requires 0.0 <= t <= 1.0
    ensures 0.0 <= Foot(p, a, b) <= 1.0
    ensures DistanceToSegment(p, a, b) <= Between(p, Along(a, b, t))
  {
    if b.x - a.x == 0.0 && b.y - a.y == 0.0 {
      assert Along(a, b, t) == Along(a, b, 0.0);
    } else {
      PositiveNorm(b.x - a.x, b.y - a.y);
      var s := Foot(p, a, b);
      ClampedVertex(Dot(p, a, b), Span(a, b), s, t);
      Quadratic(p, a, b, t);
      Quadratic(p, a, b, s);
    }
  }

  // ----- Choosing the indices -----------------------------------------------------------------

  /** How far point `i` is from the segment between points `a` and `b`. */
  function Off(pts: seq<Point>, a: nat, b: nat, i: nat): real
    requires a < |pts| && b < |pts| && i < |pts|
  {
    DistanceToSegment(pts[i], pts[a], pts[b])
  }

  /** The first of the points strictly between `a` and `hi` that is farthest off. */
  function Farthest(pts: seq<Point>, a: nat, b: nat, hi: nat): (m: nat)
    requires a + 2 <= hi <= b < |pts|
    ensures a < m < hi
    ensures forall i :: a < i < hi ==> Off(pts, a, b, i) <= Off(pts, a, b, m)
    ensures forall i :: a < i < m ==> Off(pts, a, b, i) < Off(pts, a, b, m)
    decreases hi
  {
    if hi == a + 2 then a + 1
    else
      var m := Farthest(pts, a, b, hi - 1);
      if Off(pts, a, b, hi - 1) > Off(pts, a, b, m) then hi - 1 else m
  }

  /** The indices kept strictly between `a` and `b`. */
  function Keep(pts: seq<Point>, a: nat, b: nat, limit: real): (k: set<int>)
    requires a <= b < |pts|
    ensures forall i :: i in k ==> a < i < b
    decreases b - a
  {
    if b <= a + 1 then {}
    else
      var m := Farthest(pts, a, b, b);
      if Off(pts, a, b, m) > limit then {m} + Keep(pts, a, m, limit) + Keep(pts, m, b, limit) else {}
  }

  /** `lo` and `hi` are neighbours among the kept indices. */
  ghost predicate Neighbours(kept: set<int>, lo: int, hi: int) {
    lo in kept && hi in kept && lo < hi && forall j :: lo < j < hi ==> j !in kept
  }

  /** A dropped point is within the limit of the segment between its kept neighbours. */
  lemma {:induction false} DroppedIsClose(pts: seq<Point>, a: nat, b: nat, limit: real, lo: nat, hi: nat, i: nat)
    requires a < b < |pts|
    requires Neighbours(Keep(pts, a, b, limit) + {a as int, b as int}, lo, hi) && lo < i < hi
    ensures hi < |pts| && Off(pts, lo, hi, i) <= limit
    decreases b - a
  {
    assert a <= lo && hi <= b;
    if b > a + 1 {
      var m := Farthest(pts, a, b, b);
      var kept := Keep(pts, a, b, limit) + {a as int, b as int};
      if Off(pts, a, b, m) > limit {
        assert m in kept;
        var left, right := Keep(pts, a, m, limit) + {a as int, m as int}, Keep(pts, m, b, limit) + {m as int, b as int};
        assert left <= kept && right <= kept;
        if hi <= m {
          assert lo in left && hi in left;
          DroppedIsClose(pts, a, m, limit, lo, hi, i);
        } else {
          assert m <= lo;
          assert lo in right && hi in right;
          DroppedIsClose(pts, m, b, limit, lo, hi, i);
        }
      } else {
        assert kept == {a as int, b as int};
      }
    }
  }

  /** Between `lo` and `hi` point `m` is the first of those farthest off, and farther than the limit. */
  ghost predicate SplitsAt(pts: seq<Point>, lo: int, hi: int, m: int, limit: real) {
    && 0 <= lo < m < hi < |pts|
    && Off(pts, lo, hi, m) > limit
    && (forall i :: lo < i < hi ==> Off(pts, lo, hi, i) <= Off(pts, lo, hi, m))
    && (forall i :: lo < i < m ==> Off(pts, lo, hi, i) < Off(pts, lo, hi, m))
  }

  /** No index is kept without need: it splits a span between two kept ones. */
  lemma {:induction false} KeptIsNeeded(pts: seq<Point>, a: nat, b: nat, limit: real, m: int) returns (lo: nat, hi: nat)
    requires a < b < |pts| && m in Keep(pts, a, b, limit)
    ensures lo in Keep(pts, a, b, limit) + {a as int, b as int} && hi in Keep(pts, a, b, limit) + {a as int, b as int}
    ensures SplitsAt(pts, lo, hi, m, limit)
    decreases b - a
  {
    var k := Farthest(pts, a, b, b);
    if m == k {
      lo, hi := a, b;
    } else if m < k {
      lo, hi := KeptIsNeeded(pts, a, k, limit, m);
    } else {
      lo, hi := KeptIsNeeded(pts, k, b, limit, m);
    }
  }

  ghost predicate AllWithin(pts: seq<Point>, a: nat, b: nat, limit: real)
    requires a <= b < |pts|
  {
    forall i :: a < i < b ==> Off(pts, a, b, i) <= limit
  }

  /** Nothing is kept in between exactly when all lies within the limit. */
  lemma StraightDropsAll(pts: seq<Point>, a: nat, b: nat, limit: real)
    requires a <= b < |pts|
    ensures Keep(pts, a, b, limit) == {} <==> AllWithin(pts, a, b, limit)
  {
    if b > a + 1 {
      var m := Farthest(pts, a, b, b);
      if Off(pts, a, b, m) > limit {
        assert m in Keep(pts, a, b, limit);
      }
    }
  }

  /** A larger limit keeps fewer indices. */
  lemma {:induction false} KeepShrinks(pts: seq<Point>, a: nat, b: nat, limit: real, limit': real)
    requires a <= b < |pts| && limit <= limit'
    ensures Keep(pts, a, b, limit') <= Keep(pts, a, b, limit)
    decreases b - a
  {
    if b > a + 1 {
      var m := Farthest(pts, a, b, b);
      KeepShrinks(pts, a, m, limit, limit');
      KeepShrinks(pts, m, b, limit, limit');
    }
  }

  // ----- Simplifying a line -------------------------------------------------------------------

  class Simplifier {
    var keep: set<int>

    constructor (last: int)
      ensures keep == {0, last}
    {
      keep := {0, last};
    }

    /** Adds the indices to keep strictly between `start` and `end`. */
    method RdpIndices(points: seq<Point>, start: nat, end: nat, limit: real)
      requires start <= end < |points|
      modifies this
      ensures keep == old(keep) + Keep(points, start, end, limit)
      decreases end - start
    {
      if end <= start + 1 {
        return;
      }
      var maxIndex := start + 1;
      for i := start + 2 to end
        invariant maxIndex == Farthest(points, start, end, i) && keep == old(keep)
      {
        if Off(points, start, end, i) > Off(points, start, end, maxIndex) {
          maxIndex := i;
        }
      }
      if Off(points, start, end, maxIndex) > limit {
        keep := keep + {maxIndex as int};
        RdpIndices(points, start, maxIndex, limit);
        RdpIndices(points, maxIndex, end, limit);
      }
    }
  }

  /** All coordinates in the local plane around the first one. */
  function Projected(coords: seq<Point>, project: (Point, Point) -> Point): seq<Point> {
    seq(|coords|, i requires 0 <= i < |coords| => project(coords[i], coords[0]))
  }

  ghost function Upto(n: nat): (s: set<int>)
    ensures forall i :: i in s <==> 0 <= i < n
  {
    if n == 0 then {} else Upto(n - 1) + {n - 1}
  }

  /** The indices a simplification keeps. */
  ghost function KeptIndices(coords: seq<Point>, tolerance: real, project: (Point, Point) -> Point): set<int> {
    if tolerance <= 0.0 || |coords| <= 2 then Upto(|coords|)
    else Keep(Projected(coords, project), 0, |coords| - 1, tolerance * tolerance) + {0, |coords| - 1}
  }

  /** Picks the coordinates at the given indices. */
  function At(coords: seq<Point>, indices: seq<int>): seq<Point>
    requires forall i :: 0 <= i < |indices| ==> 0 <= indices[i] < |coords|
  {
    seq(|indices|, i requires 0 <= i < |indices| => coords[indices[i]])
  }

  /** `line` has the coordinates at the indices `kept`, in order. */
  ghost predicate PicksOut(coords: seq<Point>, kept: set<int>, line: seq<Point>) {
    exists indices :: PicksAt(coords, kept, line, indices)
  }

  ghost predicate PicksAt(coords: seq<Point>, kept: set<int>, line: seq<Point>, indices: seq<int>) {
    && Ascending(indices) && Elements(indices) == kept
    && (forall i :: 0 <= i < |indices| ==> 0 <= indices[i] < |coords|)
    && line == At(coords, indices)
  }

  method SimplifyLineMeters(coords: seq<Point>, tolerance: real, project: (Point, Point) -> Point)
    returns (line: seq<Point>)
    ensures PicksOut(coords, KeptIndices(coords, tolerance, project), line)
  {
    if tolerance <= 0.0 || |coords| <= 2 {
      ghost var indices: seq<int> := seq(|coords|, i => i);
      forall i
        ensures i in Elements(indices) <==> 0 <= i < |coords|
      {
        if 0 <= i < |coords| { assert indices[i] == i; }
      }
      assert PicksAt(coords, KeptIndices(coords, tolerance, project), coords, indices);
      return coords;
    }
    var xy := Projected(coords, project);
    var simplifier := new Simplifier(|coords| - 1);
    simplifier.RdpIndices(xy, 0, |coords| - 1, tolerance * tolerance);
    assert forall i :: i in simplifier.keep ==> 0 <= i < |coords|;
    var sorted := Sorted(simplifier.keep);
    forall i | 0 <= i < |sorted|
      ensures 0 <= sorted[i] < |coords|
    {
      assert sorted[i] in Elements(sorted);
    }
    line := At(coords, sorted);
    assert PicksAt(coords, KeptIndices(coords, tolerance, project), line, sorted);
  }

  /** The ends are kept, and what is dropped is within tolerance of the simplified line. */
  lemma SimplifiedIsClose(coords: seq<Point>, tolerance: real, project: (Point, Point) -> Point, lo: nat, hi: nat, i: nat)
    requires |coords| >= 1
    ensures 0 in KeptIndices(coords, tolerance, project) && |coords| - 1 in KeptIndices(coords, tolerance, project)
    ensures Neighbours(KeptIndices(coords, tolerance, project), lo, hi) && lo < i < hi ==>
              && tolerance > 0.0 && hi < |coords|
              && Off(Projected(coords, project), lo, hi, i) <= tolerance * tolerance
  {
    var kept := KeptIndices(coords, tolerance, project);
    if tolerance <= 0.0 || |coords| <= 2 {
      assert lo in kept && hi in kept && lo < i < hi ==> i in kept;
    } else if Neighbours(kept, lo, hi) && lo < i < hi {
      DroppedIsClose(Projected(coords, project), 0, |coords| - 1, tolerance * tolerance, lo, hi, i);
    }
  }

  /** Every index kept between the ends splits a span between two kept ones, farther off than the tolerance. */
  lemma SimplifiedIsNeeded(coords: seq<Point>, tolerance: real, project: (Point, Point) -> Point, m: int) returns (lo: nat, hi: nat)
    requires tolerance > 0.0 && |coords| > 2 && m in KeptIndices(coords, tolerance, project) && 0 < m < |coords| - 1
    ensures lo in KeptIndices(coords, tolerance, project) && hi in KeptIndices(coords, tolerance, project)
    ensures SplitsAt(Projected(coords, project), lo, hi, m, tolerance * tolerance)
  {
    lo, hi := KeptIsNeeded(Projected(coords, project), 0, |coords| - 1, tolerance * tolerance, m);
  }

  /** Only the ends are kept exactly when all points are within tolerance of the segment between them. */
  lemma StraightKeepsEnds(coords: seq<Point>, tolerance: real, project: (Point, Point) -> Point)
    requires tolerance > 0.0 && |coords| > 2
    ensures KeptIndices(coords, tolerance, project) == {0, |coords| - 1} <==>
            AllWithin(Projected(coords, project), 0, |coords| - 1, tolerance * tolerance)
  {
    var pts, last, limit := Projected(coords, project), |coords| - 1, tolerance * tolerance;
    StraightDropsAll(pts, 0, last, limit);
    var kept := Keep(pts, 0, last, limit);
    assert forall i :: i in kept ==> 0 < i < last;
    SomeKept(kept, KeptIndices(coords, tolerance, project), last);
  }

  lemma SomeKept(kept: set<int>, all: set<int>, last: int)
    requires all == kept + {0, last} && forall i :: i in kept ==> 0 < i < last
    ensures all == {0, last} <==> kept == {}
  {
    forall i | i in kept
      ensures all != {0, last}
    {
      assert i in all && i != 0 && i != last;
    }
    NoneIn(all == {0, last}, kept);
    if kept == {} {
      assert forall i :: i in all <==> i == 0 || i == last;
    }
  }

  /** The levels of detail nest: a coarser one keeps a subset of the indices of a finer one. */
  lemma LevelsNest(coords: seq<Point>, project: (Point, Point) -> Point, fine: real, coarse: real)
    requires fine <= coarse
    ensures KeptIndices(coords, coarse, project) <= KeptIndices(coords, fine, project)
  {
    if |coords| > 2 && fine > 0.0 {
      assert fine * fine <= coarse * coarse by {
        assert fine * fine <= fine * coarse <= coarse * coarse;
      }
      KeepShrinks(Projected(coords, project), 0, |coords| - 1, fine * fine, coarse * coarse);
    }
  }
}
