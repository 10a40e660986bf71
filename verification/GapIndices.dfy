/**
 Finding, in the coordinates of a drawn route, the places where the route jumps. The indices are
 recomputed from the edges alone, by replaying how many points each edge contributed.
 */
module GapIndices {
  import opened Sorting
  import opened Network
  import opened Greedy

  /** The points the first edges have contributed: all of the first edge, one less of the others. */
  function Cursor(n: Net, es: seq<EdgeRef>): nat {
    if es == [] then 0 else Cursor(n, es[..|es| - 1]) + Contributed(n, es[|es| - 1], |es| == 1)
  }

  function Contributed(n: Net, e: EdgeRef, first: bool): nat {
    var k := |n.Geometry(e)|;
    if first then k else if k == 0 then 0 else k - 1
  }

  /** The route goes on at edge `i` from somewhere else than it got to. */
  predicate JumpsBefore(es: seq<EdgeRef>, i: int) {
    1 <= i < |es| && es[i - 1].v != es[i].u
  }

  /** The jump before edge `i` shows at index `g`, inside the coordinates. */
  ghost predicate JumpsTo(n: Net, es: seq<EdgeRef>, coordCount: int, i: int, g: int) {
    JumpsBefore(es, i) && g == Cursor(n, es[..i]) && 0 < g < coordCount
  }

  method DeriveExplicitGapIndices(n: Net, edges: seq<EdgeRef>, coordCount: int) returns (gaps: seq<int>)
    ensures Ascending(gaps)
    ensures forall g :: g in gaps <==>
              coordCount >= 2 && exists i :: JumpsTo(n, edges, coordCount, i, g)
  {
    if |edges| < 2 || coordCount < 2 {
      return [];
    }
    var starts: seq<int>, cursor := [], 0;
    for i := 0 to |edges|
      invariant |starts| == i && cursor == Cursor(n, edges[..i])
      invariant forall k :: 0 <= k < i ==> starts[k] == Cursor(n, edges[..k])
    {
      starts := starts + [cursor];
      assert edges[..i + 1][..i] == edges[..i];
      cursor := cursor + Contributed(n, edges[i], i == 0);
    }
    var found: set<int> := {};
    for i := 1 to |edges|
      invariant forall g :: g in found <==> exists k :: 1 <= k < i && JumpsTo(n, edges, coordCount, k, g)
    {
      if edges[i - 1].v != edges[i].u {
        var g := starts[i];
        if 0 < g < coordCount {
          assert JumpsTo(n, edges, coordCount, i, g);
          found := found + {g};
        }
      }
    }
    gaps := Sorted(found);
    assert forall g :: g in gaps <==> g in Elements(gaps);
  }

  // ----- What the indices point at ------------------------------------------------------------

  /** Every edge is drawn with at least two points. */
  ghost predicate Drawable(n: Net, es: seq<EdgeRef>) {
    forall e :: e in es ==> |n.Geometry(e)| >= 2
  }

  /** The cursor ends at the number of coordinates. */
  lemma {:induction false} CursorIsLength(n: Net, es: seq<EdgeRef>)
    requires Drawable(n, es)
    ensures Cursor(n, es) == |Drawn(n, es)| && (es != [] ==> |Drawn(n, es)| >= 2)
  {
    if es != [] {
      CursorIsLength(n, es[..|es| - 1]);
      assert es[|es| - 1] in es;
    }
  }

  lemma {:induction false} DrawnPrefix(n: Net, es: seq<EdgeRef>, i: nat)
    requires i <= |es|
    ensures Drawn(n, es[..i]) <= Drawn(n, es)
  {
    if i == |es| {
      assert es[..i] == es;
    } else {
      DrawnPrefix(n, es[..|es| - 1], i);
      assert es[..|es| - 1][..i] == es[..i];
    }
  }

  ghost function EndOf(line: seq<Point>): Point {
    if line == [] then Point(0.0, 0.0) else line[|line| - 1]
  }

  /** A drawn route ends with the last point of its last edge. */
  lemma DrawnEnd(n: Net, es: seq<EdgeRef>)
    requires es != [] && Drawable(n, es)
    ensures Drawn(n, es) != [] && EndOf(Drawn(n, es)) == EndOf(n.Geometry(es[|es| - 1]))
  {
    assert es[|es| - 1] in es;
  }

  /** The point before index `g` is the end of edge `i - 1`, the point at `g` is the second of edge `i`. */
  ghost predicate Separates(n: Net, es: seq<EdgeRef>, coords: seq<Point>, i: int, g: int) {
    && 1 <= i < |es| && 0 < g < |coords|
    && |n.Geometry(es[i - 1])| >= 2 && |n.Geometry(es[i])| >= 2
    && coords[g - 1] == EndOf(n.Geometry(es[i - 1]))
    && coords[g] == n.Geometry(es[i])[1]
  }

  /** Up to edge `i` the drawing ends with the last point of edge `i - 1`. */
  lemma LineBefore(n: Net, es: seq<EdgeRef>, i: nat)
    requires Drawable(n, es) && 1 <= i < |es|
    ensures Drawable(n, [es[i - 1], es[i]]) && Drawn(n, es[..i]) != []
    ensures |Drawn(n, es[..i])| == Cursor(n, es[..i])
    ensures EndOf(Drawn(n, es[..i])) == EndOf(n.Geometry(es[i - 1]))
  {
    var a := es[..i];
    assert a[|a| - 1] == es[i - 1] && forall e :: e in a ==> e in es;
    CursorIsLength(n, a);
    DrawnEnd(n, a);
  }

  /** Edge `i` goes on from there. */
  lemma LineAfter(n: Net, es: seq<EdgeRef>, i: nat)
    requires i < |es|
    ensures Joined(Drawn(n, es[..i]), n.Geometry(es[i])) <= Drawn(n, es)
  {
    assert es[..i + 1] == es[..i] + [es[i]];
    DrawnExtended(n, es[..i], es[i]);
    DrawnPrefix(n, es, i + 1);
  }

  /** Where edge `i` joins the drawing. */
  lemma JointAt(n: Net, es: seq<EdgeRef>, i: nat)
    requires Drawable(n, es) && 1 <= i < |es|
    ensures Separates(n, es, Drawn(n, es), i, Cursor(n, es[..i]))
  {
    LineBefore(n, es, i);
    LineAfter(n, es, i);
    JointOf(n, es, i, Drawn(n, es[..i]), Drawn(n, es));
  }

  lemma JointOf(n: Net, es: seq<EdgeRef>, i: nat, line: seq<Point>, whole: seq<Point>)
    requires 1 <= i < |es| && Drawable(n, [es[i - 1], es[i]])
    requires line != [] && EndOf(line) == EndOf(n.Geometry(es[i - 1])) && Joined(line, n.Geometry(es[i])) <= whole
    ensures Separates(n, es, whole, i, |line|)
  {
    assert es[i] in [es[i - 1], es[i]] && es[i - 1] in [es[i - 1], es[i]];
    PrefixJoint(line, n.Geometry(es[i]), whole);
  }

  lemma PrefixJoint(line: seq<Point>, more: seq<Point>, whole: seq<Point>)
    requires line != [] && |more| >= 2 && Joined(line, more) <= whole
    ensures |line| < |whole| && whole[|line| - 1] == EndOf(line) && whole[|line|] == more[1]
  {
    var j := Joined(line, more);
    assert j[|line| - 1] == line[|line| - 1] && j[|line|] == more[1..][0];
  }

  /** Later edges start at later indices. */
  lemma {:induction false} CursorGrows(n: Net, es: seq<EdgeRef>, i: nat, j: nat)
    requires Drawable(n, es) && i < j <= |es|
    ensures Cursor(n, es[..i]) < Cursor(n, es[..j])
  {
    assert es[..j][..j - 1] == es[..j - 1] && es[..j][j - 1] == es[j - 1] && es[j - 1] in es;
    if i < j - 1 {
      CursorGrows(n, es, i, j - 1);
    }
  }

  /**
   For the edges and coordinates of one solution, the derived indices are exactly the jumps, in
   one-to-one correspondence, and each separates the two ends of its jump.
   */
  lemma GapsAreJumps(n: Net, es: seq<EdgeRef>, coords: seq<Point>, gaps: seq<int>)
    requires Drawable(n, es) && coords == Drawn(n, es)
    requires forall g :: g in gaps <==>
               |coords| >= 2 && exists i :: JumpsTo(n, es, |coords|, i, g)
    ensures forall i :: JumpsBefore(es, i) ==> Cursor(n, es[..i]) in gaps
    ensures forall g :: g in gaps ==> exists i :: JumpsTo(n, es, |coords|, i, g) && Separates(n, es, coords, i, g)
    ensures forall i, j :: JumpsBefore(es, i) && JumpsBefore(es, j) && i != j ==> Cursor(n, es[..i]) != Cursor(n, es[..j])
    ensures Cursor(n, es) == |coords|
  {
    CursorIsLength(n, es);
    forall i | JumpsBefore(es, i)
      ensures Cursor(n, es[..i]) in gaps && Separates(n, es, coords, i, Cursor(n, es[..i]))
    {
      JointAt(n, es, i);
      assert JumpsTo(n, es, |coords|, i, Cursor(n, es[..i]));
    }
    forall i, j | JumpsBefore(es, i) && JumpsBefore(es, j) && i != j
      ensures Cursor(n, es[..i]) != Cursor(n, es[..j])
    {
      if i < j {
        CursorGrows(n, es, i, j);
      } else {
        CursorGrows(n, es, j, i);
      }
    }
  }

  /** The indices of all jumps. */
  ghost function JumpIndices(n: Net, es: seq<EdgeRef>): set<int> {
    if es == [] then {}
    else JumpIndices(n, es[..|es| - 1]) + if JumpsBefore(es, |es| - 1) then {Cursor(n, es[..|es| - 1])} else {}
  }

  lemma {:induction false} JumpIsIndexed(n: Net, es: seq<EdgeRef>, i: int)
    requires JumpsBefore(es, i)
    ensures Cursor(n, es[..i]) in JumpIndices(n, es)
  {
    if i < |es| - 1 {
      var init := es[..|es| - 1];
      assert init[..i] == es[..i];
      JumpIsIndexed(n, init, i);
    }
  }

  lemma {:induction false} IndicesBounded(n: Net, start: Node, es: seq<EdgeRef>)
    ensures |JumpIndices(n, es)| <= Breaks(start, es)
  {
    if es != [] {
      IndicesBounded(n, start, es[..|es| - 1]);
    }
  }

  /** There are no more gaps than breaks in the route. */
  lemma GapsBounded(n: Net, start: Node, es: seq<EdgeRef>, coordCount: int, gaps: seq<int>)
    requires Ascending(gaps) && forall g :: g in gaps ==> exists i :: JumpsTo(n, es, coordCount, i, g)
    ensures |gaps| <= Breaks(start, es)
  {
    var found := Elements(gaps);
    forall g | g in found
      ensures g in JumpIndices(n, es)
    {
      assert g in gaps;
      var i :| JumpsTo(n, es, coordCount, i, g);
      JumpIsIndexed(n, es, i);
    }
    DistinctCount(gaps);
    IndicesBounded(n, start, es);
    SubsetCount(found, JumpIndices(n, es));
  }
}
