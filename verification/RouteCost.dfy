/**
 The cost of a service sequence, and why the two incremental deltas of the local search are
 exact. A `Sum` adds a real and remembers whether every summand was defined, so one equation
 speaks about both.
 */
module RouteCost {
  import opened Optional
  import opened Network

  datatype Sum = Sum(ok: bool, value: real) {
    ghost function Plus(other: Sum): Sum {
      Sum(ok && other.ok, value + other.value)
    }
  }

  ghost const ZERO := Sum(true, 0.0)

  /** What a connection and a served edge cost. */
  datatype Meter = Meter(gap: (Node, Node) -> Sum, len: EdgeRef -> real) {
    ghost predicate NonNegative() {
      (forall a, b :: 0.0 <= gap(a, b).value) && forall e :: 0.0 <= len(e)
    }
  }

  /** Connecting cost from `a` to the start of `s`; an open end costs nothing. */
  ghost function GapTo(w: Meter, a: Node, s: seq<Service>): Sum {
    if s == [] then ZERO else w.gap(a, s[0].edge.u)
  }

  /** Where a vehicle stands after serving `s` from `start`. */
  function EndOf(start: Node, s: seq<Service>): Node {
    if s == [] then start else s[|s| - 1].edge.v
  }

  /** The cost of serving `s` in order from `start`: every connection and every served edge. */
  ghost function Total(w: Meter, start: Node, s: seq<Service>): Sum
    decreases s
  {
    if s == [] then ZERO
    else
      var e := s[0].edge;
      w.gap(start, e.u).Plus(Sum(true, w.len(e))).Plus(Total(w, e.v, s[1..]))
  }

  /** `Total` without the connection into the first edge; it does not depend on the start. */
  ghost function Body(w: Meter, s: seq<Service>): Sum {
    if s == [] then ZERO
    else Sum(true, w.len(s[0].edge)).Plus(Total(w, s[0].edge.v, s[1..]))
  }

  lemma {:induction false} TotalSplit(w: Meter, start: Node, a: seq<Service>, b: seq<Service>)
    ensures Total(w, start, a + b) == Total(w, start, a).Plus(Total(w, EndOf(start, a), b))
    decreases a
  {
    if a == [] {
      assert a + b == b;
    } else {
      assert (a + b)[1..] == a[1..] + b;
      TotalSplit(w, a[0].edge.v, a[1..], b);
    }
  }

  lemma TotalFromGap(w: Meter, start: Node, s: seq<Service>)
    ensures Total(w, start, s) == GapTo(w, start, s).Plus(Body(w, s))
  {
  }

  lemma TotalStep(w: Meter, start: Node, s: seq<Service>, i: nat)
    requires i < |s|
    ensures Total(w, start, s[..i + 1]) ==
            Total(w, start, s[..i]).Plus(w.gap(EndOf(start, s[..i]), s[i].edge.u)).Plus(Sum(true, w.len(s[i].edge)))
  {
    assert s[..i + 1] == s[..i] + [s[i]];
    TotalSplit(w, start, s[..i], [s[i]]);
  }

  lemma {:induction false} TotalNonNegative(w: Meter, start: Node, s: seq<Service>)
    requires w.NonNegative()
    ensures 0.0 <= Total(w, start, s).value
    decreases s
  {
    if s != [] {
      TotalNonNegative(w, s[0].edge.v, s[1..]);
    }
  }

  // ----- Reversing a stretch ----------------------------------------------------------------

  function Reversed<T>(s: seq<T>): (r: seq<T>)
    ensures |r| == |s|
    ensures forall i :: 0 <= i < |s| ==> r[i] == s[|s| - 1 - i]
  {
    if s == [] then [] else Reversed(s[1..]) + [s[0]]
  }

  /** `s` with positions `i..j` (inclusive) reversed. */
  function Swapped<T>(s: seq<T>, i: nat, j: nat): (r: seq<T>)
    requires i <= j < |s|
    ensures |r| == |s|
    ensures forall k :: 0 <= k < |s| ==> r[k] == if i <= k <= j then s[i + j - k] else s[k]
  {
    s[..i] + Reversed(s[i..j + 1]) + s[j + 1..]
  }

  /** The connections inside `m`, read forwards. */
  ghost function Forward(w: Meter, m: seq<Service>): Sum {
    if |m| <= 1 then ZERO else w.gap(m[0].edge.v, m[1].edge.u).Plus(Forward(w, m[1..]))
  }

  /** The connections inside `m`, read backwards. */
  ghost function Backward(w: Meter, m: seq<Service>): Sum {
    if |m| <= 1 then ZERO else w.gap(m[1].edge.v, m[0].edge.u).Plus(Backward(w, m[1..]))
  }

  ghost function Lengths(w: Meter, m: seq<Service>): Sum {
    if m == [] then ZERO else Sum(true, w.len(m[0].edge)).Plus(Lengths(w, m[1..]))
  }

  lemma {:induction false} TotalForward(w: Meter, p: Node, m: seq<Service>)
    requires m != []
    decreases m
    ensures Total(w, p, m) == w.gap(p, m[0].edge.u).Plus(Lengths(w, m)).Plus(Forward(w, m))
  {
    if |m| > 1 {
      TotalForward(w, m[0].edge.v, m[1..]);
    }
  }

  lemma {:induction false} TotalBackward(w: Meter, p: Node, m: seq<Service>)
    requires m != []
    decreases m
    ensures Total(w, p, Reversed(m)) == w.gap(p, m[|m| - 1].edge.u).Plus(Lengths(w, m)).Plus(Backward(w, m))
  {
    if |m| == 1 {
      assert Reversed(m) == m;
    } else {
      TotalBackward(w, p, m[1..]);
      TotalSplit(w, p, Reversed(m[1..]), [m[0]]);
    }
  }

  lemma {:induction false} ForwardAppend(w: Meter, m: seq<Service>, x: Service)
    requires m != []
    ensures Forward(w, m + [x]) == Forward(w, m).Plus(w.gap(m[|m| - 1].edge.v, x.edge.u))
  {
    if |m| == 1 {
      assert (m + [x])[1..] == [x];
    } else {
      assert (m + [x])[1..] == m[1..] + [x];
      ForwardAppend(w, m[1..], x);
    }
  }

  /** What the connections touched by a reversal cost before and after it. */
  ghost function SwapOld(w: Meter, start: Node, s: seq<Service>, i: nat, j: nat): Sum
    requires i <= j < |s|
  {
    w.gap(EndOf(start, s[..i]), s[i].edge.u).Plus(Forward(w, s[i..j + 1])).Plus(GapTo(w, s[j].edge.v, s[j + 1..]))
  }

  ghost function SwapNew(w: Meter, start: Node, s: seq<Service>, i: nat, j: nat): Sum
    requires i <= j < |s|
  {
    w.gap(EndOf(start, s[..i]), s[j].edge.u).Plus(Backward(w, s[i..j + 1])).Plus(GapTo(w, s[i].edge.v, s[j + 1..]))
  }

  /** Everything a reversal leaves alone. */
  ghost function SwapRest(w: Meter, start: Node, s: seq<Service>, i: nat, j: nat): Sum
    requires i <= j < |s|
  {
    Total(w, start, s[..i]).Plus(Lengths(w, s[i..j + 1])).Plus(Body(w, s[j + 1..]))
  }

  lemma SwapBefore(w: Meter, start: Node, s: seq<Service>, i: nat, j: nat)
    requires i <= j < |s|
    ensures Total(w, start, s) == SwapRest(w, start, s, i, j).Plus(SwapOld(w, start, s, i, j))
  {
    var a, m, b := s[..i], s[i..j + 1], s[j + 1..];
    var p := EndOf(start, a);
    assert s == a + (m + b);
    TotalSplit(w, start, a, m + b);
    TotalSplit(w, p, m, b);
    TotalForward(w, p, m);
    assert EndOf(p, m) == s[j].edge.v && m[0] == s[i];
    TotalFromGap(w, s[j].edge.v, b);
  }

  lemma SwapAfter(w: Meter, start: Node, s: seq<Service>, i: nat, j: nat)
    requires i <= j < |s|
    ensures Total(w, start, Swapped(s, i, j)) == SwapRest(w, start, s, i, j).Plus(SwapNew(w, start, s, i, j))
  {
    var a, m, b := s[..i], s[i..j + 1], s[j + 1..];
    var p := EndOf(start, a);
    assert Swapped(s, i, j) == a + (Reversed(m) + b);
    TotalSplit(w, start, a, Reversed(m) + b);
    TotalSplit(w, p, Reversed(m), b);
    TotalBackward(w, p, m);
    assert EndOf(p, Reversed(m)) == s[i].edge.v && m[|m| - 1] == s[j];
    TotalFromGap(w, s[i].edge.v, b);
  }

  // ----- Moving one item --------------------------------------------------------------------

  /** `s` with item `i` taken out and put back after the item at `j` (-1: at the front). */
  function Relocated<T>(s: seq<T>, i: nat, j: int): (r: seq<T>)
    requires i < |s| && -1 <= j < |s|
    ensures |r| == |s|
  {
    var rest := s[..i] + s[i + 1..];
    var at := if j < i then j + 1 else j;
    rest[..at] + [s[i]] + rest[at..]
  }

  /** Where each position of a relocated sequence comes from. */
  lemma RelocatedAt<T>(s: seq<T>, i: nat, j: int, k: nat)
    requires i < |s| && -1 <= j < |s| && k < |s|
    ensures Relocated(s, i, j)[k] == s[RelocatedFrom(i, j, k)] && RelocatedFrom(i, j, k) < |s|
  {
  }

  function RelocatedFrom(i: nat, j: int, k: nat): nat {
    var at := if j < i then j + 1 else j;
    if k == at then i
    else
      var q := if k < at then k else k - 1;
      if q < i then (if q < 0 then 0 else q) else q + 1
  }

  /** What the three connections around the gap left by `x` and the gap it fills cost. */
  ghost function MoveOld(w: Meter, p: Node, b: seq<Service>, x: Service, c: seq<Service>): Sum {
    GapTo(w, p, b).Plus(w.gap(EndOf(p, b), x.edge.u)).Plus(GapTo(w, x.edge.v, c))
  }

  ghost function MoveNew(w: Meter, p: Node, b: seq<Service>, x: Service, c: seq<Service>): Sum {
    w.gap(p, x.edge.u).Plus(GapTo(w, x.edge.v, b)).Plus(GapTo(w, EndOf(p, b), c))
  }

  ghost function MoveRest(w: Meter, start: Node, a: seq<Service>, b: seq<Service>, x: Service, c: seq<Service>): Sum {
    Total(w, start, a).Plus(Body(w, b)).Plus(Body(w, [x])).Plus(Body(w, c))
  }

  lemma MoveCosts(w: Meter, start: Node, a: seq<Service>, b: seq<Service>, x: Service, c: seq<Service>)
    requires b != []
    ensures var p := EndOf(start, a);
            && Total(w, start, a + b + [x] + c) == MoveRest(w, start, a, b, x, c).Plus(MoveOld(w, p, b, x, c))
            && Total(w, start, a + [x] + b + c) == MoveRest(w, start, a, b, x, c).Plus(MoveNew(w, p, b, x, c))
  {
    var p := EndOf(start, a);
    TotalSplit(w, start, a + b + [x], c);
    TotalSplit(w, start, a + b, [x]);
    TotalSplit(w, start, a, b);
    assert EndOf(start, a + b) == EndOf(p, b);
    TotalSplit(w, start, a + [x] + b, c);
    TotalSplit(w, start, a + [x], b);
    TotalSplit(w, start, a, [x]);
    assert EndOf(start, a + [x] + b) == EndOf(p, b);
  }

  /** The three connections a relocation removes, in the order the search reads them. */
  ghost function RelocateOld(w: Meter, start: Node, s: seq<Service>, i: nat, j: int): Sum
    requires i < |s| && -1 <= j < |s|
  {
    w.gap(EndOf(start, s[..i]), s[i].edge.u)
    .Plus(GapTo(w, s[i].edge.v, s[i + 1..]))
    .Plus(GapTo(w, EndOf(start, s[..j + 1]), s[j + 1..]))
  }

  /** The three connections it adds. */
  ghost function RelocateNew(w: Meter, start: Node, s: seq<Service>, i: nat, j: int): Sum
    requires i < |s| && -1 <= j < |s|
  {
    GapTo(w, EndOf(start, s[..i]), s[i + 1..])
    .Plus(w.gap(EndOf(start, s[..j + 1]), s[i].edge.u))
    .Plus(GapTo(w, s[i].edge.v, s[j + 1..]))
  }

  /** Moving an item towards the front: one common remainder accounts for the rest of both costs. */
  lemma RelocateBackCosts(w: Meter, start: Node, s: seq<Service>, i: nat, j: int) returns (rest: Sum)
    requires i < |s| && -1 <= j < i - 1
    ensures Total(w, start, s) == rest.Plus(RelocateOld(w, start, s, i, j))
    ensures Total(w, start, Relocated(s, i, j)) == rest.Plus(RelocateNew(w, start, s, i, j))
  {
    var x := s[i];
    var gone := s[..i] + s[i + 1..];
    var a, b, c := s[..j + 1], s[j + 1..i], s[i + 1..];
    assert s == a + b + [x] + c;
    assert gone[..j + 1] == a && gone[j + 1..] == b + c;
    assert Relocated(s, i, j) == a + [x] + b + c;
    MoveCosts(w, start, a, b, x, c);
    rest := MoveRest(w, start, a, b, x, c);
    assert EndOf(EndOf(start, a), b) == EndOf(start, s[..i]);
  }

  /** Moving it towards the end. */
  lemma RelocateOnCosts(w: Meter, start: Node, s: seq<Service>, i: nat, j: int) returns (rest: Sum)
    requires i < j < |s|
    ensures Total(w, start, s) == rest.Plus(RelocateOld(w, start, s, i, j))
    ensures Total(w, start, Relocated(s, i, j)) == rest.Plus(RelocateNew(w, start, s, i, j))
  {
    var x := s[i];
    var gone := s[..i] + s[i + 1..];
    var a, b, c := s[..i], s[i + 1..j + 1], s[j + 1..];
    assert s == a + [x] + b + c;
    assert gone[..j] == a + b && gone[j..] == c;
    assert Relocated(s, i, j) == a + b + [x] + c;
    MoveCosts(w, start, a, b, x, c);
    rest := MoveRest(w, start, a, b, x, c);
    assert EndOf(EndOf(start, a), b) == EndOf(start, s[..j + 1]);
  }

  lemma RelocateCosts(w: Meter, start: Node, s: seq<Service>, i: nat, j: int) returns (rest: Sum)
    requires i < |s| && -1 <= j < |s| && j != i && j != i - 1
    ensures Total(w, start, s) == rest.Plus(RelocateOld(w, start, s, i, j))
    ensures Total(w, start, Relocated(s, i, j)) == rest.Plus(RelocateNew(w, start, s, i, j))
  {
    if j < i {
      rest := RelocateBackCosts(w, start, s, i, j);
    } else {
      rest := RelocateOnCosts(w, start, s, i, j);
    }
  }

  // ----- Replacing one edge -----------------------------------------------------------------

  /** The connections around position `i` if it were served by the edge `e`. */
  ghost function Around(w: Meter, start: Node, s: seq<Service>, i: nat, e: EdgeRef): Sum
    requires i < |s|
  {
    w.gap(EndOf(start, s[..i]), e.u)
    .Plus(Sum(true, w.len(e)))
    .Plus(GapTo(w, e.v, s[i + 1..]))
  }

  lemma ReplaceCosts(w: Meter, start: Node, s: seq<Service>, i: nat, x: Service)
    requires i < |s|
    ensures Total(w, start, s[i := x]) ==
            Total(w, start, s[..i]).Plus(Body(w, s[i + 1..])).Plus(Around(w, start, s, i, x.edge))
  {
    var a, c := s[..i], s[i + 1..];
    assert s[i := x] == a + ([x] + c);
    TotalSplit(w, start, a, [x] + c);
    assert ([x] + c)[1..] == c;
  }

  // ----- The requirements served ------------------------------------------------------------

  /** How often `s` serves the requirement `r`. */
  ghost function Times(s: seq<Service>, r: ReqId): nat {
    if s == [] then 0 else (if s[0].rid == r then 1 else 0) + Times(s[1..], r)
  }

  /** The two sequences serve the same requirements equally often. */
  ghost predicate SameRequirements(s: seq<Service>, s': seq<Service>) {
    |s| == |s'| && forall r :: Times(s, r) == Times(s', r)
  }

  lemma {:induction false} TimesSplit(a: seq<Service>, b: seq<Service>, r: ReqId)
    ensures Times(a + b, r) == Times(a, r) + Times(b, r)
  {
    if a == [] {
      assert a + b == b;
    } else {
      assert (a + b)[1..] == a[1..] + b;
      TimesSplit(a[1..], b, r);
    }
  }

  lemma {:induction false} TimesReversed(s: seq<Service>, r: ReqId)
    ensures Times(Reversed(s), r) == Times(s, r)
  {
    if s != [] {
      TimesReversed(s[1..], r);
      TimesSplit(Reversed(s[1..]), [s[0]], r);
    }
  }

  lemma SwappedKeepsRequirements(s: seq<Service>, i: nat, j: nat)
    requires i <= j < |s|
    ensures SameRequirements(s, Swapped(s, i, j))
  {
    var a, m, b := s[..i], s[i..j + 1], s[j + 1..];
    assert s == a + m + b;
    forall r
      ensures Times(s, r) == Times(Swapped(s, i, j), r)
    {
      TimesSplit(a + m, b, r);
      TimesSplit(a, m, r);
      TimesReversed(m, r);
      TimesSplit(a, Reversed(m), r);
      TimesSplit(a + Reversed(m), b, r);
    }
  }

  lemma RelocatedKeepsRequirements(s: seq<Service>, i: nat, j: int)
    requires i < |s| && -1 <= j < |s|
    ensures SameRequirements(s, Relocated(s, i, j))
  {
    var rest := s[..i] + s[i + 1..];
    var at := if j < i then j + 1 else j;
    assert s == s[..i] + [s[i]] + s[i + 1..] && rest == rest[..at] + rest[at..];
    forall r
      ensures Times(s, r) == Times(Relocated(s, i, j), r)
    {
      TimesSplit(s[..i] + [s[i]], s[i + 1..], r);
      TimesSplit(s[..i], [s[i]], r);
      TimesSplit(s[..i], s[i + 1..], r);
      TimesSplit(rest[..at], rest[at..], r);
      TimesSplit(rest[..at] + [s[i]], rest[at..], r);
      TimesSplit(rest[..at], [s[i]], r);
    }
  }

  lemma ReplacedKeepsRequirements(s: seq<Service>, i: nat, e: EdgeRef)
    requires i < |s|
    ensures SameRequirements(s, s[i := Service(s[i].rid, e)])
  {
    var x := Service(s[i].rid, e);
    assert s == s[..i] + ([s[i]] + s[i + 1..]) && s[i := x] == s[..i] + ([x] + s[i + 1..]);
    forall r
      ensures Times(s, r) == Times(s[i := x], r)
    {
      TimesSplit(s[..i], [s[i]] + s[i + 1..], r);
      TimesSplit(s[..i], [x] + s[i + 1..], r);
      TimesSplit([s[i]], s[i + 1..], r);
      TimesSplit([x], s[i + 1..], r);
    }
  }
}
