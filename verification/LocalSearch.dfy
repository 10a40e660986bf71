/**
 The local search over a service sequence: orientation flips, 2-opt reversals and single-item
 relocations, each accepted on an incremental cost delta. Clock readings are arbitrary, so the
 results hold for every time budget.
 */
module LocalSearch {
  import opened Optional
  import opened Guard
  import opened Network
  import opened RouteCost
  import opened DistanceCache
  import Dijkstra

  const MIN_GAIN := 0.000001

  function Min(a: int, b: int): int { if a < b then a else b }

  function Max(a: int, b: int): int { if a < b then b else a }

  /** `delta` is the cost of `s'` less the cost of `s`, and is missing only if there is none. */
  ghost predicate Exact(m: Meter, start: Node, s: seq<Service>, s': seq<Service>, delta: Option<real>) {
    var before, after := Total(m, start, s), Total(m, start, s');
    && (delta.Some? ==> before.ok == after.ok && after.value == before.value + delta.value)
    && (delta.None? && before.ok ==> !after.ok)
  }

  /** Every entry is served by one of the options of its requirement. */
  ghost predicate ServedByOptions(reqs: map<ReqId, seq<EdgeRef>>, s: seq<Service>) {
    forall x :: x in s ==> x.rid in reqs && x.edge in reqs[x.rid]
  }

  /** `s'` serves the same requirements and is `count` improvements cheaper than `s`. */
  ghost predicate Improved(m: Meter, start: Node, reqs: map<ReqId, seq<EdgeRef>>,
                           s: seq<Service>, s': seq<Service>, count: nat)
  {
    && SameRequirements(s, s')
    && (ServedByOptions(reqs, s) ==> ServedByOptions(reqs, s'))
    && Total(m, start, s').ok
    && (count == 0 ==> s' == s)
    && (count > 0 ==> Total(m, start, s').value + (count as real) * 0.000001 < Total(m, start, s).value)
  }

  lemma ImprovedTransitive(m: Meter, start: Node, reqs: map<ReqId, seq<EdgeRef>>,
                           s: seq<Service>, s': seq<Service>, s'': seq<Service>, k: nat, k': nat)
    requires Improved(m, start, reqs, s, s', k) && Improved(m, start, reqs, s', s'', k')
    ensures Improved(m, start, reqs, s, s'', k + k')
  {
    assert (k + k') as real * 0.000001 == k as real * 0.000001 + k' as real * 0.000001;
  }

  /** Serving `s'` costs no less than `value`, but for the least gain. */
  ghost predicate CostsNoLess(m: Meter, start: Node, s': seq<Service>, value: real) {
    Total(m, start, s').ok ==> Total(m, start, s').value >= value - 0.000001
  }

  /** `s'` is not worth moving to from `s`. */
  ghost predicate NoGain(m: Meter, start: Node, s: seq<Service>, s': seq<Service>) {
    CostsNoLess(m, start, s', Total(m, start, s).value)
  }

  /** No reversal that starts at `i` and ends before `hi` pays. */
  ghost predicate SwapRow(m: Meter, start: Node, s: seq<Service>, i: nat, hi: int) {
    forall j: nat :: i + 2 <= j < hi && j < |s| ==> NoGain(m, start, s, Swapped(s, i, j))
  }

  /** No reversal of three entries or more that starts at `i` pays; on a route of more than 100, of at most 50. */
  ghost predicate NoGainfulSwapAt(m: Meter, start: Node, s: seq<Service>, i: nat) {
    forall j: nat :: i + 2 <= j < |s| && (|s| <= 100 || j < i + 50) ==> NoGain(m, start, s, Swapped(s, i, j))
  }

  ghost predicate NoGainfulSwap(m: Meter, start: Node, s: seq<Service>) {
    forall i: nat :: i < |s| ==> NoGainfulSwapAt(m, start, s, i)
  }

  /** No insertion of item `i` after an item in `lo..hi` comes below `value`. */
  ghost predicate MoveRow(m: Meter, start: Node, s: seq<Service>, i: nat, lo: int, hi: int, value: real)
    requires i < |s|
  {
    forall j :: lo <= j < hi && -1 <= j < |s| && j != i && j != i - 1 ==> CostsNoLess(m, start, Relocated(s, i, j), value)
  }

  /** The chosen place for item `i`, if any, saves `-saved`, and that is enough. */
  ghost predicate Placed(m: Meter, start: Node, s: seq<Service>, i: nat, best: Option<int>, saved: real)
    requires i < |s|
  {
    && saved <= 0.0 && (best.None? ==> saved == 0.0)
    && (best.Some? ==>
          && -1 <= best.value < |s| && best.value != i && best.value != i - 1
          && Exact(m, start, s, Relocated(s, i, best.value), Some(saved)) && saved < -0.000001)
  }

  /** It is the best place among those in `lo..hi`. */
  ghost predicate Placing(m: Meter, start: Node, s: seq<Service>, i: nat, lo: int, hi: int, best: Option<int>, saved: real)
    requires i < |s|
  {
    forall k {:trigger Recall(Choice, k)} :: Recall(Choice, k) ==>
      Placed(m, start, s, i, best, saved) && MoveRow(m, start, s, i, lo, hi, Total(m, start, s).value + saved)
  }

  lemma PlacingStart(m: Meter, start: Node, s: seq<Service>, i: nat, lo: int)
    requires i < |s|
    ensures Placing(m, start, s, i, lo, lo, None, 0.0)
  {
  }

  lemma PlacingStep(m: Meter, start: Node, s: seq<Service>, i: nat, lo: int, j: int, best: Option<int>, saved: real, delta: Option<real>)
    requires i < |s| && Total(m, start, s).ok && Placing(m, start, s, i, lo, j, best, saved)
    requires !(-1 <= j < |s|) || j == i || j == i - 1 ==> delta.None?
    requires -1 <= j < |s| && j != i && j != i - 1 ==> Exact(m, start, s, Relocated(s, i, j), delta)
    ensures saved <= 0.0
    ensures var better := delta.Some? && delta.value < saved - 0.000001;
            Placing(m, start, s, i, lo, j + 1, if better then Some(j) else best, if better then delta.value else saved)
  {
    var cost := Total(m, start, s).value;
    assert Placed(m, start, s, i, best, saved) && MoveRow(m, start, s, i, lo, j, cost + saved) by {
      assert Recall(Choice, 0);
    }
    var better := delta.Some? && delta.value < saved - 0.000001;
    MoveRowStep(m, start, s, i, lo, j, cost + saved, cost + if better then delta.value else saved);
  }

  /** One more place, and a value that is no higher. */
  lemma MoveRowStep(m: Meter, start: Node, s: seq<Service>, i: nat, lo: int, j: int, value: real, lower: real)
    requires i < |s| && MoveRow(m, start, s, i, lo, j, value) && lower <= value
    requires -1 <= j < |s| && j != i && j != i - 1 ==> CostsNoLess(m, start, Relocated(s, i, j), lower)
    ensures MoveRow(m, start, s, i, lo, j + 1, lower)
  {
    forall k | lo <= k < j + 1 && -1 <= k < |s| && k != i && k != i - 1
      ensures CostsNoLess(m, start, Relocated(s, i, k), lower)
    {
      assert k < j ==> CostsNoLess(m, start, Relocated(s, i, k), value);
    }
  }

  lemma PlacingEnd(m: Meter, start: Node, s: seq<Service>, i: nat, lo: int, hi: int, best: Option<int>, saved: real)
    requires i < |s| && Placing(m, start, s, i, lo, hi, best, saved)
    requires lo <= -1 || (|s| > 100 && lo <= i - 50)
    requires hi >= |s| || (|s| > 100 && hi > i + 50)
    ensures Placed(m, start, s, i, best, saved) && NoBetterPlace(m, start, s, i, Total(m, start, s).value + saved)
  {
    assert Recall(Choice, 0);
  }

  /** No place for item `i` comes below `value`; on a route of more than 100, none within 50 of its own. */
  ghost predicate NoBetterPlace(m: Meter, start: Node, s: seq<Service>, i: nat, value: real)
    requires i < |s|
  {
    forall j :: -1 <= j < |s| && j != i && j != i - 1 && (|s| <= 100 || i - 50 <= j <= i + 50) ==>
      CostsNoLess(m, start, Relocated(s, i, j), value)
  }

  ghost predicate NoGainfulMove(m: Meter, start: Node, s: seq<Service>) {
    forall i: nat :: i < |s| ==> NoBetterPlace(m, start, s, i, Total(m, start, s).value)
  }

  /** Where there is a choice, no other option for entry `i` pays. */
  ghost predicate FlipRow(m: Meter, start: Node, reqs: map<ReqId, seq<EdgeRef>>, s: seq<Service>, i: nat)
    requires i < |s|
  {
    s[i].rid in reqs && |reqs[s[i].rid]| >= 2 ==>
      forall e :: e in reqs[s[i].rid] ==> NoGain(m, start, s, s[i := Service(s[i].rid, e)])
  }

  /** No option for entry `i` comes below `value`. */
  ghost predicate Cheapest(m: Meter, start: Node, reqs: map<ReqId, seq<EdgeRef>>, s: seq<Service>, i: nat, value: real)
    requires i < |s|
  {
    s[i].rid in reqs && forall e :: e in reqs[s[i].rid] ==>
      CostsNoLess(m, start, s[i := Service(s[i].rid, e)], value)
  }

  ghost predicate NoGainfulFlip(m: Meter, start: Node, reqs: map<ReqId, seq<EdgeRef>>, s: seq<Service>) {
    forall i: nat :: i < |s| ==> FlipRow(m, start, reqs, s, i)
  }

  /** The connection to a possibly missing successor. */
  ghost function Open(m: Meter, ab: (Node, Option<Node>)): Sum {
    if ab.1.None? then ZERO else m.gap(ab.0, ab.1.value)
  }

  /** What is reported about a route; `required` and the ratios derived from these are left out. */
  datatype Stats = Stats(total: real, service: real, deadhead: real, teleports: nat, completed: nat, skipped: nat)

  /** Known nodes only, and the right cached length for each entry. */
  ghost predicate ReadyFacts(nodes: set<Node>, m: Meter, start: Node, reqs: map<ReqId, seq<EdgeRef>>,
                             s: seq<Service>, lengths: seq<real>)
    requires |lengths| == |s|
  {
    && start in nodes
    && (forall i :: 0 <= i < |s| ==> s[i].edge.u in nodes && s[i].edge.v in nodes)
    && (forall r, e :: r in reqs && e in reqs[r] ==> e.u in nodes && e.v in nodes)
    && (forall i :: 0 <= i < |s| ==> lengths[i] == m.len(s[i].edge))
  }

  ghost predicate Ready(nodes: set<Node>, m: Meter, start: Node, reqs: map<ReqId, seq<EdgeRef>>,
                        s: seq<Service>, lengths: seq<real>)
  {
    && |lengths| == |s|
    && forall k {:trigger Recall(Entries, k)} :: Recall(Entries, k) ==> ReadyFacts(nodes, m, start, reqs, s, lengths)
  }

  lemma ReadyAt(nodes: set<Node>, m: Meter, start: Node, reqs: map<ReqId, seq<EdgeRef>>,
                s: seq<Service>, lengths: seq<real>, i: nat)
    requires Ready(nodes, m, start, reqs, s, lengths) && i <= |s|
    ensures EndOf(start, s[..i]) in nodes
    ensures i < |s| ==> s[i].edge.u in nodes && s[i].edge.v in nodes && lengths[i] == m.len(s[i].edge)
  {
    assert Recall(Entries, 0);
  }

  lemma ReadySwap(nodes: set<Node>, m: Meter, start: Node, reqs: map<ReqId, seq<EdgeRef>>,
                  s: seq<Service>, lengths: seq<real>, i: nat, j: nat)
    requires Ready(nodes, m, start, reqs, s, lengths) && i <= j < |s|
    ensures Ready(nodes, m, start, reqs, Swapped(s, i, j), Swapped(lengths, i, j))
  {
    assert Recall(Entries, 0);
    var s', l' := Swapped(s, i, j), Swapped(lengths, i, j);
    forall k | 0 <= k < |s'|
      ensures s'[k].edge.u in nodes && s'[k].edge.v in nodes && l'[k] == m.len(s'[k].edge)
    {
      var o := if i <= k <= j then i + j - k else k;
      assert s'[k] == s[o] && l'[k] == lengths[o];
    }
  }

  lemma ReadyMove(nodes: set<Node>, m: Meter, start: Node, reqs: map<ReqId, seq<EdgeRef>>,
                  s: seq<Service>, lengths: seq<real>, i: nat, j: int)
    requires Ready(nodes, m, start, reqs, s, lengths) && i < |s| && -1 <= j < |s|
    ensures Ready(nodes, m, start, reqs, Relocated(s, i, j), Relocated(lengths, i, j))
  {
    assert Recall(Entries, 0);
    var s', l' := Relocated(s, i, j), Relocated(lengths, i, j);
    forall k | 0 <= k < |s'|
      ensures s'[k].edge.u in nodes && s'[k].edge.v in nodes && l'[k] == m.len(s'[k].edge)
    {
      RelocatedAt(s, i, j, k);
      RelocatedAt(lengths, i, j, k);
    }
  }

  lemma ReadyFlip(nodes: set<Node>, m: Meter, start: Node, reqs: map<ReqId, seq<EdgeRef>>,
                  s: seq<Service>, lengths: seq<real>, i: nat, e: EdgeRef)
    requires Ready(nodes, m, start, reqs, s, lengths) && i < |s| && s[i].rid in reqs && e in reqs[s[i].rid]
    ensures Ready(nodes, m, start, reqs, s[i := Service(s[i].rid, e)], lengths[i := m.len(e)])
  {
    assert Recall(Entries, 0);
  }

  lemma ReadyOption(nodes: set<Node>, m: Meter, start: Node, reqs: map<ReqId, seq<EdgeRef>>,
                    s: seq<Service>, lengths: seq<real>, r: ReqId, e: EdgeRef)
    requires Ready(nodes, m, start, reqs, s, lengths) && r in reqs && e in reqs[r]
    ensures e.u in nodes && e.v in nodes
  {
    assert Recall(Entries, 0);
  }

  class Search {
    const oracle: Oracle
    const start: Node
    const reqs: map<ReqId, seq<EdgeRef>>
    var sequence: seq<Service>
    var lengths: seq<real>

    ghost function M(): Meter { oracle.meter }

    ghost function Nodes(): set<Node> { oracle.world.net.nodes }

    ghost predicate Valid()
      reads this, oracle
    {
      oracle.Valid() && Ready(Nodes(), M(), start, reqs, sequence, lengths)
    }

    ghost function Cost(): Sum
      reads this`sequence
    {
      Total(M(), start, sequence)
    }

    constructor (oracle: Oracle, start: Node, reqs: map<ReqId, seq<EdgeRef>>, sequence: seq<Service>)
      requires oracle.Valid() && start in oracle.world.net.nodes
      requires forall x :: x in sequence ==> x.edge.u in oracle.world.net.nodes && x.edge.v in oracle.world.net.nodes
      requires forall r, e :: r in reqs && e in reqs[r] ==> e.u in oracle.world.net.nodes && e.v in oracle.world.net.nodes
      ensures Valid() && this.oracle == oracle && this.start == start && this.reqs == reqs
      ensures this.sequence == sequence
    {
      oracle.MeterIsRight();
      this.oracle, this.start, this.reqs, this.sequence := oracle, start, reqs, sequence;
      lengths := seq(|sequence|, i requires 0 <= i < |sequence| => oracle.world.net.EdgeLength(sequence[i].edge));
    }

    /** The node at which the entry before position `i` ends. */
    function EndBefore(i: nat): Node
      requires i <= |sequence|
      reads this`sequence
    {
      EndOf(start, sequence[..i])
    }

    /** The start of the entry at position `i`, if there is one. */
    function StartAt(i: nat): Option<Node>
      reads this`sequence
    {
      if i < |sequence| then Some(sequence[i].edge.u) else None
    }

    lemma At(i: nat)
      requires Valid() && i <= |sequence|
      ensures EndBefore(i) in Nodes()
      ensures i < |sequence| ==>
                && sequence[i].edge.u in Nodes() && sequence[i].edge.v in Nodes()
                && lengths[i] == M().len(sequence[i].edge)
    {
      ReadyAt(Nodes(), M(), start, reqs, sequence, lengths, i);
    }

    /** A connection cost; an open end of the route costs nothing. */
    method ConnectionCost(a: Node, b: Option<Node>) returns (d: Option<real>)
      requires Valid() && a in Nodes()
      modifies oracle
      ensures Valid()
      ensures ToSum(d) == if b.None? then ZERO else M().gap(a, b.value)
    {
      if b.None? {
        d := Some(0.0);
      } else {
        d := oracle.Get(a, b.value);
      }
    }

    method SequenceTotalCostFast() returns (cost: Option<real>)
      requires Valid()
      modifies oracle
      ensures Valid()
      ensures cost == if Cost().ok then Some(Cost().value) else None
    {
      var total, current := 0.0, start;
      for i := 0 to |sequence|
        invariant Valid()
        invariant current == EndBefore(i)
        invariant Total(M(), start, sequence[..i]) == Sum(true, total)
      {
        TotalStep(M(), start, sequence, i);
        At(i);
        var dh := ConnectionCost(current, Some(sequence[i].edge.u));
        if dh.None? {
          assert sequence == sequence[..i + 1] + sequence[i + 1..];
          TotalSplit(M(), start, sequence[..i + 1], sequence[i + 1..]);
          return None;
        }
        total := total + dh.value + lengths[i];
        current := sequence[i].edge.v;
      }
      assert sequence[..|sequence|] == sequence;
      cost := Some(total);
    }

    /** The connections inside positions `i..j`, summed forwards. */
    method InnerForward(i: nat, j: nat) returns (d: Option<real>)
      requires Valid() && i <= j < |sequence|
      modifies oracle
      ensures Valid()
      ensures d == if Forward(M(), sequence[i..j + 1]).ok then Some(Forward(M(), sequence[i..j + 1]).value) else None
    {
      var sum := 0.0;
      for k := i to j
        invariant Valid()
        invariant Forward(M(), sequence[i..k + 1]) == Sum(true, sum)
      {
        At(k);
        var x := ConnectionCost(sequence[k].edge.v, Some(sequence[k + 1].edge.u));
        ForwardStep(M(), sequence, i, j, k);
        if x.None? {
          return None;
        }
        sum := sum + x.value;
      }
      d := Some(sum);
    }

    /** The same connections, summed backwards as after a reversal. */
    method InnerBackward(i: nat, j: nat) returns (d: Option<real>)
      requires Valid() && i <= j < |sequence|
      modifies oracle
      ensures Valid()
      ensures d == if Backward(M(), sequence[i..j + 1]).ok then Some(Backward(M(), sequence[i..j + 1]).value) else None
    {
      var sum := 0.0;
      var k := j;
      while k > i
        invariant i <= k <= j
        invariant Valid()
        invariant Backward(M(), sequence[k..j + 1]) == Sum(true, sum)
      {
        At(k);
        var x := ConnectionCost(sequence[k].edge.v, Some(sequence[k - 1].edge.u));
        BackwardStep(M(), sequence, i, j, k);
        if x.None? {
          return None;
        }
        sum := sum + x.value;
        k := k - 1;
      }
      d := Some(sum);
    }

    /** The change in cost from reversing positions `i..j`. */
    method SwapDelta(i: nat, j: nat) returns (delta: Option<real>)
      requires Valid() && i <= j < |sequence|
      modifies oracle
      ensures Valid()
      ensures Exact(M(), start, sequence, Swapped(sequence, i, j), delta)
    {
      SwapBefore(M(), start, sequence, i, j);
      SwapAfter(M(), start, sequence, i, j);
      At(i);
      At(j);
      delta := None;
      var prev := EndBefore(i);
      var oldInto := ConnectionCost(prev, Some(sequence[i].edge.u));
      if oldInto.None? { return; }
      var oldOut := ConnectionCost(sequence[j].edge.v, StartAt(j + 1));
      if oldOut.None? { return; }
      var oldInner := InnerForward(i, j);
      if oldInner.None? { return; }
      var newInto := ConnectionCost(prev, Some(sequence[j].edge.u));
      if newInto.None? { return; }
      var newOut := ConnectionCost(sequence[i].edge.v, StartAt(j + 1));
      if newOut.None? { return; }
      var newInner := InnerBackward(i, j);
      if newInner.None? { return; }
      delta := Some((newInto.value + newInner.value + newOut.value)
                    - (oldInto.value + oldInner.value + oldOut.value));
    }

    /** The sum of three connection costs. */
    method ThreeConnections(x: (Node, Option<Node>), y: (Node, Option<Node>), z: (Node, Option<Node>))
      returns (d: Option<real>)
      requires Valid() && {x.0, y.0, z.0} <= Nodes()
      modifies oracle
      ensures Valid()
      ensures var sum := Open(M(), x).Plus(Open(M(), y)).Plus(Open(M(), z));
              d == if sum.ok then Some(sum.value) else None
    {
      var a := ConnectionCost(x.0, x.1);
      if a.None? { return None; }
      var b := ConnectionCost(y.0, y.1);
      if b.None? { return None; }
      var c := ConnectionCost(z.0, z.1);
      if c.None? { return None; }
      d := Some(a.value + b.value + c.value);
    }

    /** The change in cost from taking out item `i` and inserting it after item `j`. */
    method RelocateDelta(i: int, j: int) returns (delta: Option<real>)
      requires Valid()
      modifies oracle
      ensures Valid()
      ensures !(0 <= i < |sequence| && -1 <= j < |sequence|) || j == i || j == i - 1 ==> delta.None?
      ensures 0 <= i < |sequence| && -1 <= j < |sequence| && j != i && j != i - 1 ==>
                Exact(M(), start, sequence, Relocated(sequence, i, j), delta)
    {
      delta := None;
      if !(0 <= i < |sequence| && -1 <= j < |sequence|) || j == i || j == i - 1 {
        return;
      }
      ghost var rest := RelocateCosts(M(), start, sequence, i, j);
      At(i);
      At(j + 1);
      var item := sequence[i].edge;
      var before := ThreeConnections((EndBefore(i), Some(item.u)), (item.v, StartAt(i + 1)),
                                     (EndBefore(j + 1), StartAt(j + 1)));
      if before.None? { return; }
      var after := ThreeConnections((EndBefore(i), StartAt(i + 1)), (EndBefore(j + 1), Some(item.u)),
                                    (item.v, StartAt(j + 1)));
      if after.None? { return; }
      delta := Some(after.value - before.value);
    }

    method ApplySwap(i: nat, j: nat)
      requires Valid() && i <= j < |sequence|
      modifies this`sequence, this`lengths
      ensures Valid() && sequence == Swapped(old(sequence), i, j)
    {
      ReadySwap(Nodes(), M(), start, reqs, sequence, lengths, i, j);
      sequence, lengths := Swapped(sequence, i, j), Swapped(lengths, i, j);
    }

    method ApplyRelocation(i: nat, j: int)
      requires Valid() && i < |sequence| && -1 <= j < |sequence|
      modifies this`sequence, this`lengths
      ensures Valid() && sequence == Relocated(old(sequence), i, j)
    {
      ReadyMove(Nodes(), M(), start, reqs, sequence, lengths, i, j);
      sequence, lengths := Relocated(sequence, i, j), Relocated(lengths, i, j);
    }

    /** Tries every reversal that starts at `i`, taking each that pays. */
    method TwoOptRow(i: nat) returns (improvements: nat)
      requires Valid() && Cost().ok && i < |sequence|
      modifies this`sequence, this`lengths, oracle
      ensures Valid() && Improved(M(), start, reqs, old(sequence), sequence, improvements)
      ensures improvements == 0 ==> NoGainfulSwapAt(M(), start, sequence, i)
    {
      improvements := 0;
      var maxJ := if |sequence| > 100 then Min(|sequence|, i + 50) else |sequence|;
      var j := i + 2;
      while j < maxJ
        invariant Valid() && |sequence| == |old(sequence)|
        invariant Improved(M(), start, reqs, old(sequence), sequence, improvements)
        invariant improvements == 0 ==> SwapRow(M(), start, sequence, i, j)
      {
        var delta := SwapDelta(i, j);
        if delta.Some? && delta.value < -MIN_GAIN {
          ghost var before := sequence;
          ApplySwap(i, j);
          SwapImproves(M(), start, reqs, old(sequence), before, i, j, delta, improvements);
          improvements := improvements + 1;
        }
        j := j + 1;
      }
    }

    /** One pass of accepted reversals. */
    method TwoOptPass() returns (improvements: nat, ghost finished: bool)
      requires Valid() && Cost().ok
      modifies this`sequence, this`lengths, oracle
      ensures Valid() && Improved(M(), start, reqs, old(sequence), sequence, improvements)
      ensures finished && improvements == 0 ==> NoGainfulSwap(M(), start, sequence)
    {
      improvements, finished := 0, true;
      var i := 0;
      while i < |sequence| - 1
        invariant 0 <= i && Valid() && |sequence| == |old(sequence)|
        invariant Improved(M(), start, reqs, old(sequence), sequence, improvements)
        invariant improvements == 0 ==>
                    forall a: nat :: a < i && a < |sequence| ==> NoGainfulSwapAt(M(), start, sequence, a)
      {
        if * {  // the deadline has passed
          finished := false;
          break;
        }
        ghost var before := sequence;
        var more := TwoOptRow(i);
        ImprovedTransitive(M(), start, reqs, old(sequence), before, sequence, improvements, more);
        improvements := improvements + more;
        i := i + 1;
      }
    }

    /** Moves item `i` to the best place in its window, if any place pays. */
    method RelocateRow(i: nat) returns (moved: bool)
      requires Valid() && Cost().ok && i < |sequence|
      modifies this`sequence, this`lengths, oracle
      ensures Valid() && Improved(M(), start, reqs, old(sequence), sequence, if moved then 1 else 0)
      ensures |sequence| == |old(sequence)| && NoBetterPlace(M(), start, old(sequence), i, Cost().value)
    {
      var best, bestDelta := BestPlace(i);
      moved := best.Some?;
      if moved {
        ghost var before := sequence;
        ApplyRelocation(i, best.value);
        RelocationImproves(M(), start, reqs, before, i, best.value, bestDelta);
      }
    }

    /** A place for item `i` that saves most, if any saves enough, and what it saves. */
    method BestPlace(i: nat) returns (best: Option<int>, bestDelta: real)
      requires Valid() && Cost().ok && i < |sequence|
      modifies oracle
      ensures Valid() && Placed(M(), start, sequence, i, best, bestDelta)
      ensures NoBetterPlace(M(), start, sequence, i, Cost().value + bestDelta)
    {
      var n := |sequence|;
      var lo, hi := if n > 100 then Max(-1, i - 50) else -1, if n > 100 then Min(n - 1, i + 50) + 1 else n;
      best, bestDelta := None, 0.0;
      PlacingStart(M(), start, sequence, i, lo);
      for j := lo to hi
        invariant Valid() && Placing(M(), start, sequence, i, lo, j, best, bestDelta)
      {
        var delta := RelocateDelta(i, j);
        PlacingStep(M(), start, sequence, i, lo, j, best, bestDelta, delta);
        if delta.Some? && delta.value < bestDelta - MIN_GAIN {
          best, bestDelta := Some(j), delta.value;
        }
      }
      PlacingEnd(M(), start, sequence, i, lo, hi, best, bestDelta);
    }

    /** One pass of accepted relocations. */
    method RelocationPass() returns (improvements: nat, ghost finished: bool)
      requires Valid() && Cost().ok
      modifies this`sequence, this`lengths, oracle
      ensures Valid() && Improved(M(), start, reqs, old(sequence), sequence, improvements)
      ensures finished && improvements == 0 ==> NoGainfulMove(M(), start, sequence)
    {
      improvements, finished := 0, true;
      var i := 0;
      while i < |sequence|
        invariant 0 <= i && Valid() && |sequence| == |old(sequence)|
        invariant Improved(M(), start, reqs, old(sequence), sequence, improvements)
        invariant improvements == 0 ==>
                    forall a: nat :: a < i && a < |sequence| ==>
                      NoBetterPlace(M(), start, sequence, a, Total(M(), start, sequence).value)
      {
        if * {  // the deadline has passed
          finished := false;
          break;
        }
        ghost var before := sequence;
        var moved := RelocateRow(i);
        ImprovedTransitive(M(), start, reqs, old(sequence), before, sequence, improvements, if moved then 1 else 0);
        improvements := improvements + if moved then 1 else 0;
        i := i + 1;
      }
    }

    /** The cost of serving entry `i` by the edge `e`, with the connections on both sides. */
    method CostAround(i: nat, e: EdgeRef) returns (d: Option<real>)
      requires Valid() && i < |sequence| && e.u in Nodes() && e.v in Nodes()
      modifies oracle
      ensures Valid()
      ensures d == if Around(M(), start, sequence, i, e).ok then Some(Around(M(), start, sequence, i, e).value) else None
    {
      At(i);
      var into := ConnectionCost(EndBefore(i), Some(e.u));
      var out := ConnectionCost(e.v, StartAt(i + 1));
      if into.None? || out.None? {
        return None;
      }
      oracle.MeterIsRight();
      d := Some(into.value + oracle.world.net.EdgeLength(e) + out.value);
    }

    /** Serves entry `i` by its cheapest option, if that pays. */
    method OrientRow(i: nat) returns (flipped: bool)
      requires Valid() && Cost().ok && i < |sequence|
      modifies this`sequence, this`lengths, oracle
      ensures Valid() && Improved(M(), start, reqs, old(sequence), sequence, if flipped then 1 else 0)
      ensures !flipped ==> FlipRow(M(), start, reqs, sequence, i)
      ensures flipped ==> |sequence| == |old(sequence)| && Cheapest(M(), start, reqs, old(sequence), i, Cost().value)
    {
      flipped := false;
      var x := sequence[i];
      if x.rid !in reqs || |reqs[x.rid]| < 2 {
        return;
      }
      var options := reqs[x.rid];
      var bestEdge, bestCost: Option<real> := x.edge, None;
      for k := 0 to |options|
        invariant Valid() && sequence == old(sequence)
        invariant bestCost.Some? ==>
                    bestEdge in options && Around(M(), start, sequence, i, bestEdge) == Sum(true, bestCost.value)
        invariant forall j :: 0 <= j < k && Around(M(), start, sequence, i, options[j]).ok ==>
                    bestCost.Some? && bestCost.value <= Around(M(), start, sequence, i, options[j]).value
      {
        ReadyOption(Nodes(), M(), start, reqs, sequence, lengths, x.rid, options[k]);
        var cost := CostAround(i, options[k]);
        if cost.Some? && (bestCost.None? || cost.value < bestCost.value) {
          bestEdge, bestCost := options[k], cost;
        }
      }
      ReplaceOptions(M(), start, reqs, sequence, i);
      if bestEdge == x.edge || bestCost.None? {
        return;
      }
      At(i);
      var currentCost := CostAround(i, x.edge);
      if currentCost.None? {
        return;
      }
      if bestCost.value < currentCost.value - MIN_GAIN {
        ReadyFlip(Nodes(), M(), start, reqs, sequence, lengths, i, bestEdge);
        ReplacedKeepsRequirements(sequence, i, bestEdge);
        oracle.MeterIsRight();
        sequence := sequence[i := Service(x.rid, bestEdge)];
        lengths := lengths[i := oracle.world.net.EdgeLength(bestEdge)];
        flipped := true;
      }
    }

    /** One pass of accepted flips. */
    method OrientationPass() returns (improvements: nat, ghost finished: bool)
      requires Valid() && Cost().ok
      modifies this`sequence, this`lengths, oracle
      ensures Valid() && Improved(M(), start, reqs, old(sequence), sequence, improvements)
      ensures finished && improvements == 0 ==> NoGainfulFlip(M(), start, reqs, sequence)
    {
      improvements, finished := 0, true;
      var i := 0;
      while i < |sequence|
        invariant 0 <= i && Valid() && |sequence| == |old(sequence)|
        invariant Improved(M(), start, reqs, old(sequence), sequence, improvements)
        invariant improvements == 0 ==>
                    forall a: nat :: a < i && a < |sequence| ==> FlipRow(M(), start, reqs, sequence, a)
      {
        if * {  // the deadline has passed
          finished := false;
          break;
        }
        ghost var before := sequence;
        var flipped := OrientRow(i);
        ImprovedTransitive(M(), start, reqs, old(sequence), before, sequence, improvements, if flipped then 1 else 0);
        improvements := improvements + if flipped then 1 else 0;
        i := i + 1;
      }
    }

    lemma JumpsStep(i: nat)
      requires i < |sequence|
      ensures var n := oracle.world.net;
              |JumpsOf(n, start, sequence, i + 1)| ==
              |JumpsOf(n, start, sequence, i)| + if n.Reachable(EndBefore(i), sequence[i].edge.u) then 0 else 1
    {
      var n := oracle.world.net;
      if n.Reachable(EndBefore(i), sequence[i].edge.u) {
        assert JumpsOf(n, start, sequence, i + 1) == JumpsOf(n, start, sequence, i);
      } else {
        assert JumpsOf(n, start, sequence, i + 1) == JumpsOf(n, start, sequence, i) + {i};
      }
    }

    /** The real network distance, which is also what the search pays where there is a path. */
    method NetworkConnection(a: Node, b: Node) returns (d: Option<real>)
      requires Valid() && a in Nodes()
      modifies oracle
      ensures Valid()
      ensures d.None? <==> !oracle.world.net.Reachable(a, b)
      ensures d == oracle.world.net.Distance(a, b)
      ensures d.Some? ==> M().gap(a, b) == Sum(true, d.value)
      ensures 0.0 <= M().gap(a, b).value
    {
      oracle.MeterIsRight();
      assert Recall(Memo, 0) && Asked(a, b);
      d := oracle.GetNetworkDistance(a, b);
      if a == b {
        Dijkstra.SourceIsShortest(oracle.world.net, a);
        ShortestIsDistance(oracle.world.net, a, a, 0.0);
      }
    }

    /** Adds up real network distances only; jumps are counted, and their search penalty dropped. */
    method BuildStats() returns (stats: Stats, ghost penalty: real)
      requires Valid()
      modifies oracle
      ensures Valid()
      ensures stats.total == stats.service + stats.deadhead && 0.0 <= penalty
      ensures stats.service == Lengths(M(), sequence).value
      ensures stats.deadhead == NetworkGaps(oracle.world.net, start, sequence)
      ensures Cost().value == stats.total + penalty
      ensures stats.teleports == |JumpsOf(oracle.world.net, start, sequence, |sequence|)|
      ensures stats.teleports == 0 ==> Cost() == Sum(true, stats.total)
      ensures stats.completed == |sequence|
      ensures stats.completed + stats.skipped == if |reqs| < |sequence| then |sequence| else |reqs|
    {
      var service, deadhead, teleports, current := 0.0, 0.0, 0, start;
      penalty := 0.0;
      for i := 0 to |sequence|
        invariant Valid()
        invariant current == EndBefore(i) && teleports == |JumpsOf(oracle.world.net, start, sequence, i)| && 0.0 <= penalty
        invariant Total(M(), start, sequence[..i]).value == service + deadhead + penalty
        invariant service == Lengths(M(), sequence[..i]).value
        invariant deadhead == NetworkGaps(oracle.world.net, start, sequence[..i])
        invariant teleports == 0 ==> penalty == 0.0 && Total(M(), start, sequence[..i]).ok
      {
        var e := sequence[i].edge;
        TotalStep(M(), start, sequence, i);
        LengthsStep(M(), sequence, i);
        assert sequence[..i + 1][..i] == sequence[..i];
        At(i);
        JumpsStep(i);
        oracle.MeterIsRight();
        var dh := NetworkConnection(current, e.u);
        if dh.Some? {
          deadhead := deadhead + dh.value;
        } else {
          teleports := teleports + 1;
          penalty := penalty + M().gap(current, e.u).value;
        }
        service := service + oracle.world.net.EdgeLength(e);
        current := e.v;
      }
      assert sequence[..|sequence|] == sequence;
      stats := Stats(service + deadhead, service, deadhead, teleports, |sequence|, Max(0, |reqs| - |sequence|));
    }

    /** One round of the three passes. */
    method Round() returns (improvements: nat, ghost finished: bool)
      requires Valid() && Cost().ok
      modifies this`sequence, this`lengths, oracle
      ensures Valid() && Improved(M(), start, reqs, old(sequence), sequence, improvements)
      ensures finished && improvements == 0 ==>
                && NoGainfulFlip(M(), start, reqs, sequence)
                && NoGainfulSwap(M(), start, sequence)
                && NoGainfulMove(M(), start, sequence)
    {
      ghost var s0 := sequence;
      var flips, done0 := OrientationPass();
      ghost var s1 := sequence;
      var swaps, done1 := TwoOptPass();
      ghost var s2 := sequence;
      var moves, done2 := RelocationPass();
      ImprovedTransitive(M(), start, reqs, s0, s1, s2, flips, swaps);
      ImprovedTransitive(M(), start, reqs, s0, s2, sequence, flips + swaps, moves);
      improvements, finished := flips + swaps + moves, done0 && done1 && done2;
    }

    /**
     The whole search. With no defined starting cost nothing is changed; otherwise passes run
     until one finds nothing, or until the time is up, and the loop ends in either case.
     */
    method Improve() returns (improvements: nat, ghost finished: bool)
      requires Valid()
      modifies this`sequence, this`lengths, oracle
      ensures Valid()
      ensures !old(Cost()).ok ==> sequence == old(sequence)
      ensures old(Cost()).ok ==> Improved(M(), start, reqs, old(sequence), sequence, improvements)
      ensures old(Cost()).ok && finished ==>
                && NoGainfulFlip(M(), start, reqs, sequence)
                && NoGainfulSwap(M(), start, sequence)
                && NoGainfulMove(M(), start, sequence)
    {
      improvements, finished := 0, false;
      if sequence == [] {
        return 0, true;
      }
      var cost := SequenceTotalCostFast();
      if cost.None? {
        return;
      }
      while true
        invariant Valid()
        invariant Improved(M(), start, reqs, old(sequence), sequence, improvements)
        decreases Budget(Cost().value)
      {
        if * {  // the deadline has passed
          break;
        }
        ghost var before := sequence;
        oracle.MeterIsRight();
        TotalNonNegative(M(), start, before);
        var more, done := Round();
        ImprovedTransitive(M(), start, reqs, old(sequence), before, sequence, improvements, more);
        improvements := improvements + more;
        if more == 0 {
          finished := done;
          break;
        }
        TotalNonNegative(M(), start, sequence);
        BudgetFalls(Total(M(), start, before).value, Cost().value);
      }
    }
  }

  /** The network distances between entries, over those that a path leads to. */
  ghost function NetworkGaps(n: Net, start: Node, s: seq<Service>): real {
    if s == [] then 0.0
    else
      var front, x := s[..|s| - 1], s[|s| - 1];
      NetworkGaps(n, start, front)
      + if n.Distance(EndOf(start, front), x.edge.u).Some? then n.Distance(EndOf(start, front), x.edge.u).value else 0.0
  }

  /** The entries among the first `k` that no path leads to. */
  ghost function JumpsOf(n: Net, start: Node, s: seq<Service>, k: nat): set<int>
    requires k <= |s|
  {
    set i | 0 <= i < k && !n.Reachable(EndOf(start, s[..i]), s[i].edge.u)
  }

  /** No flip, reversal or relocation that the search tries pays. */
  ghost predicate LocallyBest(m: Meter, start: Node, reqs: map<ReqId, seq<EdgeRef>>, s: seq<Service>) {
    NoGainfulFlip(m, start, reqs, s) && NoGainfulSwap(m, start, s) && NoGainfulMove(m, start, s)
  }

  /** Improves a service sequence; the route starts at the given node or at the first edge. */
  method ImproveRoute(world: World, services: seq<Service>, reqs: map<ReqId, seq<EdgeRef>>, startNode: Option<Node>)
    returns (improved: seq<Service>, stats: Stats, improvements: nat, ghost finished: bool, ghost meter: Meter, ghost start: Node)
    requires world.Valid()
    requires forall x :: x in services ==> x.edge in world.net.edges
    requires forall r, e :: r in reqs && e in reqs[r] ==> e in world.net.edges
    requires startNode.Some? ==> startNode.value in world.net.nodes
    ensures Measures(meter, world)
    ensures start == if startNode.Some? then startNode.value else if services != [] then services[0].edge.u else 0
    ensures SameRequirements(services, improved)
    ensures ServedByOptions(reqs, services) ==> ServedByOptions(reqs, improved)
    ensures Total(meter, start, services).ok ==> Improved(meter, start, reqs, services, improved, improvements)
    ensures Total(meter, start, services).ok && finished ==> LocallyBest(meter, start, reqs, improved)
    ensures !Total(meter, start, services).ok ==> improved == services
    ensures stats.service == Lengths(meter, improved).value && stats.total <= Total(meter, start, improved).value
    ensures stats.total == stats.service + stats.deadhead && stats.deadhead == NetworkGaps(world.net, start, improved)
    ensures stats.teleports == |JumpsOf(world.net, start, improved, |improved|)|
    ensures stats.completed == |improved|
    ensures stats.completed + stats.skipped == if |reqs| < |improved| then |improved| else |reqs|
  {
    var oracle := new Oracle(world);
    oracle.MeasuresWorld();
    if services == [] {
      return [], Stats(0.0, 0.0, 0.0, 0, 0, |reqs|), 0, true, oracle.meter, if startNode.Some? then startNode.value else 0;
    }
    var first := if startNode.Some? then startNode.value else services[0].edge.u;
    var search := new Search(oracle, first, reqs, services);
    meter, start := oracle.meter, first;
    improvements, finished := search.Improve();
    ghost var penalty;
    stats, penalty := search.BuildStats();
    improved := search.sequence;
  }

  lemma {:induction false} LengthsStep(w: Meter, s: seq<Service>, i: nat)
    requires i < |s|
    ensures Lengths(w, s[..i + 1]).value == Lengths(w, s[..i]).value + w.len(s[i].edge)
  {
    if i > 0 {
      var rest := s[1..];
      assert s[..i + 1][1..] == rest[..i] && s[..i][1..] == rest[..i - 1] && rest[i - 1] == s[i];
      LengthsStep(w, rest, i - 1);
    }
  }

  /** How many improvements of the least accepted size a cost leaves room for. */
  ghost function Budget(cost: real): int {
    (cost * 1000000.0).Floor
  }

  lemma BudgetFalls(before: real, after: real)
    requires 0.0 <= after && after + 0.000001 < before
    ensures 0 <= Budget(after) < Budget(before)
  {
    assert after * 1000000.0 + 1.0 < before * 1000000.0;
  }

  lemma SwapImproves(m: Meter, start: Node, reqs: map<ReqId, seq<EdgeRef>>, s0: seq<Service>, s: seq<Service>,
                     i: nat, j: nat, delta: Option<real>, k: nat)
    requires i <= j < |s| && Improved(m, start, reqs, s0, s, k)
    requires Exact(m, start, s, Swapped(s, i, j), delta) && delta.Some? && delta.value < -MIN_GAIN
    ensures Improved(m, start, reqs, s0, Swapped(s, i, j), k + 1)
  {
    var s' := Swapped(s, i, j);
    SwappedKeepsRequirements(s, i, j);
    forall x | x in s'
      ensures x in s
    {
      var a :| 0 <= a < |s'| && s'[a] == x;
      assert s'[a] == s[if i <= a <= j then i + j - a else a];
    }
    ImprovedTransitive(m, start, reqs, s0, s, s', k, 1);
  }

  lemma RelocationImproves(m: Meter, start: Node, reqs: map<ReqId, seq<EdgeRef>>, s: seq<Service>,
                           i: nat, j: int, delta: real)
    requires i < |s| && -1 <= j < |s| && Total(m, start, s).ok
    requires Exact(m, start, s, Relocated(s, i, j), Some(delta)) && delta < -MIN_GAIN
    ensures Improved(m, start, reqs, s, Relocated(s, i, j), 1)
  {
    var s' := Relocated(s, i, j);
    RelocatedKeepsRequirements(s, i, j);
    forall x | x in s'
      ensures x in s
    {
      var k :| 0 <= k < |s'| && s'[k] == x;
      RelocatedAt(s, i, j, k);
    }
  }

  /** Serving entry `i` by `e` instead changes the cost by what the surroundings change. */
  lemma ReplaceOptions(m: Meter, start: Node, reqs: map<ReqId, seq<EdgeRef>>, s: seq<Service>, i: nat)
    requires i < |s|
    ensures forall e :: var s' := s[i := Service(s[i].rid, e)];
              && (Total(m, start, s).ok ==> Around(m, start, s, i, s[i].edge).ok
                                            && (Around(m, start, s, i, e).ok <==> Total(m, start, s').ok))
              && Total(m, start, s').value - Total(m, start, s).value ==
                 Around(m, start, s, i, e).value - Around(m, start, s, i, s[i].edge).value
  {
    assert s == s[i := s[i]];
    ReplaceCosts(m, start, s, i, s[i]);
    forall e
      ensures var s' := s[i := Service(s[i].rid, e)];
              && (Total(m, start, s).ok ==> Around(m, start, s, i, s[i].edge).ok
                                            && (Around(m, start, s, i, e).ok <==> Total(m, start, s').ok))
              && Total(m, start, s').value - Total(m, start, s).value ==
                 Around(m, start, s, i, e).value - Around(m, start, s, i, s[i].edge).value
    {
      ReplaceCosts(m, start, s, i, Service(s[i].rid, e));
    }
  }

  lemma ForwardStep(m: Meter, s: seq<Service>, i: nat, j: nat, k: nat)
    requires i <= k < j < |s|
    ensures Forward(m, s[i..k + 2]) == Forward(m, s[i..k + 1]).Plus(m.gap(s[k].edge.v, s[k + 1].edge.u))
    ensures Forward(m, s[i..j + 1]).ok ==> Forward(m, s[i..k + 2]).ok
  {
    assert s[i..k + 2] == s[i..k + 1] + [s[k + 1]];
    ForwardAppend(m, s[i..k + 1], s[k + 1]);
    assert s[i..j + 1][..k + 2 - i] == s[i..k + 2];
    ForwardPrefix(m, s[i..j + 1], k + 2 - i);
  }

  lemma BackwardStep(m: Meter, s: seq<Service>, i: nat, j: nat, k: nat)
    requires i < k <= j < |s|
    ensures Backward(m, s[k - 1..j + 1]) == m.gap(s[k].edge.v, s[k - 1].edge.u).Plus(Backward(m, s[k..j + 1]))
    ensures Backward(m, s[i..j + 1]).ok ==> Backward(m, s[k - 1..j + 1]).ok
  {
    assert s[k - 1..j + 1][1..] == s[k..j + 1];
    assert s[i..j + 1][k - 1 - i..] == s[k - 1..j + 1];
    BackwardSuffix(m, s[i..j + 1], k - 1 - i);
  }

  lemma {:induction false} ForwardPrefix(m: Meter, s: seq<Service>, k: nat)
    requires k <= |s|
    ensures Forward(m, s).ok ==> Forward(m, s[..k]).ok
  {
    if |s[..k]| > 1 {
      assert s[..k][1..] == s[1..][..k - 1];
      ForwardPrefix(m, s[1..], k - 1);
    }
  }

  lemma BackwardTail(m: Meter, s: seq<Service>)
    requires s != []
    ensures Backward(m, s).ok ==> Backward(m, s[1..]).ok
  {
    if |s| == 1 {
      assert s[1..] == [];
    }
  }

  lemma {:induction false} BackwardSuffix(m: Meter, s: seq<Service>, k: nat)
    requires k <= |s|
    ensures Backward(m, s).ok ==> Backward(m, s[k..]).ok
  {
    if k == 0 {
      assert s[k..] == s;
    } else {
      BackwardTail(m, s);
      BackwardSuffix(m, s[1..], k - 1);
      assert s[k..] == s[1..][k - 1..];
    }
  }
}
