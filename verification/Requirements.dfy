/**
 The requirements of a routing problem and the indices the greedy solver builds over them:
 start nodes, start counts, the owner of each edge, and the grouping by road component.
 */
module Requirements {
  import opened Optional
  import opened Network
  import opened Sorting

  /** All options of a requirement join the same two nodes, in one direction or the other. */
  ghost predicate OneStreet(options: seq<EdgeRef>) {
    && options != []
    && forall i :: 0 <= i < |options| ==> SameStreet(options[0], options[i])
  }

  predicate SameStreet(a: EdgeRef, b: EdgeRef) {
    (a.u == b.u && a.v == b.v) || (a.u == b.v && a.v == b.u)
  }

  /** `order` lists the requirements as the dictionary of options was filled. */
  datatype Problem = Problem(
    net: Net,
    order: seq<ReqId>,
    options: map<ReqId, seq<EdgeRef>>,
    segments: Option<map<ReqId, int>>)
  {
    ghost predicate Valid() {
      && net.Valid()
      && Listed()
      && (forall r :: r in options ==> OneStreet(options[r]))
      && (forall r, e :: r in options && e in options[r] ==> e in net.edges)
    }

    /** The order lists every requirement once. */
    ghost predicate Listed() {
      Distinct(order) && forall r :: r in order <==> r in options
    }

    function Starts(r: ReqId): set<Node>
      requires r in options
    {
      set e | e in options[r] :: e.u
    }

    ghost function AllStarts(): set<Node> {
      StartsOf(options.Keys)
    }

    /** The road component of a requirement. */
    ghost function Comp(r: ReqId): int {
      if r in options && options[r] != [] then CompOf(net, options[r][0].u) else -1
    }

    /** The number of street segments behind a requirement. */
    function Segments(r: ReqId): int {
      if segments.Some? && r in segments.value then segments.value[r] else 1
    }

    /** No edge is an option of two requirements. */
    ghost predicate Disjoint() {
      forall r, r', e :: r in options && r' in options && e in options[r] && e in options[r'] ==> r == r'
    }

    // Recomputations from a set `todo` of open requirements.

    ghost function At(todo: set<ReqId>, s: Node): set<ReqId> {
      set r | r in todo && r in options && s in Starts(r)
    }

    ghost function In(todo: set<ReqId>, c: int): set<ReqId> {
      set r | r in todo && r in options && Comp(r) == c
    }

    ghost function StartsOf(todo: set<ReqId>): set<Node> {
      set r, e | r in todo && r in options && e in options[r] :: e.u
    }

    ghost function SegmentSum(todo: set<ReqId>): int {
      SumOver(this, order, todo)
    }
  }

  lemma ListedCount(p: Problem)
    requires p.Listed()
    ensures |p.options.Keys| == |p.order|
  {
    DistinctCount(p.order);
    assert Elements(p.order) == p.options.Keys;
  }

  ghost function SumOver(p: Problem, order: seq<ReqId>, todo: set<ReqId>): int {
    if order == [] then 0
    else SumOver(p, order[1..], todo) + if order[0] in todo then p.Segments(order[0]) else 0
  }

  lemma {:induction false} SumOverAbsent(p: Problem, order: seq<ReqId>, todo: set<ReqId>, r: ReqId)
    requires r !in order
    ensures SumOver(p, order, todo - {r}) == SumOver(p, order, todo)
  {
    if order != [] {
      SumOverAbsent(p, order[1..], todo, r);
    }
  }

  lemma {:induction false} SumOverRemove(p: Problem, order: seq<ReqId>, todo: set<ReqId>, r: ReqId)
    requires r in order && r in todo && Distinct(order)
    ensures SumOver(p, order, todo - {r}) == SumOver(p, order, todo) - p.Segments(r)
  {
    if order[0] == r {
      SumOverAbsent(p, order[1..], todo, r);
    } else {
      SumOverRemove(p, order[1..], todo, r);
    }
  }

  lemma {:induction false} SumOverEmpty(p: Problem, order: seq<ReqId>)
    ensures SumOver(p, order, {}) == 0
  {
    if order != [] {
      SumOverEmpty(p, order[1..]);
    }
  }

  /** The position of the component that holds `v`, or -1. */
  ghost function CompOf(n: Net, v: Node): int {
    if i :| 0 <= i < |n.components| && v in n.components[i] then i else -1
  }

  lemma CompOfIs(n: Net, v: Node, i: int)
    requires n.ComponentsValid() && 0 <= i < |n.components| && v in n.components[i]
    ensures CompOf(n, v) == i
  {
  }

  lemma EdgeStaysInComp(n: Net, e: EdgeRef)
    requires n.Valid() && e in n.edges
    ensures CompOf(n, e.u) == CompOf(n, e.v)
  {
    var i :| 0 <= i < |n.components| && e.u in n.components[i];
    CompOfIs(n, e.u, i);
    CompOfIs(n, e.v, i);
  }

  /** Every start of a requirement lies in the requirement's component. */
  lemma StartComp(p: Problem, r: ReqId, s: Node)
    requires p.Valid() && r in p.options && s in p.Starts(r)
    ensures CompOf(p.net, s) == p.Comp(r)
  {
    var e :| e in p.options[r] && e.u == s;
    var o := p.options[r][0];
    assert o in p.options[r] && SameStreet(o, e);
    EdgeStaysInComp(p.net, e);
    EdgeStaysInComp(p.net, o);
  }

  // ----- Building the indices ---------------------------------------------------------------

  /** The requirements among the first `i` in order. */
  ghost function Seen(p: Problem, i: nat): set<ReqId>
    requires i <= |p.order|
  {
    set r | r in p.order[..i]
  }

  lemma SeenStep(p: Problem, i: nat)
    requires p.Listed() && i < |p.order|
    ensures p.order[i] in p.options && p.order[i] !in Seen(p, i)
    ensures Seen(p, i + 1) == Seen(p, i) + {p.order[i]}
  {
    assert p.order[i] in p.order;
    assert p.order[..i + 1] == p.order[..i] + [p.order[i]];
  }

  lemma SeenAll(p: Problem)
    requires p.Listed()
    ensures Seen(p, |p.order|) == p.options.Keys
  {
    assert p.order[..|p.order|] == p.order;
  }

  /** Looks up a set, or a number, as Python's `get` with an empty default does. */
  function SetAt<K, T>(m: map<K, set<T>>, k: K): set<T> {
    if k in m then m[k] else {}
  }

  function CountAt<K>(m: map<K, int>, k: K): int {
    if k in m then m[k] else 0
  }

  /** Indexes the open requirements by start node. */
  ghost predicate StartIndex(p: Problem, todo: set<ReqId>, counts: map<Node, int>, rids: map<Node, set<ReqId>>) {
    && counts.Keys == p.StartsOf(todo)
    && (forall s :: SetAt(rids, s) == p.At(todo, s))
    && (forall s :: CountAt(counts, s) == |p.At(todo, s)|)
  }

  method BuildRequirementIndices(p: Problem)
    returns (reqToStarts: map<ReqId, set<Node>>, startCounts: map<Node, int>, startToRids: map<Node, set<ReqId>>)
    requires p.Listed()
    ensures reqToStarts.Keys == p.options.Keys && forall r :: r in reqToStarts ==> reqToStarts[r] == p.Starts(r)
    ensures StartIndex(p, p.options.Keys, startCounts, startToRids)
  {
    reqToStarts := map r | r in p.options :: p.Starts(r);
    startCounts, startToRids := map[], map[];
    NothingSeen(p);
    for i := 0 to |p.order|
      invariant StartIndex(p, Seen(p, i), startCounts, startToRids)
    {
      SeenStep(p, i);
      var r := p.order[i];
      var counts, rids := AddStarts(p.Starts(r), r, startCounts, startToRids);
      StartIndexAdd(p, Seen(p, i), r, startCounts, startToRids, counts, rids);
      startCounts, startToRids := counts, rids;
    }
    SeenAll(p);
  }

  /** `r` has been counted at the nodes `at`, and nothing else was changed. */
  ghost predicate CountedAt(r: ReqId, at: set<Node>, counts0: map<Node, int>, rids0: map<Node, set<ReqId>>,
                            counts: map<Node, int>, rids: map<Node, set<ReqId>>)
  {
    CountsAt(at, counts0, counts) && RidsAt(r, at, rids0, rids)
  }

  ghost predicate CountsAt(at: set<Node>, counts0: map<Node, int>, counts: map<Node, int>) {
    && counts.Keys == counts0.Keys + at
    && (forall s :: CountAt(counts, s) == CountAt(counts0, s) + if s in at then 1 else 0)
  }

  ghost predicate RidsAt(r: ReqId, at: set<Node>, rids0: map<Node, set<ReqId>>, rids: map<Node, set<ReqId>>) {
    forall s :: SetAt(rids, s) == SetAt(rids0, s) + if s in at then {r} else {}
  }

  lemma CountStart(at: set<Node>, s: Node, counts0: map<Node, int>, counts: map<Node, int>)
    requires CountsAt(at, counts0, counts) && s !in at
    ensures CountsAt(at + {s}, counts0, counts[s := CountAt(counts, s) + 1])
  {
    assert CountAt(counts, s) == CountAt(counts0, s);
  }

  lemma EnterStart(r: ReqId, at: set<Node>, s: Node, rids0: map<Node, set<ReqId>>, rids: map<Node, set<ReqId>>)
    requires RidsAt(r, at, rids0, rids) && s !in at
    ensures RidsAt(r, at + {s}, rids0, rids[s := SetAt(rids, s) + {r}])
  {
    var rids' := rids[s := SetAt(rids, s) + {r}];
    forall v
      ensures SetAt(rids', v) == SetAt(rids0, v) + if v in at + {s} then {r} else {}
    {
      assert SetAt(rids, v) == SetAt(rids0, v) + if v in at then {r} else {};
    }
  }

  /** Counts `r` at each of its starts. */
  method AddStarts(starts: set<Node>, r: ReqId, counts0: map<Node, int>, rids0: map<Node, set<ReqId>>)
    returns (counts: map<Node, int>, rids: map<Node, set<ReqId>>)
    ensures CountedAt(r, starts, counts0, rids0, counts, rids)
  {
    counts, rids := counts0, rids0;
    var left := starts;
    assert starts - left == {};
    while left != {}
      invariant left <= starts && CountedAt(r, starts - left, counts0, rids0, counts, rids)
      decreases left
    {
      var s := Pick(left);
      CountStart(starts - left, s, counts0, counts);
      EnterStart(r, starts - left, s, rids0, rids);
      assert starts - (left - {s}) == starts - left + {s};
      left := left - {s};
      counts := counts[s := CountAt(counts, s) + 1];
      rids := rids[s := SetAt(rids, s) + {r}];
    }
    assert starts - left == starts;
  }

  lemma StartIndexAdd(p: Problem, todo: set<ReqId>, r: ReqId, counts0: map<Node, int>, rids0: map<Node, set<ReqId>>,
                      counts: map<Node, int>, rids: map<Node, set<ReqId>>)
    requires r in p.options && r !in todo && StartIndex(p, todo, counts0, rids0)
    requires CountedAt(r, p.Starts(r), counts0, rids0, counts, rids)
    ensures StartIndex(p, todo + {r}, counts, rids)
  {
    StartsOfAdd(p, todo, r);
    forall s
      ensures SetAt(rids, s) == p.At(todo + {r}, s) && CountAt(counts, s) == |p.At(todo + {r}, s)|
    {
      AtAdd(p, todo, r, s);
      assert SetAt(rids0, s) == p.At(todo, s) && r !in p.At(todo, s);
    }
  }

  lemma StartsOfAdd(p: Problem, todo: set<ReqId>, r: ReqId)
    requires r in p.options
    ensures p.StartsOf(todo + {r}) == p.StartsOf(todo) + p.Starts(r)
  {
  }

  lemma AtAdd(p: Problem, todo: set<ReqId>, r: ReqId, s: Node)
    requires r in p.options
    ensures p.At(todo + {r}, s) == p.At(todo, s) + if s in p.Starts(r) then {r} else {}
  {
  }

  lemma AtMissing(p: Problem, todo: set<ReqId>, s: Node)
    ensures s in p.StartsOf(todo) <==> p.At(todo, s) != {}
  {
    if s in p.StartsOf(todo) {
      var r, e :| r in todo && r in p.options && e in p.options[r] && e.u == s;
      assert r in p.At(todo, s);
    }
  }

  /** The first of the first `i` requirements that lists the edge `e`. */
  ghost function Owner(p: Problem, e: EdgeRef, i: nat): Option<ReqId>
    requires p.Listed() && i <= |p.order|
  {
    if i == 0 then None
    else if Owner(p, e, i - 1).Some? then Owner(p, e, i - 1)
    else
      assert p.order[i - 1] in p.order;
      if e in p.options[p.order[i - 1]] then Some(p.order[i - 1]) else None
  }

  lemma {:induction false} OwnerLists(p: Problem, e: EdgeRef, i: nat)
    requires p.Listed() && i <= |p.order|
    ensures Owner(p, e, i).Some? ==> Owner(p, e, i).value in p.options && e in p.options[Owner(p, e, i).value]
    ensures forall k :: 0 <= k < i && p.order[k] in p.options && e in p.options[p.order[k]] ==> Owner(p, e, i).Some?
  {
    if i > 0 {
      OwnerLists(p, e, i - 1);
      assert p.order[i - 1] in p.order;
    }
  }

  /** Driving `e` serves `r`. */
  ghost predicate Owns(p: Problem, r: ReqId, e: EdgeRef) {
    p.Listed() && Owner(p, e, |p.order|) == Some(r)
  }

  /**
   Where an option belongs to another requirement, driving it leads strictly down, to where the
   requirement has another option. So a vehicle cannot drive in circles over such options.
   */
  ghost predicate Graded(p: Problem, height: Node -> nat, top: nat) {
    && (forall v :: height(v) <= top)
    && (forall r, e :: r in p.options && e in p.options[r] && !Owns(p, r, e) ==> height(e.v) < height(e.u) && e.v in p.Starts(r))
  }

  lemma DisjointIsGraded(p: Problem, height: Node -> nat)
    requires p.Listed() && p.Disjoint() && forall v :: height(v) == 0
    ensures Graded(p, height, 0)
  {
    forall r, e | r in p.options && e in p.options[r]
      ensures Owns(p, r, e)
    {
      DisjointOwner(p, r, e);
    }
  }

  /** Without shared edges the owner of an option is the requirement it serves. */
  lemma DisjointOwner(p: Problem, r: ReqId, e: EdgeRef)
    requires p.Listed() && p.Disjoint() && r in p.options && e in p.options[r]
    ensures Owner(p, e, |p.order|) == Some(r)
  {
    OwnerLists(p, e, |p.order|);
    assert r in p.order;
    var k :| 0 <= k < |p.order| && p.order[k] == r;
  }

  method BuildEdgeToRequirement(p: Problem) returns (owner: map<EdgeRef, ReqId>)
    requires p.Listed()
    ensures forall e :: e in owner <==> Owner(p, e, |p.order|).Some?
    ensures forall e :: e in owner ==> Some(owner[e]) == Owner(p, e, |p.order|)
  {
    owner := map[];
    for i := 0 to |p.order|
      invariant forall e :: e in owner <==> Owner(p, e, i).Some?
      invariant forall e :: e in owner ==> Some(owner[e]) == Owner(p, e, i)
    {
      assert p.order[i] in p.order;
      var r, opts := p.order[i], p.options[p.order[i]];
      ghost var before := owner;
      for k := 0 to |opts|
        invariant forall e :: e in before ==> e in owner && owner[e] == before[e]
        invariant forall e :: e in owner && e !in before ==> owner[e] == r && e in opts
        invariant forall e :: e in opts[..k] ==> e in owner
      {
        if opts[k] !in owner {
          owner := owner[opts[k] := r];
        }
      }
    }
  }

  // ----- Grouping by road component ---------------------------------------------------------

  /** Labels nodes with their weakly connected component; unlisted nodes get no labels. */
  method LabelNodes(net: Net, required: set<Node>) returns (labels: map<Node, int>)
    requires net.ComponentsValid()
    ensures labels.Keys <= required
    ensures forall v :: v in required ==> CompOf(net, v) == if v in labels then labels[v] else -1
  {
    labels := map[];
    var remaining := required;
    for i := 0 to |net.components|
      invariant labels.Keys == required - remaining && remaining <= required
      invariant forall v :: v in labels ==> CompOf(net, v) == labels[v]
      invariant forall v, k :: v in remaining && 0 <= k < i ==> v !in net.components[k]
    {
      if remaining == {} {
        break;
      }
      var touched := remaining * net.components[i];
      forall v | v in touched
        ensures CompOf(net, v) == i
      {
        CompOfIs(net, v, i);
      }
      labels := labels + map v | v in touched :: i;
      remaining := remaining - touched;
    }
    labels := labels + map v | v in remaining :: -1;
  }

  /** The first shortest option. */
  method BestOption(net: Net, options: seq<EdgeRef>) returns (best: EdgeRef)
    requires options != []
    ensures best in options && forall e :: e in options ==> net.EdgeLength(best) <= net.EdgeLength(e)
  {
    best := options[0];
    for i := 1 to |options|
      invariant best in options && forall e :: e in options[..i] ==> net.EdgeLength(best) <= net.EdgeLength(e)
    {
      if net.EdgeLength(options[i]) < net.EdgeLength(best) {
        best := options[i];
      }
    }
    assert options[..|options|] == options;
  }

  /** The length of the shortest option, 0 without options. */
  ghost function BestLength(n: Net, options: seq<EdgeRef>): real {
    if options == [] then 0.0
    else
      var rest, last := BestLength(n, options[..|options| - 1]), n.EdgeLength(options[|options| - 1]);
      if |options| == 1 || last < rest then last else rest
  }

  lemma {:induction false} BestLengthIsLeast(n: Net, options: seq<EdgeRef>) returns (best: EdgeRef)
    requires options != []
    ensures forall e :: e in options ==> BestLength(n, options) <= n.EdgeLength(e)
    ensures best in options && BestLength(n, options) == n.EdgeLength(best)
  {
    var front, last := options[..|options| - 1], options[|options| - 1];
    best := last;
    if |options| == 1 {
      assert options == [last];
    } else {
      var other := BestLengthIsLeast(n, front);
      var least := BestLength(n, options);
      assert least == if n.EdgeLength(last) < BestLength(n, front) then n.EdgeLength(last) else BestLength(n, front);
      forall e | e in options
        ensures least <= n.EdgeLength(e)
      {
        assert e == last || e in front;
      }
      if n.EdgeLength(last) >= n.EdgeLength(other) {
        best := other;
      }
    }
  }

  /** The shortest lengths of those of the listed requirements that are in `todo`, added up. */
  ghost function SumBest(p: Problem, order: seq<ReqId>, todo: set<ReqId>): real {
    if order == [] then 0.0
    else
      var r := order[|order| - 1];
      SumBest(p, order[..|order| - 1], todo) + if r in todo && r in p.options then BestLength(p.net, p.options[r]) else 0.0
  }

  ghost function RequiredDistance(p: Problem): real {
    SumBest(p, p.order, p.options.Keys)
  }

  method CalculateRequiredDistance(p: Problem) returns (sum: real)
    requires p.Listed() && forall r :: r in p.options ==> p.options[r] != []
    ensures sum == RequiredDistance(p)
  {
    sum := 0.0;
    for i := 0 to |p.order|
      invariant sum == SumBest(p, p.order[..i], p.options.Keys)
    {
      assert p.order[i] in p.order && p.order[..i + 1][..i] == p.order[..i];
      var best := BestOption(p.net, p.options[p.order[i]]);
      ghost var least := BestLengthIsLeast(p.net, p.options[p.order[i]]);
      sum := sum + p.net.EdgeLength(best);
    }
    assert p.order[..|p.order|] == p.order;
  }

  lemma {:induction false} SumBestAbsent(p: Problem, order: seq<ReqId>, todo: set<ReqId>, r: ReqId)
    requires r !in order
    ensures SumBest(p, order, todo + {r}) == SumBest(p, order, todo)
  {
    if order != [] {
      SumBestAbsent(p, order[..|order| - 1], todo, r);
    }
  }

  lemma {:induction false} SumBestAdd(p: Problem, order: seq<ReqId>, todo: set<ReqId>, r: ReqId)
    requires Distinct(order) && r in order && r !in todo && r in p.options
    ensures SumBest(p, order, todo + {r}) == SumBest(p, order, todo) + BestLength(p.net, p.options[r])
  {
    var front := order[..|order| - 1];
    if order[|order| - 1] == r {
      SumBestAbsent(p, front, todo, r);
    } else {
      SumBestAdd(p, front, todo, r);
    }
  }

  lemma {:induction false} SumBestNone(p: Problem, order: seq<ReqId>)
    ensures SumBest(p, order, {}) == 0.0
  {
    if order != [] {
      SumBestNone(p, order[..|order| - 1]);
    }
  }

  /** The requirements grouped by component, with the start nodes of each group. */
  ghost predicate CompIndex(p: Problem, todo: set<ReqId>, compOf: map<ReqId, int>,
                            rids: map<int, set<ReqId>>, targets: map<int, set<Node>>)
  {
    && compOf.Keys == todo && todo <= p.options.Keys
    && (forall r :: r in compOf ==> compOf[r] == p.Comp(r))
    && (forall c :: SetAt(rids, c) == p.In(todo, c))
    && (forall c :: SetAt(targets, c) == p.StartsOf(p.In(todo, c)))
  }

  lemma InAdd(p: Problem, todo: set<ReqId>, r: ReqId, c: int)
    requires r in p.options
    ensures p.In(todo + {r}, c) == if p.Comp(r) == c then p.In(todo, c) + {r} else p.In(todo, c)
  {
  }

  lemma CompIndexAdd(p: Problem, todo: set<ReqId>, compOf: map<ReqId, int>,
                     rids: map<int, set<ReqId>>, targets: map<int, set<Node>>, r: ReqId, c: int)
    requires CompIndex(p, todo, compOf, rids, targets)
    requires r in p.options && r !in todo && c == p.Comp(r)
    ensures CompIndex(p, todo + {r}, compOf[r := c],
                      rids[c := SetAt(rids, c) + {r}], targets[c := SetAt(targets, c) + p.Starts(r)])
  {
    GroupsAdd(p, todo, rids, r, c);
    GroupTargetsAdd(p, todo, targets, r, c);
  }

  lemma GroupsAdd(p: Problem, todo: set<ReqId>, rids: map<int, set<ReqId>>, r: ReqId, c: int)
    requires r in p.options && c == p.Comp(r) && forall k :: SetAt(rids, k) == p.In(todo, k)
    ensures forall k :: SetAt(rids[c := SetAt(rids, c) + {r}], k) == p.In(todo + {r}, k)
  {
    forall k
      ensures SetAt(rids[c := SetAt(rids, c) + {r}], k) == p.In(todo + {r}, k)
    {
      InAdd(p, todo, r, k);
      assert SetAt(rids, k) == p.In(todo, k);
    }
  }

  lemma GroupTargetsAdd(p: Problem, todo: set<ReqId>, targets: map<int, set<Node>>, r: ReqId, c: int)
    requires r in p.options && c == p.Comp(r) && forall k :: SetAt(targets, k) == p.StartsOf(p.In(todo, k))
    ensures forall k :: SetAt(targets[c := SetAt(targets, c) + p.Starts(r)], k) == p.StartsOf(p.In(todo + {r}, k))
  {
    forall k
      ensures SetAt(targets[c := SetAt(targets, c) + p.Starts(r)], k) == p.StartsOf(p.In(todo + {r}, k))
    {
      InAdd(p, todo, r, k);
      assert SetAt(targets, k) == p.StartsOf(p.In(todo, k));
      StartsOfAdd(p, p.In(todo, k), r);
    }
  }

  lemma NothingSeen(p: Problem)
    ensures Seen(p, 0) == {}
    ensures p.StartsOf({}) == {} && forall s :: p.At({}, s) == {}
    ensures CompIndex(p, Seen(p, 0), map[], map[], map[])
  {
    forall c
      ensures p.In({}, c) == {} && p.StartsOf(p.In({}, c)) == {}
    {
    }
  }

  lemma RequiredNodes(p: Problem, reqToStarts: map<ReqId, set<Node>>, required: set<Node>)
    requires reqToStarts.Keys == p.options.Keys && forall r :: r in reqToStarts ==> reqToStarts[r] == p.Starts(r)
    requires required == set r, s | r in reqToStarts && s in reqToStarts[r] :: s
    ensures required == p.AllStarts()
  {
    forall r, e | r in p.options && e in p.options[r]
      ensures e.u in required
    {
      assert e.u in reqToStarts[r];
    }
  }

  method BuildComponentStructure(p: Problem, reqToStarts: map<ReqId, set<Node>>)
    returns (reqToComp: map<ReqId, int>, compToRids: map<int, set<ReqId>>, compTargets: map<int, set<Node>>,
             startToComp: map<Node, int>)
    requires p.Valid()
    requires reqToStarts.Keys == p.options.Keys && forall r :: r in reqToStarts ==> reqToStarts[r] == p.Starts(r)
    ensures CompIndex(p, p.options.Keys, reqToComp, compToRids, compTargets)
    ensures startToComp.Keys == p.AllStarts() && forall v :: v in startToComp ==> startToComp[v] == CompOf(p.net, v)
  {
    var required := set r, s | r in reqToStarts && s in reqToStarts[r] :: s;
    RequiredNodes(p, reqToStarts, required);
    startToComp := LabelNodes(p.net, required);
    reqToComp, compToRids, compTargets := GroupByComponent(p, startToComp);
  }

  method GroupByComponent(p: Problem, startToComp: map<Node, int>)
    returns (reqToComp: map<ReqId, int>, compToRids: map<int, set<ReqId>>, compTargets: map<int, set<Node>>)
    requires p.Valid()
    requires startToComp.Keys == p.AllStarts() && forall v :: v in startToComp ==> startToComp[v] == CompOf(p.net, v)
    ensures CompIndex(p, p.options.Keys, reqToComp, compToRids, compTargets)
  {
    reqToComp, compToRids, compTargets := map[], map[], map[];
    NothingSeen(p);
    for i := 0 to |p.order|
      invariant CompIndex(p, Seen(p, i), reqToComp, compToRids, compTargets)
    {
      SeenStep(p, i);
      var r := p.order[i];
      var best := BestOption(p.net, p.options[r]);
      assert best.u in p.Starts(r);
      StartComp(p, r, best.u);
      var c := startToComp[best.u];
      CompIndexAdd(p, Seen(p, i), reqToComp, compToRids, compTargets, r, c);
      reqToComp := reqToComp[r := c];
      compToRids := compToRids[c := SetAt(compToRids, c) + {r}];
      compTargets := compTargets[c := SetAt(compTargets, c) + p.Starts(r)];
    }
    SeenAll(p);
  }

  method BuildComponentRemainingCounts(p: Problem, compToRids: map<int, set<ReqId>>)
    returns (reqCount: map<int, int>, segCount: map<int, int>)
    requires p.Listed() && forall c :: c in compToRids ==> compToRids[c] <= p.options.Keys
    ensures reqCount.Keys == segCount.Keys == compToRids.Keys
    ensures forall c :: c in compToRids ==> reqCount[c] == |compToRids[c]| && segCount[c] == p.SegmentSum(compToRids[c])
  {
    reqCount := map c | c in compToRids :: |compToRids[c]|;
    segCount := map[];
    var comps := compToRids.Keys;
    while comps != {}
      invariant comps <= compToRids.Keys && segCount.Keys == compToRids.Keys - comps
      invariant forall c :: c in segCount ==> segCount[c] == p.SegmentSum(compToRids[c])
      decreases comps
    {
      var c := Pick(comps);
      comps := comps - {c};
      var sum := SumSegments(p, compToRids[c]);
      segCount := segCount[c := sum];
    }
  }

  method SumSegments(p: Problem, rids: set<ReqId>) returns (sum: int)
    requires p.Listed() && rids <= p.options.Keys
    ensures sum == p.SegmentSum(rids)
  {
    sum := 0;
    var left := rids;
    SumOverEmpty(p, p.order);
    assert rids - left == {};
    while left != {}
      invariant left <= rids && sum == p.SegmentSum(rids - left)
      decreases left
    {
      var r := Pick(left);
      ghost var taken := rids - left;
      left := left - {r};
      assert rids - left == taken + {r} && (taken + {r}) - {r} == taken;
      SumOverRemove(p, p.order, taken + {r}, r);
      sum := sum + p.Segments(r);
    }
    assert rids - left == rids;
  }

  /** Which starts belong to a component can be read off either the requirements or the nodes. */
  lemma CompStarts(p: Problem, todo: set<ReqId>, c: int)
    requires p.Valid() && todo <= p.options.Keys
    ensures p.StartsOf(p.In(todo, c)) == set s | s in p.StartsOf(todo) && CompOf(p.net, s) == c
  {
    forall r, e | r in todo && e in p.options[r]
      ensures CompOf(p.net, e.u) == p.Comp(r)
    {
      StartComp(p, r, e.u);
    }
  }
}
