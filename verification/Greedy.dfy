/**
 The greedy rural-postman solver. Its state keeps redundant indices over the requirements that
 are still open; every method here re-establishes that each index equals its recomputation.
 */
module Greedy {
  import opened Optional
  import opened Guard
  import opened Network
  import opened Sorting
  import opened Requirements
  import Dijkstra

  // ----- What a route amounts to --------------------------------------------------------------

  ghost function SumLen(n: Net, es: seq<EdgeRef>): real {
    if es == [] then 0.0 else SumLen(n, es[..|es| - 1]) + n.EdgeLength(es[|es| - 1])
  }

  /** Appends a polyline whose first point repeats the last one drawn. */
  function Joined(line: seq<Point>, more: seq<Point>): seq<Point> {
    if more == [] then line else if line == [] then more else line + more[1..]
  }

  /** The polyline of a whole route. */
  ghost function Drawn(n: Net, es: seq<EdgeRef>): seq<Point> {
    if es == [] then [] else Joined(Drawn(n, es[..|es| - 1]), n.Geometry(es[|es| - 1]))
  }

  /** Where a route that sets out from `start` ends. */
  ghost function EndAt(start: Node, es: seq<EdgeRef>): Node {
    NodeAt(start, es, |es|)
  }

  /** How often a route goes on from a node other than the one it reached. */
  ghost function Breaks(start: Node, es: seq<EdgeRef>): nat {
    if es == [] then 0
    else Breaks(start, es[..|es| - 1]) + if EndAt(start, es[..|es| - 1]) == es[|es| - 1].u then 0 else 1
  }

  lemma LengthExtended(n: Net, es: seq<EdgeRef>, e: EdgeRef)
    ensures SumLen(n, es + [e]) == SumLen(n, es) + n.EdgeLength(e)
  {
    assert (es + [e])[..|es|] == es;
  }

  lemma DrawnExtended(n: Net, es: seq<EdgeRef>, e: EdgeRef)
    ensures Drawn(n, es + [e]) == Joined(Drawn(n, es), n.Geometry(e))
  {
    assert (es + [e])[..|es|] == es;
  }

  lemma BreaksExtended(start: Node, es: seq<EdgeRef>, e: EdgeRef)
    ensures EndAt(start, es + [e]) == e.v
    ensures Breaks(start, es + [e]) == Breaks(start, es) + if EndAt(start, es) == e.u then 0 else 1
  {
    assert (es + [e])[..|es|] == es;
  }

  ghost function Rids(s: seq<Service>): set<ReqId> {
    set x | x in s :: x.rid
  }

  /** The total length of the served edges. */
  ghost function SumServed(n: Net, s: seq<Service>): real {
    if s == [] then 0.0 else SumServed(n, s[..|s| - 1]) + n.EdgeLength(s[|s| - 1].edge)
  }

  lemma ServedExtended(n: Net, s: seq<Service>, x: Service)
    ensures SumServed(n, s + [x]) == SumServed(n, s) + n.EdgeLength(x.edge)
  {
    assert (s + [x])[..|s|] == s;
  }

  /** The served edges are a subsequence of the route, at the positions `pos`. */
  ghost predicate Embedded(s: seq<Service>, es: seq<EdgeRef>, pos: seq<nat>) {
    && |pos| == |s|
    && (forall i :: 0 <= i < |pos| ==> pos[i] < |es| && es[pos[i]] == s[i].edge)
    && (forall i, j :: 0 <= i < j < |pos| ==> pos[i] < pos[j])
  }

  /** The last thing the route does is serve a requirement. */
  ghost predicate EndsOnService(s: seq<Service>, es: seq<EdgeRef>, current: Node) {
    s != [] && es != [] && es[|es| - 1] == s[|s| - 1].edge && current == es[|es| - 1].v
  }

  ghost predicate Partition<T>(all: set<T>, a: set<T>, b: set<T>, c: set<T>) {
    a + b + c == all && a !! b && a !! c && b !! c
  }

  lemma PartitionSkip<T>(all: set<T>, a: set<T>, b: set<T>, c: set<T>, x: T)
    requires Partition(all, a, b, c) && x in a
    ensures Partition(all, a - {x}, b + {x}, c)
  {
  }

  lemma PartitionServe<T>(all: set<T>, a: set<T>, b: set<T>, c: set<T>, x: T)
    requires Partition(all, a, b, c) && x in a
    ensures Partition(all, a - {x}, b, c + {x})
  {
  }

  /** Open, skipped and served requirements partition all of them; none is served twice. */
  ghost predicate BookedFacts(p: Problem, unvisited: set<ReqId>, skipped: set<ReqId>, services: seq<Service>,
                         completed: nat, opportunistic: nat)
  {
    && Partition(p.options.Keys, unvisited, skipped, Rids(services))
    && (forall i, j :: 0 <= i < j < |services| ==> services[i].rid != services[j].rid)
    && (forall x :: x in services ==> x.rid in p.options && x.edge in p.options[x.rid] && Owns(p, x.rid, x.edge))
    && completed == |services| && opportunistic <= completed
  }

  ghost predicate Booked(p: Problem, unvisited: set<ReqId>, skipped: set<ReqId>, services: seq<Service>,
                         completed: nat, opportunistic: nat)
  {
    forall k {:trigger Recall(Books, k)} :: Recall(Books, k) ==> BookedFacts(p, unvisited, skipped, services, completed, opportunistic)
  }

  lemma BookService(p: Problem, unvisited: set<ReqId>, skipped: set<ReqId>, services: seq<Service>,
                    completed: nat, opportunistic: nat, x: Service, opportunistic': nat)
    requires Booked(p, unvisited, skipped, services, completed, opportunistic)
    requires x.rid in unvisited && x.rid in p.options && x.edge in p.options[x.rid] && Owns(p, x.rid, x.edge)
    requires opportunistic' <= opportunistic + 1
    ensures Booked(p, unvisited - {x.rid}, skipped, services + [x], completed + 1, opportunistic')
  {
    assert Recall(Books, 0);
    assert Rids(services + [x]) == Rids(services) + {x.rid};
    PartitionServe(p.options.Keys, unvisited, skipped, Rids(services), x.rid);
    forall i | 0 <= i < |services|
      ensures services[i].rid != x.rid
    {
      assert services[i].rid in Rids(services);
    }
  }

  lemma BookSkip(p: Problem, unvisited: set<ReqId>, skipped: set<ReqId>, services: seq<Service>,
                 completed: nat, opportunistic: nat, rid: ReqId)
    requires Booked(p, unvisited, skipped, services, completed, opportunistic) && rid in unvisited
    ensures Booked(p, unvisited - {rid}, skipped + {rid}, services, completed, opportunistic)
  {
    assert Recall(Books, 0);
    PartitionSkip(p.options.Keys, unvisited, skipped, Rids(services), rid);
  }

  /** The route is made of real edges, drawn edge by edge, and serves in route order. */
  ghost predicate AssembledFacts(n: Net, es: seq<EdgeRef>, s: seq<Service>, coords: seq<Point>, pos: seq<nat>) {
    && (forall e :: e in es ==> e in n.edges)
    && coords == Drawn(n, es)
    && Embedded(s, es, pos)
  }

  ghost predicate Assembled(n: Net, es: seq<EdgeRef>, s: seq<Service>, coords: seq<Point>, pos: seq<nat>)
  {
    forall k {:trigger Recall(Drawing, k)} :: Recall(Drawing, k) ==> AssembledFacts(n, es, s, coords, pos)
  }

  /** The distances add up to the lengths of what was driven and served. */
  ghost predicate MeasuredFacts(n: Net, es: seq<EdgeRef>, s: seq<Service>, total: real, service: real, deadhead: real) {
    total == SumLen(n, es) && total == service + deadhead && service == SumServed(n, s)
  }

  ghost predicate Measured(n: Net, es: seq<EdgeRef>, s: seq<Service>, total: real, service: real, deadhead: real)
  {
    forall k {:trigger Recall(Distances, k)} :: Recall(Distances, k) ==> MeasuredFacts(n, es, s, total, service, deadhead)
  }

  /** Counting the way on to `cur`, the route breaks at most `jumps` times. */
  ghost predicate ContinuousFacts(start: Node, es: seq<EdgeRef>, cur: Node, jumps: nat) {
    Breaks(start, es) + (if EndAt(start, es) == cur then 0 else 1) <= jumps
  }

  ghost predicate Continuous(start: Node, es: seq<EdgeRef>, cur: Node, jumps: nat) {
    forall k {:trigger Recall(Continuity, k)} :: Recall(Continuity, k) ==> ContinuousFacts(start, es, cur, jumps)
  }

  lemma ContinueEdge(start: Node, es: seq<EdgeRef>, e: EdgeRef, jumps: nat)
    requires Continuous(start, es, e.u, jumps)
    ensures Continuous(start, es + [e], e.v, jumps)
  {
    assert Recall(Continuity, 0);
    BreaksExtended(start, es, e);
  }

  lemma ContinueJump(start: Node, es: seq<EdgeRef>, cur: Node, cur': Node, jumps: nat)
    requires Continuous(start, es, cur, jumps)
    ensures Continuous(start, es, cur', jumps + 1)
  {
    assert Recall(Continuity, 0);
  }

  lemma AssembleEdge(n: Net, es: seq<EdgeRef>, s: seq<Service>, coords: seq<Point>, pos: seq<nat>, e: EdgeRef)
    requires Assembled(n, es, s, coords, pos) && e in n.edges
    ensures Assembled(n, es + [e], s, Joined(coords, n.Geometry(e)), pos)
  {
    assert Recall(Drawing, 0);
    DrawnExtended(n, es, e);
  }

  lemma AssembleService(n: Net, es: seq<EdgeRef>, s: seq<Service>, coords: seq<Point>, pos: seq<nat>,
                        e: EdgeRef, rid: ReqId)
    requires Assembled(n, es, s, coords, pos) && e in n.edges
    ensures Assembled(n, es + [e], s + [Service(rid, e)], Joined(coords, n.Geometry(e)), pos + [|es|])
  {
    assert Recall(Drawing, 0);
    DrawnExtended(n, es, e);
  }

  lemma MeasureEdge(n: Net, es: seq<EdgeRef>, s: seq<Service>, total: real, service: real, deadhead: real, e: EdgeRef)
    requires Measured(n, es, s, total, service, deadhead)
    ensures Measured(n, es + [e], s, total + n.EdgeLength(e), service, deadhead + n.EdgeLength(e))
  {
    assert Recall(Distances, 0);
    LengthExtended(n, es, e);
  }

  lemma MeasureService(n: Net, es: seq<EdgeRef>, s: seq<Service>, total: real, service: real, deadhead: real,
                       e: EdgeRef, rid: ReqId)
    requires Measured(n, es, s, total, service, deadhead)
    ensures Measured(n, es + [e], s + [Service(rid, e)], total + n.EdgeLength(e), service + n.EdgeLength(e), deadhead)
  {
    assert Recall(Distances, 0);
    LengthExtended(n, es, e);
    ServedExtended(n, s, Service(rid, e));
  }

  /** The start-node indices equal their recomputation from the open requirements. */
  ghost predicate TargetsFacts(p: Problem, open: set<ReqId>, counts: map<Node, int>, targets: set<Node>,
                               compTargets: map<int, set<Node>>)
  {
    && (forall s :: CountAt(counts, s) == |p.At(open, s)|)
    && targets == p.StartsOf(open)
    && (forall c :: SetAt(compTargets, c) == p.StartsOf(p.In(open, c)))
  }

  ghost predicate TargetsIndexed(p: Problem, open: set<ReqId>, counts: map<Node, int>, targets: set<Node>,
                                 compTargets: map<int, set<Node>>)
  {
    forall k {:trigger Recall(Targets, k)} :: Recall(Targets, k) ==> TargetsFacts(p, open, counts, targets, compTargets)
  }

  /** So do the per-component requirement and segment counts. */
  ghost predicate CompsFacts(p: Problem, open: set<ReqId>, reqs: map<int, int>, segs: map<int, int>) {
    && (forall c :: CountAt(reqs, c) == |p.In(open, c)|)
    && (forall c :: CountAt(segs, c) == p.SegmentSum(p.In(open, c)))
  }

  ghost predicate CompsIndexed(p: Problem, open: set<ReqId>, reqs: map<int, int>, segs: map<int, int>) {
    forall k {:trigger Recall(Comps, k)} :: Recall(Comps, k) ==> CompsFacts(p, open, reqs, segs)
  }

  ghost predicate Cached(n: Net, cache: map<EdgeRef, seq<Point>>) {
    forall k {:trigger Recall(Cache, k)} :: Recall(Cache, k) ==> forall e :: e in cache ==> cache[e] == n.Geometry(e)
  }

  /** A simple path of graph edges. */
  ghost predicate IsRoad(n: Net, origin: Node, path: seq<EdgeRef>, target: Node) {
    forall k {:trigger Recall(Roads, k)} :: Recall(Roads, k) ==> RoadFacts(n, origin, path, target)
  }

  ghost predicate RoadFacts(n: Net, origin: Node, path: seq<EdgeRef>, target: Node) {
    && IsChain(origin, path) && IsSimple(origin, path) && target == NodeAt(origin, path, |path|)
    && forall i :: 0 <= i < |path| ==> path[i] in n.edges
  }

  lemma RoadAt(n: Net, origin: Node, path: seq<EdgeRef>, target: Node, i: nat)
    requires IsRoad(n, origin, path, target) && i <= |path|
    ensures i < |path| ==> path[i] in n.edges && path[i].u == NodeAt(origin, path, i)
    ensures i == |path| ==> target == NodeAt(origin, path, i)
  {
    assert Recall(Roads, 0);
  }

  lemma AnswerIsRoad(n: Net, source: Node, targets: set<Node>, f: Dijkstra.Found)
    requires Dijkstra.Answers(n, source, targets, f)
    ensures f.node in targets && IsRoad(n, source, f.path, f.node)
  {
    WalkIsChain(n, source, f.path, f.node);
    n.WalkEdges(source, f.path, f.node);
    forall i | 0 <= i < |f.path|
      ensures f.path[i] in n.edges
    {
      assert n.Usable(f.path[i]);
    }
  }

  /** No path leads from `source` to any of the targets. */
  ghost predicate OutOfReach(n: Net, source: Node, targets: set<Node>) {
    forall k {:trigger Recall(Reach, k)} :: Recall(Reach, k) ==> forall t :: t in targets ==> !n.Reachable(source, t)
  }

  /** Every node reaches every start. */
  ghost predicate ReachesAll(p: Problem) {
    forall k {:trigger Recall(Reach, k)} :: Recall(Reach, k) ==>
      forall v, t :: v in p.net.nodes && t in p.AllStarts() ==> p.net.Reachable(v, t)
  }

  /** `d` is at most three times the distance of the nearest target. */
  ghost predicate WithinThrice(n: Net, source: Node, targets: set<Node>, d: real) {
    forall x, dx :: x in targets && n.Shortest(source, x, dx) ==> d <= 3.0 * dx
  }

  /**
   The shortest path to a target within three times the nearest distance, and none such scores
   better unless 25, or both five and a quarter of all targets, others are as near.
   */
  ghost predicate Preferred(n: Net, source: Node, targets: set<Node>, score: (Node, real) -> real, f: Dijkstra.Found) {
    && Dijkstra.Answers(n, source, targets, f)
    && (source in targets ==> f.node == source)
    && (source !in targets ==> WithinThrice(n, source, targets, f.dist))
    && (source !in targets ==> forall t, d :: Considered(n, source, targets, t, d) ==> score(f.node, f.dist) <= score(t, d))
  }

  ghost predicate Considered(n: Net, source: Node, targets: set<Node>, t: Node, d: real) {
    && t in targets && n.Shortest(source, t, d) && WithinThrice(n, source, targets, d)
    && Dijkstra.FewAsNear(n, source, targets, 25, t, d)
  }

  /** The route goes on with the path to a preferred target. */
  ghost predicate RoadTaken(n: Net, source: Node, targets: set<Node>, score: (Node, real) -> real, target: Node,
                            route: seq<EdgeRef>, route': seq<EdgeRef>)
  {
    forall k {:trigger Recall(Reach, k)} :: Recall(Reach, k) ==>
      exists f :: Preferred(n, source, targets, score, f) && f.node == target && route' == route + f.path
  }

  /** The same, before it is driven. */
  ghost predicate RoadFound(n: Net, source: Node, targets: set<Node>, score: (Node, real) -> real, f: Dijkstra.Found) {
    forall k {:trigger Recall(Reach, k)} :: Recall(Reach, k) ==> Preferred(n, source, targets, score, f)
  }

  lemma TakeRoad(n: Net, source: Node, targets: set<Node>, score: (Node, real) -> real, f: Dijkstra.Found, route: seq<EdgeRef>)
    requires RoadFound(n, source, targets, score, f)
    ensures RoadTaken(n, source, targets, score, f.node, route, route + f.path)
  {
    assert Recall(Reach, 0);
  }

  /** Only the scores of targets matter. */
  lemma SameScore(n: Net, source: Node, targets: set<Node>, score: (Node, real) -> real, score': (Node, real) -> real,
                  target: Node, route: seq<EdgeRef>, route': seq<EdgeRef>)
    requires RoadTaken(n, source, targets, score, target, route, route')
    requires forall t, d :: t in targets ==> score(t, d) == score'(t, d)
    ensures RoadTaken(n, source, targets, score', target, route, route')
  {
    assert Recall(Reach, 0);
    var f :| Preferred(n, source, targets, score, f) && f.node == target && route' == route + f.path;
    assert Preferred(n, source, targets, score', f);
  }

  lemma AnswerIsPreferred(n: Net, source: Node, targets: set<Node>, scale: real -> real, score: (Node, real) -> real,
                          f: Dijkstra.Found)
    requires Dijkstra.Answers(n, source, targets, f) && (source in targets ==> f.node == source)
    requires source !in targets ==> Dijkstra.BestOfNear(n, source, targets, 25, scale, None, score, f)
    requires source !in targets ==> Dijkstra.WithinScale(n, source, targets, scale, f.dist)
    requires forall d :: scale(d) == 3.0 * d
    ensures RoadFound(n, source, targets, score, f)
  {
    forall d
      ensures WithinThrice(n, source, targets, d) <==> Dijkstra.WithinScale(n, source, targets, scale, d)
    {
    }
    assert Preferred(n, source, targets, score, f);
  }

  /** The path to the best-scored target, if any can be reached. */
  method FindRoad(n: Net, source: Node, targets: set<Node>, score: (Node, real) -> real)
    returns (found: Option<Dijkstra.Found>)
    requires n.EdgesClosed() && source in n.nodes
    ensures found.Some? ==> found.value.node in targets && IsRoad(n, source, found.value.path, found.value.node)
    ensures found.Some? ==> RoadFound(n, source, targets, score, found.value)
    ensures found.None? <==> OutOfReach(n, source, targets)
  {
    ghost var cands;
    found, cands := Dijkstra.DijkstraToBestTarget(n, source, targets, 25, 3.0, None, score);
    if found.Some? {
      AnswerIsRoad(n, source, targets, found.value);
      AnswerIsPreferred(n, source, targets, (d: real) => d * 3.0, score, found.value);
    }
    WithinReach(n, source, targets);
  }

  /** At least 1. */
  ghost function AtLeastOne(k: int): real {
    if k < 1 then 1.0 else k as real
  }

  /** Between components: the distance, divided by the open segments of the component. */
  ghost function WorkScore(p: Problem, open: set<ReqId>): (Node, real) -> real {
    (node, d) => d / AtLeastOne(p.SegmentSum(p.In(open, CompOf(p.net, node))))
  }

  /** Within a component: the distance, divided by the open requirements that start there. */
  ghost function StartScore(p: Problem, open: set<ReqId>): (Node, real) -> real {
    (node, d) => d / AtLeastOne(|p.At(open, node)|)
  }

  lemma WithinReach(n: Net, source: Node, targets: set<Node>)
    ensures OutOfReach(n, source, targets) <==> source !in targets && !Dijkstra.ReachableWithin(n, source, targets, None)
  {
    assert Recall(Reach, 0);
    assert n.IsWalk(source, [], source);
    if t :| t in targets && n.Reachable(source, t) {
      var p :| n.IsWalk(source, p, t);
      assert Dijkstra.WithinCutoff(None, n.Len(source, p, t));
    }
    if Dijkstra.ReachableWithin(n, source, targets, None) {
      var t, p :| t in targets && n.IsWalk(source, p, t) && Dijkstra.WithinCutoff(None, n.Len(source, p, t));
      assert n.Reachable(source, t);
    }
  }

  ghost predicate Labelled(p: Problem, reqToStarts: map<ReqId, set<Node>>, reqToComp: map<ReqId, int>,
                           startToRids: map<Node, set<ReqId>>, startToComp: map<Node, int>)
  {
    && (forall r :: r in p.options ==> r in reqToStarts && reqToStarts[r] == p.Starts(r))
    && (forall r :: r in p.options ==> r in reqToComp && reqToComp[r] == p.Comp(r))
    && (forall s :: SetAt(startToRids, s) == p.At(p.options.Keys, s))
    && (forall s :: s in p.AllStarts() ==> s in startToComp && startToComp[s] == CompOf(p.net, s))
  }

  ghost predicate Owned(p: Problem, edgeToRid: map<EdgeRef, ReqId>) {
    && p.Listed()
    && (forall e :: e in edgeToRid <==> Owner(p, e, |p.order|).Some?)
    && (forall e :: e in edgeToRid ==> Some(edgeToRid[e]) == Owner(p, e, |p.order|))
  }

  // ----- The initial state --------------------------------------------------------------------

  ghost function StartOf(p: Problem, startNode: Option<Node>): Node {
    if startNode.Some? && startNode.value in p.net.nodes then startNode.value
    else if p.order != [] && p.order[0] in p.options && p.options[p.order[0]] != [] then p.options[p.order[0]][0].u
    else 0
  }

  method InitialNode(p: Problem, startNode: Option<Node>) returns (start: Node)
    requires p.Valid() && (p.order != [] || (startNode.Some? && startNode.value in p.net.nodes))
    ensures start == StartOf(p, startNode) && start in p.net.nodes
  {
    if startNode.Some? && startNode.value in p.net.nodes {
      return startNode.value;
    }
    var r := p.order[0];
    assert r in p.order;
    start := p.options[r][0].u;
    assert p.options[r][0] in p.options[r];
  }

  lemma InitialTargets(p: Problem, counts: map<Node, int>, rids: map<Node, set<ReqId>>, compOf: map<ReqId, int>,
                       groups: map<int, set<ReqId>>, targets: map<int, set<Node>>)
    requires StartIndex(p, p.options.Keys, counts, rids) && CompIndex(p, p.options.Keys, compOf, groups, targets)
    ensures TargetsIndexed(p, p.options.Keys, counts, counts.Keys, targets)
  {
  }

  lemma InitialComps(p: Problem, compOf: map<ReqId, int>, groups: map<int, set<ReqId>>, targets: map<int, set<Node>>,
                     reqCount: map<int, int>, segCount: map<int, int>)
    requires CompIndex(p, p.options.Keys, compOf, groups, targets)
    requires reqCount.Keys == segCount.Keys == groups.Keys
    requires forall c :: c in groups ==> reqCount[c] == |groups[c]| && segCount[c] == p.SegmentSum(groups[c])
    ensures CompsIndexed(p, p.options.Keys, reqCount, segCount)
  {
    SumOverEmpty(p, p.order);
    forall c
      ensures CountAt(reqCount, c) == |p.In(p.options.Keys, c)|
      ensures CountAt(segCount, c) == p.SegmentSum(p.In(p.options.Keys, c))
    {
      assert SetAt(groups, c) == p.In(p.options.Keys, c);
    }
  }

  method BuildIndices(p: Problem)
    returns (starts: map<ReqId, set<Node>>, rids: map<Node, set<ReqId>>, owner: map<EdgeRef, ReqId>,
             compOf: map<ReqId, int>, labels: map<Node, int>, counts: map<Node, int>, targets: map<int, set<Node>>,
             reqCount: map<int, int>, segCount: map<int, int>)
    requires p.Valid()
    ensures Labelled(p, starts, compOf, rids, labels) && Owned(p, owner)
    ensures TargetsIndexed(p, p.options.Keys, counts, counts.Keys, targets)
    ensures CompsIndexed(p, p.options.Keys, reqCount, segCount)
  {
    starts, counts, rids := BuildRequirementIndices(p);
    owner := BuildEdgeToRequirement(p);
    var groups;
    compOf, groups, targets, labels := BuildComponentStructure(p, starts);
    assert forall c :: c in groups ==> groups[c] == SetAt(groups, c);
    reqCount, segCount := BuildComponentRemainingCounts(p, groups);
    InitialTargets(p, counts, rids, compOf, groups, targets);
    InitialComps(p, compOf, groups, targets, reqCount, segCount);
  }

  lemma EmptyRoute(p: Problem, start: Node)
    ensures Booked(p, p.options.Keys, {}, [], 0, 0)
    ensures Assembled(p.net, [], [], [], []) && Measured(p.net, [], [], 0.0, 0.0, 0.0)
    ensures Continuous(start, [], start, 0) && Cached(p.net, map[])
  {
  }

  class Solver {
    const p: Problem
    const xy: map<Node, Point>
    const cosLat: real -> real
    const reqToStarts: map<ReqId, set<Node>>
    const startToRids: map<Node, set<ReqId>>
    const edgeToRid: map<EdgeRef, ReqId>
    const reqToComp: map<ReqId, int>
    const startToComp: map<Node, int>
    ghost const startNode: Node

    var current: Node
    var unvisited: set<ReqId>
    var skipped: set<ReqId>
    var startCounts: map<Node, int>
    var globalTargets: set<Node>
    var compTargets: map<int, set<Node>>
    var compReqs: map<int, int>
    var compSegs: map<int, int>
    var routeCoords: seq<Point>
    var routeEdges: seq<EdgeRef>
    var geoCache: map<EdgeRef, seq<Point>>
    var services: seq<Service>
    ghost var positions: seq<nat>
    var teleportPairs: seq<(Point, Point)>
    var totalDist: real
    var serviceDist: real
    var deadheadDist: real
    var completed: nat
    var opportunistic: nat
    var teleports: nat
    var iterations: nat

    // ----- What every state satisfies ---------------------------------------------------------

    /** The indices that never change are right. */
    ghost predicate Static() {
      && (forall k {:trigger Recall(Statics, k)} :: Recall(Statics, k) ==> p.Valid())
      && (forall k {:trigger Recall(Labels, k)} :: Recall(Labels, k) ==>
            Labelled(p, reqToStarts, reqToComp, startToRids, startToComp))
      && (forall k {:trigger Recall(Owners, k)} :: Recall(Owners, k) ==> Owned(p, edgeToRid))
    }

    ghost predicate Indexed()
      reads this`unvisited, this`startCounts, this`globalTargets, this`compTargets, this`compReqs, this`compSegs
    {
      && unvisited <= p.options.Keys
      && TargetsIndexed(p, unvisited, startCounts, globalTargets, compTargets)
      && CompsIndexed(p, unvisited, compReqs, compSegs)
    }

    ghost predicate Ledger()
      reads this`unvisited, this`skipped, this`services, this`completed, this`opportunistic
    {
      Booked(p, unvisited, skipped, services, completed, opportunistic)
    }

    ghost predicate Routed(cur: Node)
      reads this`routeEdges, this`routeCoords, this`geoCache, this`services, this`positions,
            this`totalDist, this`serviceDist, this`deadheadDist, this`teleports
    {
      && cur in p.net.nodes
      && Cached(p.net, geoCache)
      && Assembled(p.net, routeEdges, services, routeCoords, positions)
      && Measured(p.net, routeEdges, services, totalDist, serviceDist, deadheadDist)
      && Continuous(startNode, routeEdges, cur, teleports)
    }

    ghost predicate Valid()
      reads this
    {
      Static() && Indexed() && Ledger() && Routed(current)
    }

    /** All nodes have coordinates. */
    ghost predicate Placed() {
      p.net.nodes <= xy.Keys
    }

    /** Builds the indices and stands at the start node, or at the first option if there is none. */
    constructor (p: Problem, xy: map<Node, Point>, cosLat: real -> real, startNode: Option<Node>)
      requires p.Valid() && (p.order != [] || (startNode.Some? && startNode.value in p.net.nodes))
      ensures Valid() && Closed() && this.p == p && this.xy == xy && this.cosLat == cosLat
      ensures current == this.startNode == StartOf(p, startNode) && routeEdges == []
      ensures iterations == 0 && teleports == 0 && unvisited == p.options.Keys && skipped == {}
    {
      var start := InitialNode(p, startNode);
      var starts, rids, owner, compOf, labels, counts, targets, reqCount, segCount := BuildIndices(p);
      EmptyRoute(p, start);
      assert p.order != [] ==> p.order[0] in p.order && p.order[0] in p.options.Keys;
      this.p, this.xy, this.cosLat, this.startNode := p, xy, cosLat, start;
      reqToStarts, startToRids, edgeToRid, reqToComp, startToComp := starts, rids, owner, compOf, labels;
      current, unvisited, skipped := start, p.options.Keys, {};
      startCounts, globalTargets, compTargets, compReqs, compSegs := counts, counts.Keys, targets, reqCount, segCount;
      routeCoords, routeEdges, geoCache, services, positions, teleportPairs := [], [], map[], [], [], [];
      totalDist, serviceDist, deadheadDist := 0.0, 0.0, 0.0;
      completed, opportunistic, teleports, iterations := 0, 0, 0, 0;
    }

    // ----- Taking a requirement out of the indices ----------------------------------------------

    /** Lowers the counts at the starts of `rid`, dropping starts that no open requirement uses. */
    method RemoveReqFromTargets(rid: ReqId)
      requires Static() && TargetsIndexed(p, unvisited, startCounts, globalTargets, compTargets)
      requires rid in unvisited && unvisited <= p.options.Keys
      modifies this`startCounts, this`globalTargets, this`compTargets
      ensures TargetsIndexed(p, unvisited - {rid}, startCounts, globalTargets, compTargets)
    {
      Known(rid);
      TargetsFollow();
      var counts, targets, comps :=
        DropStarts(p.net, reqToStarts[rid], reqToComp[rid], startCounts, globalTargets, compTargets);
      TargetsWithout(rid, counts, targets, comps);
      startCounts, globalTargets, compTargets := counts, targets, comps;
    }

    lemma TargetsFollow()
      requires Static() && TargetsIndexed(p, unvisited, startCounts, globalTargets, compTargets)
      requires unvisited <= p.options.Keys
      ensures TargetsFollowCounts(p.net, startCounts, globalTargets, compTargets)
    {
      assert Recall(Statics, 0);
      FollowCounts(p, unvisited, startCounts, globalTargets, compTargets);
    }

    lemma TargetsWithout(rid: ReqId, counts: map<Node, int>, targets: set<Node>, comps: map<int, set<Node>>)
      requires Static() && TargetsIndexed(p, unvisited, startCounts, globalTargets, compTargets)
      requires rid in unvisited && unvisited <= p.options.Keys
      requires TargetsFollowCounts(p.net, counts, targets, comps)
      requires forall s :: CountAt(counts, s) == CountAt(startCounts, s) - if s in p.Starts(rid) then 1 else 0
      ensures TargetsIndexed(p, unvisited - {rid}, counts, targets, comps)
    {
      assert Recall(Statics, 0);
      TargetsRemove(p, unvisited, rid, startCounts, globalTargets, compTargets, counts, targets, comps);
    }

    /** Lowers the counts of the component of `rid`. */
    method RemoveReqFromComps(rid: ReqId)
      requires Static() && CompsIndexed(p, unvisited, compReqs, compSegs)
      requires rid in unvisited && unvisited <= p.options.Keys
      modifies this`compReqs, this`compSegs
      ensures CompsIndexed(p, unvisited - {rid}, compReqs, compSegs)
    {
      Known(rid);
      var c := reqToComp[rid];
      CompsRemove(p, unvisited, rid, compReqs, compSegs);
      compReqs := compReqs[c := CountAt(compReqs, c) - 1];
      compSegs := compSegs[c := CountAt(compSegs, c) - p.Segments(rid)];
    }

    lemma EdgeInNet(edge: EdgeRef)
      requires Static() && edge in p.net.edges
      ensures edge.u in p.net.nodes && edge.v in p.net.nodes
    {
      assert Recall(Statics, 0);
    }

    lemma Known(rid: ReqId)
      requires Static() && rid in p.options
      ensures p.Listed() && rid in reqToStarts && reqToStarts[rid] == p.Starts(rid)
      ensures rid in reqToComp && reqToComp[rid] == p.Comp(rid)
      ensures forall s :: s in p.Starts(rid) ==> CompOf(p.net, s) == p.Comp(rid)
    {
      assert Recall(Statics, 0) && Recall(Labels, 0);
      StartsComp(p, rid);
    }

    /** The requirement an edge belongs to lists that edge. */
    lemma OwnerOf(edge: EdgeRef)
      requires Static() && edge in edgeToRid
      ensures edgeToRid[edge] in p.options && edge in p.options[edgeToRid[edge]] && Owns(p, edgeToRid[edge], edge)
    {
      assert Recall(Owners, 0);
      OwnerLists(p, edge, |p.order|);
    }

    /** Takes an open requirement off the books. */
    method Retire(rid: ReqId)
      requires Static() && Indexed() && rid in unvisited
      modifies this`unvisited, this`startCounts, this`globalTargets, this`compTargets, this`compReqs, this`compSegs
      ensures Indexed() && unvisited == old(unvisited) - {rid}
    {
      RemoveReqFromComps(rid);
      RemoveReqFromTargets(rid);
      unvisited := unvisited - {rid};
    }

    method MarkCompleted(rid: ReqId, opp: bool)
      requires Static() && Indexed()
      modifies this`unvisited, this`startCounts, this`globalTargets, this`compTargets, this`compReqs, this`compSegs,
               this`completed, this`opportunistic
      ensures Indexed() && unvisited == old(unvisited) - {rid}
      ensures completed == old(completed) + if rid in old(unvisited) then 1 else 0
      ensures opportunistic == old(opportunistic) + if rid in old(unvisited) && opp then 1 else 0
    {
      if rid !in unvisited {
        return;
      }
      Retire(rid);
      completed := completed + 1;
      if opp {
        opportunistic := opportunistic + 1;
      }
    }

    method MarkSkipped(rid: ReqId)
      requires Static() && Indexed() && Ledger()
      modifies this`unvisited, this`startCounts, this`globalTargets, this`compTargets, this`compReqs, this`compSegs,
               this`skipped
      ensures Indexed() && Ledger() && unvisited == old(unvisited) - {rid}
      ensures skipped == old(skipped) + (old(unvisited) * {rid})
    {
      if rid !in unvisited {
        return;
      }
      BookSkip(p, unvisited, skipped, services, completed, opportunistic, rid);
      Retire(rid);
      skipped := skipped + {rid};
    }

    /** Gives up on the given requirements. */
    method SkipAll(rids: set<ReqId>)
      requires Static() && Indexed() && Ledger() && rids <= unvisited
      modifies this`unvisited, this`startCounts, this`globalTargets, this`compTargets, this`compReqs, this`compSegs,
               this`skipped
      ensures Indexed() && Ledger()
      ensures unvisited == old(unvisited) - rids && skipped == old(skipped) + rids
    {
      var left := rids;
      while left != {}
        invariant left <= rids && Indexed() && Ledger()
        invariant unvisited == old(unvisited) - (rids - left) && skipped == old(skipped) + (rids - left)
        decreases left
      {
        var rid := Pick(left);
        left := left - {rid};
        MarkSkipped(rid);
      }
    }

    // ----- Driving ------------------------------------------------------------------------------

    method AppendEdgeGeometry(edge: EdgeRef)
      requires Cached(p.net, geoCache)
      modifies this`geoCache, this`routeCoords, this`routeEdges
      ensures Cached(p.net, geoCache)
      ensures routeCoords == Joined(old(routeCoords), p.net.Geometry(edge)) && routeEdges == old(routeEdges) + [edge]
    {
      assert Recall(Cache, 0);
      var geo;
      if edge in geoCache {
        geo := geoCache[edge];
      } else {
        geo := p.net.Geometry(edge);
        geoCache := geoCache[edge := geo];
      }
      routeCoords := Joined(routeCoords, geo);
      routeEdges := routeEdges + [edge];
    }

    /** Drives an edge that serves no open requirement. */
    method DeadheadEdge(edge: EdgeRef)
      requires Static() && Routed(edge.u) && edge in p.net.edges
      modifies this`geoCache, this`routeCoords, this`routeEdges, this`totalDist, this`deadheadDist
      ensures Routed(edge.v) && routeEdges == old(routeEdges) + [edge]
    {
      EdgeInNet(edge);
      ContinueEdge(startNode, routeEdges, edge, teleports);
      AssembleEdge(p.net, routeEdges, services, routeCoords, positions, edge);
      MeasureEdge(p.net, routeEdges, services, totalDist, serviceDist, deadheadDist, edge);
      AppendEdgeGeometry(edge);
      deadheadDist := deadheadDist + p.net.EdgeLength(edge);
      totalDist := totalDist + p.net.EdgeLength(edge);
    }

    /** Drives an edge that serves the open requirement `rid`. */
    method ServeEdge(edge: EdgeRef, rid: ReqId)
      requires Static() && Routed(edge.u) && edge in p.net.edges
      modifies this`geoCache, this`routeCoords, this`routeEdges, this`totalDist, this`serviceDist,
               this`services, this`positions
      ensures Routed(edge.v) && routeEdges == old(routeEdges) + [edge]
      ensures services == old(services) + [Service(rid, edge)]
    {
      EdgeInNet(edge);
      ContinueEdge(startNode, routeEdges, edge, teleports);
      AssembleService(p.net, routeEdges, services, routeCoords, positions, edge, rid);
      MeasureService(p.net, routeEdges, services, totalDist, serviceDist, deadheadDist, edge, rid);
      positions := positions + [|routeEdges|];
      AppendEdgeGeometry(edge);
      serviceDist := serviceDist + p.net.EdgeLength(edge);
      totalDist := totalDist + p.net.EdgeLength(edge);
      services := services + [Service(rid, edge)];
    }

    /** Whether driving `edge` would complete a requirement. */
    predicate Completes(edge: EdgeRef)
      reads this`unvisited
    {
      edge in edgeToRid && edgeToRid[edge] in unvisited
    }

    /** Drives one edge, serving the requirement that owns it if that is still open. */
    method TraverseEdge(edge: EdgeRef, opp: bool)
      requires Valid() && edge in p.net.edges && edge.u == current
      modifies this`unvisited, this`startCounts, this`globalTargets, this`compTargets, this`compReqs, this`compSegs,
               this`completed, this`opportunistic, this`geoCache, this`routeCoords, this`routeEdges,
               this`services, this`positions, this`serviceDist, this`totalDist, this`deadheadDist
      ensures Indexed() && Ledger() && Routed(edge.v)
      ensures routeEdges == old(routeEdges) + [edge]
      ensures old(Completes(edge)) ==>
                && unvisited == old(unvisited) - {edgeToRid[edge]}
                && services == old(services) + [Service(edgeToRid[edge], edge)]
      ensures !old(Completes(edge)) ==> unvisited == old(unvisited) && services == old(services)
      ensures opportunistic == old(opportunistic) + if opp then |services| - |old(services)| else 0
    {
      if Completes(edge) {
        CompleteOver(edge, edgeToRid[edge], opp);
      } else {
        DeadheadEdge(edge);
      }
    }

    /** Drives an edge and completes its owner. */
    method CompleteOver(edge: EdgeRef, rid: ReqId, opp: bool)
      requires Static() && Indexed() && Ledger() && Routed(edge.u)
      requires edge in p.net.edges && edge in edgeToRid && rid == edgeToRid[edge] && rid in unvisited
      modifies this`unvisited, this`startCounts, this`globalTargets, this`compTargets, this`compReqs, this`compSegs,
               this`completed, this`opportunistic, this`geoCache, this`routeCoords, this`routeEdges,
               this`services, this`positions, this`serviceDist, this`totalDist
      ensures Indexed() && Ledger() && Routed(edge.v)
      ensures routeEdges == old(routeEdges) + [edge] && unvisited == old(unvisited) - {rid}
      ensures services == old(services) + [Service(rid, edge)]
      ensures opportunistic == old(opportunistic) + if opp then 1 else 0
    {
      OwnerOf(edge);
      ghost var more := if opp then opportunistic + 1 else opportunistic;
      BookService(p, unvisited, skipped, services, completed, opportunistic, Service(rid, edge), more);
      ServeEdge(edge, rid);
      Complete(rid, opp, more);
    }

    /** Completes an open requirement whose service has been recorded. */
    method Complete(rid: ReqId, opp: bool, ghost more: nat)
      requires Static() && Indexed() && rid in unvisited && more == (if opp then opportunistic + 1 else opportunistic)
      requires Booked(p, unvisited - {rid}, skipped, services, completed + 1, more)
      modifies this`unvisited, this`startCounts, this`globalTargets, this`compTargets, this`compReqs, this`compSegs,
               this`completed, this`opportunistic
      ensures Indexed() && Ledger() && unvisited == old(unvisited) - {rid} && opportunistic == more
    {
      MarkCompleted(rid, opp);
      assert completed == old(completed) + 1 && opportunistic == more;
    }

    /** Drives a simple path to a start of the open requirement `pending`. */
    method TraversePath(path: seq<EdgeRef>, ghost target: Node, ghost pending: ReqId)
      requires Valid() && IsRoad(p.net, current, path, target)
      requires pending in unvisited && pending in p.options && target in p.Starts(pending)
      modifies this`unvisited, this`startCounts, this`globalTargets, this`compTargets, this`compReqs, this`compSegs,
               this`completed, this`opportunistic, this`geoCache, this`routeCoords, this`routeEdges,
               this`services, this`positions, this`serviceDist, this`totalDist, this`deadheadDist, this`current
      ensures Valid() && current == target
      ensures routeEdges == old(routeEdges) + path && unvisited <= old(unvisited)
      ensures opportunistic - old(opportunistic) == |services| - |old(services)|
      ensures unvisited == {} ==> EndsOnService(services, routeEdges, current)
    {
      ghost var origin := current;
      for i := 0 to |path|
        invariant Valid() && current == NodeAt(origin, path, i)
        invariant routeEdges == old(routeEdges) + path[..i] && unvisited <= old(unvisited)
        invariant opportunistic - old(opportunistic) == |services| - |old(services)|
        invariant i < |path| ==> pending in unvisited
        invariant pending in unvisited || EndsOnService(services, routeEdges, current)
      {
        assert path[..i + 1] == path[..i] + [path[i]];
        RoadAt(p.net, origin, path, target, i);
        ServesAtTheEnd(path[i], pending, origin, path, i, target);
        FollowEdge(path[i], true, pending);
      }
      assert path[..|path|] == path;
      RoadAt(p.net, origin, path, target, |path|);
    }

    /** Drives one edge and stands at its head. */
    method FollowEdge(edge: EdgeRef, opp: bool, ghost pending: ReqId)
      requires Valid() && edge in p.net.edges && edge.u == current
      requires pending in unvisited && pending in p.options
      modifies this`unvisited, this`startCounts, this`globalTargets, this`compTargets, this`compReqs, this`compSegs,
               this`completed, this`opportunistic, this`geoCache, this`routeCoords, this`routeEdges,
               this`services, this`positions, this`serviceDist, this`totalDist, this`deadheadDist, this`current
      ensures Valid() && current == edge.v
      ensures routeEdges == old(routeEdges) + [edge] && unvisited <= old(unvisited)
      ensures old(Completes(edge)) ==> unvisited == old(unvisited) - {edgeToRid[edge]}
      ensures opportunistic == old(opportunistic) + if opp then |services| - |old(services)| else 0
      ensures pending !in unvisited ==> edge in p.options[pending] && EndsOnService(services, routeEdges, current)
    {
      if Completes(edge) {
        OwnerOf(edge);
      }
      TraverseEdge(edge, opp);
      current := edge.v;
    }

    /** On a simple path to a start of `r`, only the last edge can complete `r`. */
    lemma ServesAtTheEnd(edge: EdgeRef, r: ReqId, origin: Node, path: seq<EdgeRef>, i: nat, target: Node)
      requires Static() && r in p.options && target in p.Starts(r)
      requires i < |path| && edge == path[i] && IsRoad(p.net, origin, path, target)
      ensures edge in p.options[r] ==> i == |path| - 1
    {
      if edge in p.options[r] {
        assert Recall(Statics, 0) && Recall(Roads, 0);
        var o := p.options[r][0];
        var t :| t in p.options[r] && t.u == target;
        assert SameStreet(o, edge) && SameStreet(o, t);
        assert edge.u == NodeAt(origin, path, i);
      }
    }

    // ----- Targets ------------------------------------------------------------------------------

    /** Every target is a start of some open requirement. */
    lemma TargetHasPending(s: Node) returns (r: ReqId)
      requires Static() && Indexed() && s in globalTargets
      ensures r in unvisited && r in p.options && s in p.Starts(r)
      ensures s in startToComp && startToComp[s] == p.Comp(r)
    {
      assert Recall(Targets, 0);
      var e;
      r, e :| r in unvisited && r in p.options && e in p.options[r] && e.u == s;
      StartKnown(r, e);
    }

    lemma StartKnown(r: ReqId, e: EdgeRef)
      requires Static() && r in p.options && e in p.options[r]
      ensures e.u in startToComp && startToComp[e.u] == p.Comp(r)
    {
      assert Recall(Statics, 0) && Recall(Labels, 0);
      assert r in p.options.Keys && e.u in p.AllStarts();
      assert e.u in p.Starts(r);
      StartComp(p, r, e.u);
    }

    lemma CompTargetHasPending(c: int, s: Node) returns (r: ReqId)
      requires Indexed() && s in SetAt(compTargets, c)
      ensures r in unvisited && r in p.options && s in p.Starts(r) && p.Comp(r) == c
    {
      assert Recall(Targets, 0);
      var e;
      r, e :| r in p.In(unvisited, c) && r in p.options && e in p.options[r] && e.u == s;
    }

    /** The starts of an open requirement are targets, globally and in its component. */
    lemma PendingIsTarget(r: ReqId) returns (s: Node)
      requires Static() && Indexed() && r in unvisited
      ensures s in globalTargets && s in SetAt(compTargets, p.Comp(r))
      ensures s in p.net.nodes && p.net.Out(s) != {}
    {
      assert Recall(Statics, 0) && Recall(Targets, 0);
      var e := p.options[r][0];
      s := e.u;
      assert e in p.options[r] && r in p.In(unvisited, p.Comp(r));
      assert e in p.net.Out(s);
    }

    /** A component with open requirements has one of them to show. */
    lemma OpenComp(c: int) returns (r: ReqId)
      requires Indexed() && CountAt(compReqs, c) > 0
      ensures r in unvisited && p.Comp(r) == c
    {
      assert Recall(Comps, 0);
      assert |p.In(unvisited, c)| > 0;
      r :| r in p.In(unvisited, c);
    }

    lemma CompIsOpen(r: ReqId)
      requires Indexed() && r in unvisited
      ensures CountAt(compReqs, p.Comp(r)) > 0
    {
      assert Recall(Comps, 0);
      assert r in p.In(unvisited, p.Comp(r));
    }

    /** A place the vehicle may be put down at: in the network, with a way out and coordinates. */
    predicate Eligible(s: Node) {
      s in p.net.nodes && p.net.Out(s) != {} && s in xy
    }

    ghost predicate CanJump(targets: set<Node>)
      reads this`current
    {
      current in xy && exists s :: s in targets && Landing(p, xy, s)
    }

    lemma PlacedCanJump(r: ReqId)
      requires Static() && Indexed() && r in unvisited && current in p.net.nodes
      requires Placed()
      ensures CanJump(globalTargets) && CanJump(SetAt(compTargets, p.Comp(r)))
    {
      var s := PendingIsTarget(r);
      WaysOut(p.net, s);
      assert Landing(p, xy, s);
    }

    /** The squared jump length, discounted by the work waiting in the target's component. */
    function JumpScore(here: Point, s: Node): real
      requires s in xy
      reads this`compSegs
    {
      var dx, dy, c := xy[s].x - here.x, xy[s].y - here.y, cosLat(here.y);
      (dx * dx * (c * c) + dy * dy) / Benefit(compSegs, if s in startToComp then startToComp[s] else -1)
    }

    /** No eligible target scores below `best`. */
    ghost predicate LeastScore(targets: set<Node>, here: Point, best: Node)
      requires best in xy
      reads this`compSegs
    {
      forall k {:trigger Recall(Jumps, k)} :: Recall(Jumps, k) ==>
        forall s :: s in targets && Landing(p, xy, s) ==> JumpScore(here, best) <= JumpScore(here, s)
    }

    /** The best-scored eligible target. */
    method FindBestStart(targets: set<Node>, here: Point) returns (r: Option<Node>)
      ensures r.None? <==> forall s :: s in targets ==> !Landing(p, xy, s)
      ensures r.Some? ==> r.value in targets && Landing(p, xy, r.value)
      ensures r.Some? ==> LeastScore(targets, here, r.value)
    {
      r := None;
      var left := targets;
      while left != {}
        invariant left <= targets
        invariant r.Some? ==> r.value in targets && Landing(p, xy, r.value)
        invariant forall s :: s in targets && s !in left && Landing(p, xy, s) ==>
                    r.Some? && JumpScore(here, r.value) <= JumpScore(here, s)
        decreases left
      {
        var s := Pick(left);
        left := left - {s};
        WaysOut(p.net, s);
        if Eligible(s) && (r.None? || JumpScore(here, s) < JumpScore(here, r.value)) {
          r := Some(s);
        }
      }
    }

    /** Puts the vehicle down at the best-scored eligible target. */
    method TeleportToBestStart(targets: set<Node>) returns (r: Option<Node>)
      requires Valid()
      modifies this`current, this`teleports, this`teleportPairs
      ensures Valid()
      ensures r.None? <==> !old(CanJump(targets))
      ensures r.None? ==> current == old(current) && teleports == old(teleports)
      ensures r.Some? ==> r.value in targets && Landing(p, xy, r.value) && current == r.value && teleports == old(teleports) + 1
      ensures r.Some? ==> LeastScore(targets, xy[old(current)], r.value)
    {
      r := None;
      if current in xy {
        r := FindBestStart(targets, xy[current]);
        if r.Some? {
          Jump(r.value);
        }
      }
    }

    /** The score read off the counters is that of the problem. */
    lemma JumpFromProblem(targets: set<Node>, from: Node, best: Node)
      requires Static() && Indexed() && targets <= globalTargets && from in xy && best in targets && Landing(p, xy, best)
      requires LeastScore(targets, xy[from], best)
      ensures LeastJump(p, xy, cosLat, unvisited, targets, from, best)
    {
      assert Recall(Jumps, 0);
      forall s | s in targets && Landing(p, xy, s)
        ensures JumpScore(xy[from], s) == JumpCost(p, xy, cosLat, unvisited, xy[from], s)
      {
        WorkAt(s);
      }
    }

    /** Puts the vehicle down somewhere else. */
    method Jump(to: Node)
      requires Routed(current) && to in p.net.nodes && current in xy && to in xy
      modifies this`current, this`teleports, this`teleportPairs
      ensures Routed(current) && current == to && teleports == old(teleports) + 1
      ensures teleportPairs == old(teleportPairs) + [(xy[old(current)], xy[to])]
    {
      ContinueJump(startNode, routeEdges, current, to, teleports);
      teleportPairs := teleportPairs + [(xy[current], xy[to])];
      teleports := teleports + 1;
      current := to;
    }

    /** Drives to the best-scored target, or jumps to one if none can be reached. */
    method Approach(targets: set<Node>, score: (Node, real) -> real) returns (reached: Option<Node>)
      requires Valid() && targets <= globalTargets
      modifies this`unvisited, this`startCounts, this`globalTargets, this`compTargets, this`compReqs, this`compSegs,
               this`completed, this`opportunistic, this`geoCache, this`routeCoords, this`routeEdges,
               this`services, this`positions, this`serviceDist, this`totalDist, this`deadheadDist, this`current,
               this`teleports, this`teleportPairs
      ensures Valid() && unvisited <= old(unvisited)
      ensures reached.None? ==>
                !old(CanJump(targets)) && unvisited == old(unvisited) && current == old(current) && teleports == old(teleports)
      ensures reached.Some? ==> reached.value in targets && current == reached.value && reached.value in startToComp
      ensures reached.Some? && unvisited == old(unvisited) ==> Primed(Some(startToComp[reached.value]))
      ensures reached.Some? && unvisited == {} ==> EndsOnService(services, routeEdges, current)
      ensures teleports != old(teleports) ==> OutOfReach(p.net, old(current), targets)
      ensures reached.Some? && teleports == old(teleports) ==>
                RoadTaken(p.net, old(current), targets, score, current, old(routeEdges), routeEdges)
      ensures teleports != old(teleports) ==> LeastJump(p, xy, cosLat, old(unvisited), targets, old(current), current)
      ensures ReachesAll(p) ==> teleports == old(teleports)
    {
      InNet();
      var found := FindRoad(p.net, current, targets, score);
      if found.Some? {
        var target := found.value.node;
        ghost var r := TargetHasPending(target);
        TakeRoad(p.net, current, targets, score, found.value, routeEdges);
        TraversePath(found.value.path, target, r);
        reached := Some(target);
      } else {
        reached := TeleportFrom(targets);
      }
    }

    /** Jumps to one of the targets, none of which can be reached. */
    method TeleportFrom(targets: set<Node>) returns (reached: Option<Node>)
      requires Valid() && targets <= globalTargets && OutOfReach(p.net, current, targets)
      modifies this`current, this`teleports, this`teleportPairs
      ensures Valid()
      ensures reached.None? ==> !old(CanJump(targets)) && current == old(current) && teleports == old(teleports)
      ensures reached.Some? ==> teleports == old(teleports) + 1
      ensures reached.Some? ==> reached.value in targets && current == reached.value && reached.value in startToComp
      ensures reached.Some? ==> LeastJump(p, xy, cosLat, unvisited, targets, old(current), current)
      ensures reached.Some? ==> Primed(Some(startToComp[reached.value])) && unvisited != {}
      ensures ReachesAll(p) ==> teleports == old(teleports)
    {
      ghost var here := current;
      reached := TeleportToBestStart(targets);
      if reached.Some? {
        ghost var r := TargetHasPending(reached.value);
        NoJump(here, targets, reached.value, r);
        JumpFromProblem(targets, here, reached.value);
      }
    }

    lemma NoJump(here: Node, targets: set<Node>, t: Node, r: ReqId)
      requires OutOfReach(p.net, here, targets) && here in p.net.nodes && t in targets
      requires r in p.options && t in p.Starts(r)
      ensures !ReachesAll(p)
    {
      assert Recall(Reach, 0);
      assert r in p.options.Keys && t in p.AllStarts();
    }

    /** Component targets are targets, labelled with their component. */
    lemma CompTargetsAreTargets(c: int)
      requires Static() && Indexed()
      ensures SetAt(compTargets, c) <= globalTargets
      ensures forall s :: s in SetAt(compTargets, c) ==> s in startToComp && startToComp[s] == c
    {
      forall s | s in SetAt(compTargets, c)
        ensures s in globalTargets && s in startToComp && startToComp[s] == c
      {
        var r := CompTargetHasPending(c, s);
        var e :| e in p.options[r] && e.u == s;
        StartKnown(r, e);
        assert s in globalTargets by { assert Recall(Targets, 0); }
      }
    }

    // ----- One iteration ------------------------------------------------------------------------

    /** An open requirement of the active component starts right here. */
    ghost predicate Primed(active: Option<int>)
      reads this`unvisited, this`current
    {
      exists r :: r in unvisited && r in p.options && current in p.Starts(r) && active == Some(p.Comp(r))
    }

    /** If everything has been served, the route ends with the last service. */
    ghost predicate Closed()
      reads this`unvisited, this`skipped, this`services, this`routeEdges, this`current
    {
      p.order != [] && unvisited == {} && skipped == {} ==> EndsOnService(services, routeEdges, current)
    }

    /** Keeps the active component while it has open requirements, else moves to another one. */
    method PickGlobalTargetComponent(active: Option<int>) returns (next: Option<int>, again: bool)
      requires Valid() && unvisited != {}
      modifies this`unvisited, this`startCounts, this`globalTargets, this`compTargets, this`compReqs, this`compSegs,
               this`completed, this`opportunistic, this`geoCache, this`routeCoords, this`routeEdges,
               this`services, this`positions, this`serviceDist, this`totalDist, this`deadheadDist, this`current,
               this`teleports, this`teleportPairs, this`skipped
      ensures Valid() && Closed() && unvisited <= old(unvisited)
      ensures again <==> !(active.Some? && old(CountAt(compReqs, active.value)) > 0)
      ensures !again ==> next == active && current == old(current) && unvisited == old(unvisited)
                         && skipped == old(skipped) && compReqs == old(compReqs)
                         && routeEdges == old(routeEdges) && teleports == old(teleports)
      ensures old(CanJump(globalTargets)) ==>
                && skipped == old(skipped)
                && (again && unvisited == old(unvisited) ==> Primed(next))
      ensures teleports != old(teleports) ==> OutOfReach(p.net, old(current), old(globalTargets))
      ensures again && next.Some? && teleports == old(teleports) ==>
                RoadTaken(p.net, old(current), p.StartsOf(old(unvisited)), WorkScore(p, old(unvisited)), current,
                          old(routeEdges), routeEdges)
      ensures teleports != old(teleports) ==>
                LeastJump(p, xy, cosLat, old(unvisited), p.StartsOf(old(unvisited)), old(current), current)
      ensures again && next.None? ==> unvisited == {} && skipped == old(skipped) + old(unvisited) && teleports == old(teleports)
      ensures again && next.Some? ==> skipped == old(skipped)
      ensures ReachesAll(p) ==> teleports == old(teleports)
    {
      if active.Some? && CountAt(compReqs, active.value) > 0 {
        next, again := active, false;
      } else {
        again := true;
        next := MoveToAnyTarget();
      }
    }

    /** Approaches the target that scores best by the work in its component. */
    method ApproachAny() returns (target: Option<Node>)
      requires Valid()
      modifies this`unvisited, this`startCounts, this`globalTargets, this`compTargets, this`compReqs, this`compSegs,
               this`completed, this`opportunistic, this`geoCache, this`routeCoords, this`routeEdges,
               this`services, this`positions, this`serviceDist, this`totalDist, this`deadheadDist, this`current,
               this`teleports, this`teleportPairs
      ensures Valid() && unvisited <= old(unvisited)
      ensures target.None? ==> !old(CanJump(globalTargets)) && unvisited == old(unvisited) && teleports == old(teleports)
      ensures target.Some? ==> current == target.value && target.value in startToComp
      ensures target.Some? && unvisited == old(unvisited) ==> Primed(Some(startToComp[target.value]))
      ensures target.Some? && unvisited == {} ==> EndsOnService(services, routeEdges, current)
      ensures teleports != old(teleports) ==> OutOfReach(p.net, old(current), old(globalTargets))
      ensures target.Some? && teleports == old(teleports) ==>
                RoadTaken(p.net, old(current), p.StartsOf(old(unvisited)), WorkScore(p, old(unvisited)), current,
                          old(routeEdges), routeEdges)
      ensures teleports != old(teleports) ==>
                LeastJump(p, xy, cosLat, old(unvisited), p.StartsOf(old(unvisited)), old(current), current)
      ensures ReachesAll(p) ==> teleports == old(teleports)
    {
      var comps, segs, targets := startToComp, compSegs, globalTargets;
      var score := (node: Node, d: real) => d / Benefit(segs, if node in comps then comps[node] else -1);
      WorkIsScored(score);
      target := Approach(targets, score);
      if target.Some? && teleports == old(teleports) {
        SameScore(p.net, old(current), targets, score, WorkScore(p, old(unvisited)), current, old(routeEdges), routeEdges);
      }
    }

    /** The score read off the counters is the score of the problem. */
    lemma WorkIsScored(score: (Node, real) -> real)
      requires Static() && Indexed()
      requires forall t, d :: score(t, d) == d / Benefit(compSegs, if t in startToComp then startToComp[t] else -1)
      ensures globalTargets == p.StartsOf(unvisited)
      ensures forall t, d :: t in globalTargets ==> score(t, d) == WorkScore(p, unvisited)(t, d)
    {
      assert Recall(Targets, 0);
      forall t, d | t in globalTargets
        ensures score(t, d) == WorkScore(p, unvisited)(t, d)
      {
        WorkAt(t);
      }
    }

    lemma WorkAt(t: Node)
      requires Static() && Indexed() && t in globalTargets
      ensures Benefit(compSegs, if t in startToComp then startToComp[t] else -1)
              == AtLeastOne(p.SegmentSum(p.In(unvisited, CompOf(p.net, t))))
    {
      var r := TargetHasPending(t);
      Known(r);
      assert Recall(Comps, 0);
      assert CountAt(compSegs, p.Comp(r)) == p.SegmentSum(p.In(unvisited, p.Comp(r)));
    }

    lemma StartsAreScored(active: int, score: (Node, real) -> real)
      requires Static() && Indexed()
      requires forall t, d :: score(t, d) == d / Benefit(startCounts, t)
      ensures SetAt(compTargets, active) == p.StartsOf(p.In(unvisited, active))
      ensures forall t, d :: score(t, d) == StartScore(p, unvisited)(t, d)
    {
      assert SetAt(compTargets, active) == p.StartsOf(p.In(unvisited, active)) by {
        assert Recall(Targets, 0);
      }
      forall t, d
        ensures score(t, d) == StartScore(p, unvisited)(t, d)
      {
        StartsCounted(t);
      }
    }

    lemma StartsCounted(t: Node)
      requires Indexed()
      ensures CountAt(startCounts, t) == |p.At(unvisited, t)|
    {
      assert Recall(Targets, 0);
    }

    /** Drives or jumps to any target, or gives everything up. */
    method MoveToAnyTarget() returns (next: Option<int>)
      requires Valid() && unvisited != {}
      modifies this`unvisited, this`startCounts, this`globalTargets, this`compTargets, this`compReqs, this`compSegs,
               this`completed, this`opportunistic, this`geoCache, this`routeCoords, this`routeEdges,
               this`services, this`positions, this`serviceDist, this`totalDist, this`deadheadDist, this`current,
               this`teleports, this`teleportPairs, this`skipped
      ensures Valid() && Closed() && unvisited <= old(unvisited)
      ensures old(CanJump(globalTargets)) ==>
                skipped == old(skipped) && (unvisited == old(unvisited) ==> Primed(next))
      ensures teleports != old(teleports) ==> OutOfReach(p.net, old(current), old(globalTargets))
      ensures next.Some? && teleports == old(teleports) ==>
                RoadTaken(p.net, old(current), p.StartsOf(old(unvisited)), WorkScore(p, old(unvisited)), current,
                          old(routeEdges), routeEdges)
      ensures teleports != old(teleports) ==>
                LeastJump(p, xy, cosLat, old(unvisited), p.StartsOf(old(unvisited)), old(current), current)
      ensures next.None? ==> unvisited == {} && skipped == old(skipped) + old(unvisited) && teleports == old(teleports)
      ensures next.Some? ==> skipped == old(skipped)
      ensures ReachesAll(p) ==> teleports == old(teleports)
    {
      var target: Option<Node> := None;
      if globalTargets != {} {
        target := ApproachAny();
      }
      if target.None? {
        next := None;
        SkipAll(unvisited);
      } else {
        next := Some(startToComp[target.value]);
      }
    }

    /** Serves the best-ranked open requirement of the active component that starts here, if there is one. */
    method TryServiceAdjacentRequirement(active: int) returns (ok: bool)
      requires Valid()
      modifies this`unvisited, this`startCounts, this`globalTargets, this`compTargets, this`compReqs, this`compSegs,
               this`completed, this`opportunistic, this`geoCache, this`routeCoords, this`routeEdges,
               this`services, this`positions, this`serviceDist, this`totalDist, this`deadheadDist, this`current
      ensures Valid() && unvisited <= old(unvisited)
      ensures ok <==> old(Primed(Some(active)))
      ensures !ok ==> unvisited == old(unvisited) && current == old(current) && compReqs == old(compReqs)
                      && compTargets == old(compTargets) && routeEdges == old(routeEdges)
      ensures ok ==> Closed()
      ensures opportunistic == old(opportunistic)
      ensures ok ==> TookBest(p, old(unvisited), old(current), active, old(routeEdges), routeEdges)
      ensures ok && unvisited == old(unvisited) ==> Detour(old(current), active)
    {
      var here := SetAt(startToRids, current);
      var candidates := set r | r in here && r in unvisited && r in reqToComp && reqToComp[r] == active;
      CandidatesArePending(active, candidates);
      ok := candidates != {};
      if ok {
        var chosen, edge := ChooseAdjacent(active, candidates);
        ghost var open := unvisited;
        FollowEdge(edge, false, chosen);
        if unvisited == open {
          NotItsOwn(chosen, edge);
          assert DetourOver(p, unvisited, old(current), current, active, chosen, edge);
        }
      }
    }

    /** The vehicle has come over an option of an open requirement that belongs to another one. */
    ghost predicate Detour(from: Node, active: int)
      reads this`unvisited, this`current
    {
      exists r, e :: DetourOver(p, unvisited, from, current, active, r, e)
    }

    lemma NotItsOwn(rid: ReqId, edge: EdgeRef)
      requires Static() && rid in p.options && edge in p.options[rid] && rid in unvisited && !Completes(edge)
      ensures !Owns(p, rid, edge)
    {
      assert Recall(Owners, 0);
    }

    /** The candidate that ranks first, with the edge that serves it. */
    method ChooseAdjacent(active: int, candidates: set<ReqId>) returns (chosen: ReqId, edge: EdgeRef)
      requires Static() && Indexed() && candidates != {}
      requires forall r :: r in candidates <==> r in unvisited && r in p.options && current in p.Starts(r) && p.Comp(r) == active
      ensures chosen in candidates && edge in p.options[chosen] && edge.u == current && edge in p.net.edges
      ensures TookBest(p, unvisited, current, active, routeEdges, routeEdges + [edge])
    {
      chosen := Pick(candidates);
      var best := RankCandidate(chosen);
      var left := candidates - {chosen};
      while left != {}
        invariant left <= candidates && chosen in candidates && best == RankOf(p, unvisited, current, chosen)
        invariant forall r :: r in candidates && r !in left ==> RanksNoLower(best, RankOf(p, unvisited, current, r))
        decreases left
      {
        var r := Pick(left);
        left := left - {r};
        var rank := RankCandidate(r);
        if !Prefers(best, rank) {
          chosen, best := r, rank;
        }
      }
      edge := BestServiceEdgeFromStart(chosen);
      FirstRanked(active, candidates, chosen, edge);
    }

    lemma FirstRanked(active: int, candidates: set<ReqId>, chosen: ReqId, edge: EdgeRef)
      requires chosen in candidates && chosen in p.options && Some(edge) == ServiceEdge(p.net, p.options[chosen], current)
      requires forall r :: r in candidates <==> r in unvisited && r in p.options && current in p.Starts(r) && p.Comp(r) == active
      requires forall r :: r in candidates ==>
                 RanksNoLower(RankOf(p, unvisited, current, chosen), RankOf(p, unvisited, current, r))
      ensures TookBest(p, unvisited, current, active, routeEdges, routeEdges + [edge])
    {
      assert BestChoice(p, unvisited, current, active, routeEdges, routeEdges + [edge], chosen);
    }

    /** How good it is to serve `rid` next. */
    method RankCandidate(rid: ReqId) returns (rank: Rank)
      requires Static() && Indexed() && rid in p.options && current in p.Starts(rid)
      ensures rank == RankOf(p, unvisited, current, rid)
    {
      var edge := BestServiceEdgeFromStart(rid);
      var ahead := LookAhead(edge.v);
      StartsCounted(edge.v);
      rank := Rank(p.Segments(rid), ahead, p.net.EdgeLength(edge), CountAt(startCounts, edge.v));
    }

    /** Counts the open starts at a node and at those one edge further, in two hops. */
    method LookAhead(next: Node) returns (count: nat)
      requires Static()
      ensures count == |StartsNear(p, unvisited, Near(p.net, next))|
    {
      count := 0;
      var seen, frontier := {next}, {next};
      ghost var counted: set<Node> := {};
      assert StartsNear(p, unvisited, counted) == {};
      for hop := 0 to 2
        invariant count == |StartsNear(p, unvisited, counted)| && Hopped(p.net, next, hop, seen, frontier, counted)
      {
        var more := CountStarts(frontier);
        var heads := set e | e in p.net.edges && e.u in frontier :: e.v;
        HopStep(p.net, next, hop, seen, frontier, counted, heads);
        StartsNearSplit(p, unvisited, counted, frontier);
        count, counted := count + more, counted + frontier;
        frontier, seen := heads - seen, seen + heads;
      }
      HopsDone(p.net, next, seen, frontier, counted);
    }

    /** The open starts at the given nodes. */
    method CountStarts(nodes: set<Node>) returns (count: nat)
      requires Static()
      ensures count == |StartsNear(p, unvisited, nodes)|
    {
      count := 0;
      var left := nodes;
      assert StartsNear(p, unvisited, {}) == {} && nodes - left == {};
      while left != {}
        invariant left <= nodes && count == |StartsNear(p, unvisited, nodes - left)|
        decreases left
      {
        var v := Pick(left);
        var here := set r | r in SetAt(startToRids, v) && r in unvisited;
        StartsAt(v, here);
        StartsNearSplit(p, unvisited, nodes - left, {v});
        assert nodes - (left - {v}) == nodes - left + {v};
        left := left - {v};
        count := count + |here|;
      }
      assert nodes - left == nodes;
    }

    lemma StartsAt(v: Node, here: set<ReqId>)
      requires Static() && here == set r | r in SetAt(startToRids, v) && r in unvisited
      ensures |StartsNear(p, unvisited, {v})| == |here|
    {
      assert Recall(Labels, 0);
      assert SetAt(startToRids, v) == p.At(p.options.Keys, v);
      assert here == p.At(unvisited, v);
      PairsCount(StartsNear(p, unvisited, {v}), v, here);
    }

    lemma CandidatesArePending(active: int, candidates: set<ReqId>)
      requires Static() && unvisited <= p.options.Keys
      requires candidates == set r | r in SetAt(startToRids, current) && r in unvisited && r in reqToComp && reqToComp[r] == active
      ensures forall r :: r in candidates <==> r in unvisited && r in p.options && current in p.Starts(r) && p.Comp(r) == active
      ensures Primed(Some(active)) <==> candidates != {}
    {
      assert Recall(Labels, 0);
      forall r | r in unvisited
        ensures r in candidates <==> current in p.Starts(r) && p.Comp(r) == active
      {
        assert r in SetAt(startToRids, current) <==> r in p.At(p.options.Keys, current);
      }
    }

    /** The shortest option of `rid` that starts here. */
    method BestServiceEdgeFromStart(rid: ReqId) returns (edge: EdgeRef)
      requires Static() && rid in p.options && current in p.Starts(rid)
      ensures edge in p.options[rid] && edge.u == current && edge in p.net.edges
      ensures forall e :: e in p.options[rid] && e.u == current ==> p.net.EdgeLength(edge) <= p.net.EdgeLength(e)
      ensures Some(edge) == ServiceEdge(p.net, p.options[rid], current)
    {
      var options := p.options[rid];
      var best: Option<EdgeRef> := None;
      for i := 0 to |options|
        invariant best == ServiceEdge(p.net, options[..i], current)
      {
        assert options[..i + 1][..i] == options[..i];
        if options[i].u == current && (best.None? || p.net.EdgeLength(options[i]) < p.net.EdgeLength(best.value)) {
          best := Some(options[i]);
        }
      }
      assert options[..|options|] == options;
      ServiceEdgeIsShortest(p.net, options, current);
      edge := best.value;
      OptionsInNet(rid, edge);
    }

    lemma OptionsInNet(rid: ReqId, edge: EdgeRef)
      requires Static() && rid in p.options && edge in p.options[rid]
      ensures edge in p.net.edges
    {
      assert Recall(Statics, 0);
    }

    lemma InNet()
      requires Static()
      ensures p.net.EdgesClosed()
    {
      assert Recall(Statics, 0);
    }

    /** Drives or jumps to a start in the active component, or gives the component up. */
    method MoveWithinComponentOrSkip(active: int) returns (next: Option<int>)
      requires Valid() && unvisited != {}
      modifies this`unvisited, this`startCounts, this`globalTargets, this`compTargets, this`compReqs, this`compSegs,
               this`completed, this`opportunistic, this`geoCache, this`routeCoords, this`routeEdges,
               this`services, this`positions, this`serviceDist, this`totalDist, this`deadheadDist, this`current,
               this`teleports, this`teleportPairs, this`skipped
      ensures Valid() && Closed() && unvisited <= old(unvisited)
      ensures old(CanJump(SetAt(compTargets, active))) ==>
                skipped == old(skipped) && (unvisited == old(unvisited) ==> Primed(next))
      ensures teleports != old(teleports) ==> OutOfReach(p.net, old(current), old(SetAt(compTargets, active)))
      ensures next.Some? && teleports == old(teleports) ==>
                RoadTaken(p.net, old(current), p.StartsOf(p.In(old(unvisited), active)), StartScore(p, old(unvisited)), current,
                          old(routeEdges), routeEdges)
      ensures teleports != old(teleports) ==>
                LeastJump(p, xy, cosLat, old(unvisited), p.StartsOf(p.In(old(unvisited), active)), old(current), current)
      ensures next.None? ==> GaveUp(p, active, old(unvisited), old(skipped), unvisited, skipped) && teleports == old(teleports)
      ensures next.Some? ==> next.value == active && skipped == old(skipped)
      ensures ReachesAll(p) ==> teleports == old(teleports)
    {
      next := None;
      OpenIn(active);
      if SetAt(compTargets, active) != {} {
        var target := ApproachWithin(active);
        if target.Some? {
          next := Some(active);
        } else {
          GiveUp(active);
        }
      }
    }

    /** Approaches the start in the component that scores best by the requirements that start there. */
    method ApproachWithin(active: int) returns (target: Option<Node>)
      requires Valid()
      modifies this`unvisited, this`startCounts, this`globalTargets, this`compTargets, this`compReqs, this`compSegs,
               this`completed, this`opportunistic, this`geoCache, this`routeCoords, this`routeEdges,
               this`services, this`positions, this`serviceDist, this`totalDist, this`deadheadDist, this`current,
               this`teleports, this`teleportPairs
      ensures Valid() && unvisited <= old(unvisited)
      ensures target.None? ==>
                !old(CanJump(SetAt(compTargets, active))) && unvisited == old(unvisited) && teleports == old(teleports)
      ensures target.Some? && unvisited == old(unvisited) ==> Primed(Some(active))
      ensures target.Some? && unvisited == {} ==> EndsOnService(services, routeEdges, current)
      ensures teleports != old(teleports) ==> OutOfReach(p.net, old(current), old(SetAt(compTargets, active)))
      ensures target.Some? && teleports == old(teleports) ==>
                RoadTaken(p.net, old(current), p.StartsOf(p.In(old(unvisited), active)), StartScore(p, old(unvisited)), current,
                          old(routeEdges), routeEdges)
      ensures teleports != old(teleports) ==>
                LeastJump(p, xy, cosLat, old(unvisited), p.StartsOf(p.In(old(unvisited), active)), old(current), current)
      ensures ReachesAll(p) ==> teleports == old(teleports)
    {
      CompTargetsAreTargets(active);
      var counts, targets := startCounts, SetAt(compTargets, active);
      var score := (node: Node, d: real) => d / Benefit(counts, node);
      StartsAreScored(active, score);
      target := Approach(targets, score);
      if target.Some? && teleports == old(teleports) {
        SameScore(p.net, old(current), targets, score, StartScore(p, old(unvisited)), current, old(routeEdges), routeEdges);
      }
    }

    /** The labels tell what is open in a component, and something is exactly if it has targets. */
    lemma OpenIn(active: int)
      requires Static() && Indexed() && Ledger()
      ensures p.In(unvisited, active) == set r | r in unvisited && r in reqToComp && reqToComp[r] == active
      ensures SetAt(compTargets, active) == {} ==> GaveUp(p, active, unvisited, skipped, unvisited, skipped)
    {
      forall r | r in unvisited
        ensures r in p.options && r in reqToComp && reqToComp[r] == p.Comp(r)
      {
        Known(r);
      }
      if r :| r in p.In(unvisited, active) {
        var s := PendingIsTarget(r);
      }
    }

    /** Skips what is still open in a component. */
    method GiveUp(active: int)
      requires Valid() && unvisited != {}
      modifies this`unvisited, this`startCounts, this`globalTargets, this`compTargets, this`compReqs, this`compSegs,
               this`skipped
      ensures Valid() && Closed() && unvisited <= old(unvisited)
      ensures GaveUp(p, active, old(unvisited), old(skipped), unvisited, skipped)
    {
      OpenIn(active);
      var lost := set r | r in unvisited && r in reqToComp && reqToComp[r] == active;
      if lost != {} {
        SkipAll(lost);
      }
    }

    // ----- The whole run ------------------------------------------------------------------------

    /**
     The iterations spent so far and `top + 2` for each open requirement fit in `top + 2` for each
     requirement. Where one of the active component starts, there is time to come down from here.
     */
    ghost predicate OnBudget(active: Option<int>, height: Node -> nat, top: nat)
      reads this`unvisited, this`current, this`iterations
    {
      iterations + Units(top, |unvisited|) <= Units(top, |p.order|) + Credit(active, height, top)
    }

    ghost function Credit(active: Option<int>, height: Node -> nat, top: nat): int
      reads this`unvisited, this`current
    {
      if Primed(active) then top + 1 - height(current) else 0
    }

    lemma OpenIffCounted(active: Option<int>) returns (open: bool)
      requires Indexed()
      ensures open == (active.Some? && CountAt(compReqs, active.value) > 0) == StillOpen(p, unvisited, active)
    {
      open := active.Some? && CountAt(compReqs, active.value) > 0;
      if active.Some? {
        assert Recall(Comps, 0);
        assert CountAt(compReqs, active.value) == |p.In(unvisited, active.value)|;
      }
    }

    /** A component is primed only while it has open requirements. */
    lemma PrimedIsOpen(active: Option<int>)
      requires Indexed() && Primed(active)
      ensures active.Some? && CountAt(compReqs, active.value) > 0
    {
      var r :| r in unvisited && r in p.options && current in p.Starts(r) && active == Some(p.Comp(r));
      CompIsOpen(r);
    }

    /** One iteration of the loop: it serves something, or comes to where something starts, or makes a detour. */
    method Iterate(active: Option<int>) returns (next: Option<int>)
      requires Valid() && unvisited != {}
      modifies this`unvisited, this`startCounts, this`globalTargets, this`compTargets, this`compReqs, this`compSegs,
               this`completed, this`opportunistic, this`geoCache, this`routeCoords, this`routeEdges,
               this`services, this`positions, this`serviceDist, this`totalDist, this`deadheadDist, this`current,
               this`teleports, this`teleportPairs, this`skipped
      ensures Valid() && Closed() && unvisited <= old(unvisited)
      ensures Placed() ==> skipped == old(skipped)
      ensures Placed() && unvisited == old(unvisited) ==>
                || (Primed(next) && !old(Primed(active)))
                || (next == active && active.Some? && old(Primed(active)) && Detour(old(current), active.value))
      ensures GreedyStep(p, xy, cosLat, old(Snapshot(active)), Snapshot(next))
      ensures ReachesAll(p) ==> teleports == old(teleports)
    {
      ghost var wasPrimed := Primed(active);
      ghost var r := ReqId({});
      r :| r in unvisited;
      if wasPrimed { PrimedIsOpen(active); }
      ghost var snap := Snapshot(active);
      ghost var open := OpenIffCounted(active);
      ReadyIsPrimed(active);
      if Placed() { PlacedCanJump(r); }
      var again;
      next, again := PickGlobalTargetComponent(active);
      if again {
        StepAnywhere(p, xy, cosLat, snap, Snapshot(next));
      } else {
        next := WorkIn(active.value);
        StepWithin(p, xy, cosLat, snap, Snapshot(next));
      }
    }

    lemma ReadyIsPrimed(active: Option<int>)
      ensures Ready(p, Snapshot(active)) <==> Primed(active)
    {
      if Ready(p, Snapshot(active)) {
        var r :| Adjacent(p, unvisited, current, active.value, r);
      }
      if Primed(active) {
        var r :| r in unvisited && r in p.options && current in p.Starts(r) && active == Some(p.Comp(r));
        assert Adjacent(p, unvisited, current, active.value, r);
      }
    }

    /** What the choices of the loop depend on, and the route they have made. */
    ghost function Snapshot(active: Option<int>): Snap
      reads this`unvisited, this`current, this`routeEdges, this`teleports, this`skipped
    {
      Snap(active, unvisited, current, routeEdges, teleports, skipped)
    }

    /** Serves something of the active component that starts here, or moves to where something does. */
    method WorkIn(active: int) returns (next: Option<int>)
      requires Valid() && unvisited != {} && CountAt(compReqs, active) > 0
      modifies this`unvisited, this`startCounts, this`globalTargets, this`compTargets, this`compReqs, this`compSegs,
               this`completed, this`opportunistic, this`geoCache, this`routeCoords, this`routeEdges,
               this`services, this`positions, this`serviceDist, this`totalDist, this`deadheadDist, this`current,
               this`teleports, this`teleportPairs, this`skipped
      ensures Valid() && Closed() && unvisited <= old(unvisited)
      ensures Placed() ==> skipped == old(skipped)
      ensures Placed() && unvisited == old(unvisited) ==>
                || (Primed(next) && !old(Primed(Some(active))))
                || (next == Some(active) && old(Primed(Some(active))) && Detour(old(current), active))
      ensures old(Primed(Some(active))) ==>
                TookBest(p, old(unvisited), old(current), active, old(routeEdges), routeEdges)
      ensures !old(Primed(Some(active))) && next.Some? && teleports == old(teleports) ==>
                RoadTaken(p.net, old(current), p.StartsOf(p.In(old(unvisited), active)), StartScore(p, old(unvisited)), current,
                          old(routeEdges), routeEdges)
      ensures teleports != old(teleports) ==>
                LeastJump(p, xy, cosLat, old(unvisited), p.StartsOf(p.In(old(unvisited), active)), old(current), current)
      ensures next.None? ==> GaveUp(p, active, old(unvisited), old(skipped), unvisited, skipped) && teleports == old(teleports)
      ensures next.Some? ==> skipped == old(skipped)
      ensures old(Primed(Some(active))) ==> next.Some? && teleports == old(teleports)
      ensures ReachesAll(p) ==> teleports == old(teleports)
    {
      ghost var r := OpenComp(active);
      if Placed() { PlacedCanJump(r); }
      var served := TryServiceAdjacentRequirement(active);
      next := Some(active);
      if !served {
        next := MoveWithinComponentOrSkip(active);
      }
    }

    /** On a detour the way leads down, to where the same requirement still starts. */
    lemma DetourLeadsDown(from: Node, active: int, height: Node -> nat, top: nat)
      requires Detour(from, active) && Graded(p, height, top)
      ensures Primed(Some(active)) && height(current) < height(from)
    {
      var r, e :| DetourOver(p, unvisited, from, current, active, r, e);
    }

    /** An iteration that serves nothing adds to the credit. */
    lemma CreditGrows(from: Node, was: Option<int>, credit: int, active: Option<int>, height: Node -> nat, top: nat)
      requires Graded(p, height, top) && credit <= top + 1 - height(from)
      requires (Primed(active) && credit == 0) || (active == was && was.Some? && Detour(from, was.value))
      ensures Credit(active, height, top) > credit
    {
      if !(Primed(active) && credit == 0) {
        DetourLeadsDown(from, was.value, height, top);
      }
    }

    /** One counted iteration stays on budget. */
    method CountedIteration(active: Option<int>, ghost height: Node -> nat, ghost top: nat) returns (next: Option<int>)
      requires Valid() && unvisited != {}
      modifies this`unvisited, this`startCounts, this`globalTargets, this`compTargets, this`compReqs, this`compSegs,
               this`completed, this`opportunistic, this`geoCache, this`routeCoords, this`routeEdges,
               this`services, this`positions, this`serviceDist, this`totalDist, this`deadheadDist, this`current,
               this`teleports, this`teleportPairs, this`skipped, this`iterations
      ensures Valid() && Closed() && iterations == old(iterations) + 1
      ensures GreedyStep(p, xy, cosLat, old(Snapshot(active)), Snapshot(next))
      ensures Placed() ==> skipped == old(skipped)
      ensures Placed() && Graded(p, height, top) && old(OnBudget(active, height, top)) ==> OnBudget(next, height, top)
      ensures ReachesAll(p) ==> teleports == old(teleports)
    {
      ghost var before, from, credit := unvisited, current, Credit(active, height, top);
      ghost var snap := Snapshot(active);
      iterations := iterations + 1;
      assert snap == Snapshot(active);
      next := Iterate(active);
      SubsetCount(unvisited, before);
      if Placed() && Graded(p, height, top) && old(OnBudget(active, height, top)) {
        if unvisited == before {
          CreditGrows(from, active, credit, next, height, top);
        }
        assert 0 <= Credit(next, height, top);
        StayOnBudget(top, iterations - 1, |before|, credit, |unvisited|, Credit(next, height, top), |p.order|);
      }
    }

    method RunGreedyIterations(maxIterations: nat, ghost height: Node -> nat, ghost top: nat) returns (ghost run: seq<Snap>)
      requires Valid() && Closed() && iterations == 0 && unvisited == p.options.Keys && skipped == {}
      modifies this
      ensures Valid() && Closed() && iterations <= maxIterations
      ensures Ran(p, xy, cosLat, run, old(Snapshot(None)), iterations, routeEdges, teleports)
      ensures unvisited == run[iterations].open && (unvisited == {} || iterations == maxIterations)
      ensures Placed() && Graded(p, height, top) && maxIterations >= Units(top, |p.order|) ==>
                unvisited == {} && skipped == {} && iterations <= Units(top, |p.order|)
      ensures ReachesAll(p) ==> teleports == old(teleports)
    {
      var active: Option<int> := None;
      run := [Snapshot(active)];
      AsManyAsListed();
      while unvisited != {} && iterations < maxIterations
        invariant Valid() && Closed() && iterations <= maxIterations
        invariant Ran(p, xy, cosLat, run, old(Snapshot(None)), iterations, routeEdges, teleports)
        invariant run[iterations] == Snapshot(active)
        invariant Placed() && Graded(p, height, top) ==> skipped == {} && OnBudget(active, height, top)
        invariant ReachesAll(p) ==> teleports == old(teleports)
        decreases maxIterations - iterations
      {
        active := CountedIteration(active, height, top);
        OneMoreStep(p, xy, cosLat, run, run[0], iterations - 1, Snapshot(active));
        run := run + [Snapshot(active)];
      }
      if unvisited != {} {
        SomeLeft(unvisited);
        UnitsGrow(top, 0, |unvisited|);
      }
    }

    function Report(requiredDist: real): Solution
      reads this
    {
      Solution(routeCoords,
               Stats(totalDist, serviceDist, deadheadDist, requiredDist, |p.order|, completed, |skipped|, opportunistic,
                     teleports, iterations),
               routeEdges, services)
    }

    lemma ReportIsSound(requiredDist: real)
      requires Valid() && unvisited == {} && requiredDist == RequiredDistance(p)
      ensures Sound(p, startNode, Report(requiredDist))
      ensures skipped == {} ==> Rids(services) == p.options.Keys
    {
      AsManyAsListed();
      BooksBalance(p, services, skipped, completed, opportunistic);
      RouteIsSound(p.net, startNode, current, routeEdges, services, routeCoords, positions,
                   totalDist, serviceDist, deadheadDist, teleports);
    }

    /** Gives up on whatever is still open, and reports. */
    method Finish(requiredDist: real) returns (s: Solution)
      requires Valid() && Closed() && requiredDist == RequiredDistance(p)
      modifies this`unvisited, this`startCounts, this`globalTargets, this`compTargets, this`compReqs, this`compSegs,
               this`skipped
      ensures Sound(p, startNode, s) && s.stats.iterations == iterations && s.stats.teleports == teleports && s.edges == routeEdges
      ensures old(unvisited) == {} && old(skipped) == {} ==> Rids(s.services) == p.options.Keys && s.stats.skipped == 0
      ensures s.stats.skipped == 0 && p.order != [] ==> EndsOnService(s.services, s.edges, EndAt(startNode, s.edges))
    {
      if unvisited != {} {
        SkipAll(unvisited);
      }
      ReportIsSound(requiredDist);
      s := Report(requiredDist);
    }

    /** Runs the loop from the start and reports. */
    method RunAndReport(maxIterations: nat, requiredDist: real, ghost height: Node -> nat, ghost top: nat)
      returns (s: Solution, ghost run: seq<Snap>)
      requires Valid() && Closed() && requiredDist == RequiredDistance(p) && Snapshot(None) == FirstSnap(p, startNode)
      requires iterations == 0
      modifies this
      ensures Solved(p, xy, cosLat, startNode, s, run, maxIterations, height, top)
    {
      run := RunGreedyIterations(maxIterations, height, top);
      s := Finish(requiredDist);
    }

    lemma AsManyAsListed()
      requires Static()
      ensures |p.options.Keys| == |p.order|
    {
      assert Recall(Owners, 0);
      ListedCount(p);
    }
  }

  // ----- Solving ------------------------------------------------------------------------------

  datatype Stats = Stats(total: real, service: real, deadhead: real, requiredDist: real, required: nat, completed: nat, skipped: nat,
                         opportunistic: nat, teleports: nat, iterations: nat)

  datatype Solution = Solution(coords: seq<Point>, stats: Stats, edges: seq<EdgeRef>, services: seq<Service>)

  /** Heights that lead the solver out of every detour within the allowed iterations. */
  ghost predicate Untangled(p: Problem) {
    exists height, top :: UntangledBy(p, height, top)
  }

  ghost predicate UntangledBy(p: Problem, height: Node -> nat, top: nat) {
    Graded(p, height, top) && (Units(top, |p.order|) <= 1000 || Units(top, |p.order|) <= 10 * |p.order|)
  }

  /** What every solution satisfies: the route, its drawing, its distances and its books. */
  ghost predicate Sound(p: Problem, start: Node, s: Solution) {
    && (forall e :: e in s.edges ==> e in p.net.edges)
    && s.coords == Drawn(p.net, s.edges)
    && Breaks(start, s.edges) <= s.stats.teleports
    && s.stats.total == SumLen(p.net, s.edges) && s.stats.service == SumServed(p.net, s.services)
    && s.stats.total == s.stats.service + s.stats.deadhead && s.stats.requiredDist == RequiredDistance(p)
    && (exists pos :: Embedded(s.services, s.edges, pos))
    && (forall i, j :: 0 <= i < j < |s.services| ==> s.services[i].rid != s.services[j].rid)
    && (forall x :: x in s.services ==> x.rid in p.options && x.edge in p.options[x.rid] && Owns(p, x.rid, x.edge))
    && s.stats.required == |p.order| && s.stats.completed == |s.services|
    && s.stats.completed + s.stats.skipped == s.stats.required && s.stats.opportunistic <= s.stats.completed
  }

  /** Every requirement is served, the route ends on a service, and the loop was short. */
  ghost predicate Covers(p: Problem, s: Solution) {
    Rids(s.services) == p.options.Keys && s.stats.skipped == 0 && s.stats.iterations <= 2 * |p.order|
  }

  /** Nothing driven, everything open. */
  ghost function FirstSnap(p: Problem, start: Node): Snap {
    Snap(None, p.options.Keys, start, [], 0, {})
  }

  /** A run of so many steps that has made this route, with so many jumps. */
  ghost predicate Ran(p: Problem, xy: map<Node, Point>, cosLat: real -> real, run: seq<Snap>, first: Snap, steps: nat,
                      route: seq<EdgeRef>, jumps: nat)
  {
    && |run| == steps + 1 && run[0] == first && run[steps].route == route && run[steps].jumps == jumps
    && IsRun(p, xy, cosLat, run)
  }

  lemma OneMoreStep(p: Problem, xy: map<Node, Point>, cosLat: real -> real, run: seq<Snap>, first: Snap, steps: nat, next: Snap)
    requires |run| == steps + 1 && run[0] == first && IsRun(p, xy, cosLat, run) && GreedyStep(p, xy, cosLat, run[steps], next)
    ensures Ran(p, xy, cosLat, run + [next], first, steps + 1, next.route, next.jumps)
  {
  }

  /**
   The route is the one that the greedy steps make from the start, one step per iteration, until
   nothing is open or 1000 iterations, or ten for each requirement, have passed.
   */
  ghost predicate Greedily(p: Problem, xy: map<Node, Point>, cosLat: real -> real, start: Node, s: Solution, run: seq<Snap>) {
    && Ran(p, xy, cosLat, run, FirstSnap(p, start), s.stats.iterations, s.edges, s.stats.teleports)
    && (s.stats.iterations <= 1000 || s.stats.iterations <= 10 * |p.order|)
    && (run[|run| - 1].open == {} || (s.stats.iterations >= 1000 && s.stats.iterations >= 10 * |p.order|))
  }

  method SolveGreedyRoute(p: Problem, xy: map<Node, Point>, cosLat: real -> real, startNode: Option<Node>)
    returns (s: Solution, ghost run: seq<Snap>)
    requires p.Valid() && (p.order != [] || (startNode.Some? && startNode.value in p.net.nodes))
    ensures Sound(p, StartOf(p, startNode), s) && Greedily(p, xy, cosLat, StartOf(p, startNode), s, run)
    ensures p.Disjoint() && p.net.nodes <= xy.Keys ==> Covers(p, s)
    ensures Untangled(p) && p.net.nodes <= xy.Keys ==> Rids(s.services) == p.options.Keys && s.stats.skipped == 0
    ensures s.stats.skipped == 0 && p.order != [] ==>
              EndsOnService(s.services, s.edges, EndAt(StartOf(p, startNode), s.edges))
    ensures ReachesAll(p) ==> s.stats.teleports == 0 && Breaks(StartOf(p, startNode), s.edges) == 0
  {
    ghost var height, top := ChooseHeights(p);
    var maxIterations := if |p.order| * 10 > 1000 then |p.order| * 10 else 1000;
    s, run := SolveWithin(p, xy, cosLat, startNode, maxIterations, height, top);
    SolvedGreedily(p, xy, cosLat, StartOf(p, startNode), s, run, maxIterations, height, top);
  }

  /** Flat ground if no edge is shared, else heights that untangle the problem if there are any. */
  lemma ChooseHeights(p: Problem) returns (height: Node -> nat, top: nat)
    requires p.Listed()
    ensures p.Disjoint() ==> UntangledBy(p, height, top) && Units(top, |p.order|) == 2 * |p.order|
    ensures Untangled(p) ==> UntangledBy(p, height, top)
  {
    height, top := v => 0, 0;
    UnitsAre(0, |p.order|);
    if p.Disjoint() {
      DisjointIsGraded(p, height);
    } else if Untangled(p) {
      height, top :| UntangledBy(p, height, top);
    }
  }

  /** What a solve of at most `limit` iterations comes to. */
  ghost predicate SolvedFacts(p: Problem, xy: map<Node, Point>, cosLat: real -> real, start: Node, s: Solution, run: seq<Snap>,
                              limit: nat, height: Node -> nat, top: nat)
  {
    && Sound(p, start, s) && (ReachesAll(p) ==> s.stats.teleports == 0)
    && Ran(p, xy, cosLat, run, FirstSnap(p, start), s.stats.iterations, s.edges, s.stats.teleports)
    && s.stats.iterations <= limit && (run[s.stats.iterations].open == {} || s.stats.iterations == limit)
    && (p.net.nodes <= xy.Keys && Graded(p, height, top) && limit >= Units(top, |p.order|) ==>
          Rids(s.services) == p.options.Keys && s.stats.skipped == 0 && s.stats.iterations <= Units(top, |p.order|))
    && (s.stats.skipped == 0 && p.order != [] ==> EndsOnService(s.services, s.edges, EndAt(start, s.edges)))
  }

  ghost predicate Solved(p: Problem, xy: map<Node, Point>, cosLat: real -> real, start: Node, s: Solution, run: seq<Snap>,
                         limit: nat, height: Node -> nat, top: nat)
  {
    forall k {:trigger Recall(Reach, k)} :: Recall(Reach, k) ==> SolvedFacts(p, xy, cosLat, start, s, run, limit, height, top)
  }

  lemma SolvedGreedily(p: Problem, xy: map<Node, Point>, cosLat: real -> real, start: Node, s: Solution, run: seq<Snap>,
                       limit: nat, height: Node -> nat, top: nat)
    requires Solved(p, xy, cosLat, start, s, run, limit, height, top)
    requires limit == if |p.order| * 10 > 1000 then |p.order| * 10 else 1000
    ensures Sound(p, start, s) && Greedily(p, xy, cosLat, start, s, run)
    ensures p.net.nodes <= xy.Keys && Graded(p, height, top) && limit >= Units(top, |p.order|) ==>
              Rids(s.services) == p.options.Keys && s.stats.skipped == 0 && s.stats.iterations <= Units(top, |p.order|)
    ensures s.stats.skipped == 0 && p.order != [] ==> EndsOnService(s.services, s.edges, EndAt(start, s.edges))
    ensures ReachesAll(p) ==> s.stats.teleports == 0
  {
    assert SolvedFacts(p, xy, cosLat, start, s, run, limit, height, top) by {
      assert Recall(Reach, 0);
    }
  }

  method SolveWithin(p: Problem, xy: map<Node, Point>, cosLat: real -> real, startNode: Option<Node>, limit: nat,
                     ghost height: Node -> nat, ghost top: nat)
    returns (s: Solution, ghost run: seq<Snap>)
    requires p.Valid() && (p.order != [] || (startNode.Some? && startNode.value in p.net.nodes))
    ensures Solved(p, xy, cosLat, StartOf(p, startNode), s, run, limit, height, top)
  {
    var state := new Solver(p, xy, cosLat, startNode);
    var requiredDist := CalculateRequiredDistance(p);
    s, run := state.RunAndReport(limit, requiredDist, height, top);
  }

  /** What was served is at least as long as the shortest options of the requirements served. */
  lemma {:induction false} ServedAtLeast(p: Problem, services: seq<Service>)
    requires p.Listed() && forall i, j :: 0 <= i < j < |services| ==> services[i].rid != services[j].rid
    requires forall x :: x in services ==> x.rid in p.options && x.edge in p.options[x.rid]
    ensures SumBest(p, p.order, Rids(services)) <= SumServed(p.net, services)
  {
    if services == [] {
      SumBestNone(p, p.order);
      assert Rids(services) == {};
    } else {
      var front, x := services[..|services| - 1], services[|services| - 1];
      assert services == front + [x];
      ServedAtLeast(p, front);
      assert Rids(services) == Rids(front) + {x.rid};
      assert x.rid in p.order;
      SumBestAdd(p, p.order, Rids(front), x.rid);
      var least := BestLengthIsLeast(p.net, p.options[x.rid]);
    }
  }

  lemma {:induction false} LengthNonNegative(n: Net, es: seq<EdgeRef>)
    requires n.Valid()
    ensures SumLen(n, es) >= 0.0
  {
    if es != [] {
      LengthNonNegative(n, es[..|es| - 1]);
      EdgeLengthNonNegative(n, es[|es| - 1]);
    }
  }

  /** A route is at least as long as what it serves. */
  lemma {:induction false} ServedWithin(n: Net, s: seq<Service>, es: seq<EdgeRef>, pos: seq<nat>)
    requires n.Valid() && Embedded(s, es, pos)
    ensures SumServed(n, s) <= SumLen(n, es)
    decreases |es|
  {
    if s == [] {
      LengthNonNegative(n, es);
    } else {
      assert pos[0] < |es|;
      var front := es[..|es| - 1];
      EdgeLengthNonNegative(n, es[|es| - 1]);
      if pos[|pos| - 1] == |es| - 1 {
        assert Embedded(s[..|s| - 1], front, pos[..|pos| - 1]);
        ServedWithin(n, s[..|s| - 1], front, pos[..|pos| - 1]);
      } else {
        assert Embedded(s, front, pos);
        ServedWithin(n, s, front, pos);
      }
    }
  }

  /** The distances of a complete route are in order: required, served, driven. */
  lemma CompleteCosts(p: Problem, start: Node, s: Solution)
    requires p.Valid() && Sound(p, start, s) && s.stats.skipped == 0
    ensures s.stats.requiredDist <= s.stats.service <= s.stats.total
  {
    AllServed(p, s);
    ServedAtLeast(p, s.services);
    var pos :| Embedded(s.services, s.edges, pos);
    ServedWithin(p.net, s.services, s.edges, pos);
  }

  /** A requirement that owns none of its options is never served. */
  lemma UnownedNeverServed(p: Problem, start: Node, s: Solution, r: ReqId)
    requires p.Listed() && Sound(p, start, s) && r in p.options && forall e :: e in p.options[r] ==> !Owns(p, r, e)
    ensures r !in Rids(s.services) && s.stats.skipped > 0
  {
    if s.stats.skipped == 0 {
      AllServed(p, s);
    }
  }

  lemma AllServed(p: Problem, s: Solution)
    requires p.Listed() && s.stats.completed == |s.services| == |p.order|
    requires forall i, j :: 0 <= i < j < |s.services| ==> s.services[i].rid != s.services[j].rid
    requires forall x :: x in s.services ==> x.rid in p.options
    ensures Rids(s.services) == p.options.Keys
  {
    DistinctCount(RidList(s.services));
    RidListElements(s.services);
    ListedCount(p);
    SubsetCount(Rids(s.services), p.options.Keys);
  }

  /** So full coverage needs every requirement to own an option. */
  lemma CoverageNeedsOwners(p: Problem, start: Node, s: Solution)
    requires Sound(p, start, s) && Rids(s.services) == p.options.Keys
    ensures forall r :: r in p.options ==> exists e :: e in p.options[r] && Owns(p, r, e)
  {
    forall r | r in p.options
      ensures exists e :: e in p.options[r] && Owns(p, r, e)
    {
      assert r in Rids(s.services);
      var x :| x in s.services && x.rid == r;
    }
  }

  /** The books balance: nothing is served twice and nothing is lost. */
  lemma BooksBalance(p: Problem, services: seq<Service>, skipped: set<ReqId>, completed: nat, opportunistic: nat)
    requires Booked(p, {}, skipped, services, completed, opportunistic)
    ensures completed == |services| && completed + |skipped| == |p.options.Keys| && opportunistic <= completed
    ensures forall i, j :: 0 <= i < j < |services| ==> services[i].rid != services[j].rid
    ensures forall x :: x in services ==> x.rid in p.options && x.edge in p.options[x.rid] && Owns(p, x.rid, x.edge)
    ensures skipped == {} ==> Rids(services) == p.options.Keys
  {
    assert Recall(Books, 0);
    DistinctCount(RidList(services));
    RidListElements(services);
    assert p.options.Keys == skipped + Rids(services);
  }

  lemma RidListElements(s: seq<Service>)
    ensures Elements(RidList(s)) == Rids(s)
  {
    forall x | x in s
      ensures x.rid in RidList(s)
    {
      var i :| 0 <= i < |s| && s[i] == x;
      assert RidList(s)[i] == x.rid;
    }
  }

  lemma RouteIsSound(n: Net, start: Node, current: Node, edges: seq<EdgeRef>, services: seq<Service>, coords: seq<Point>,
                     pos: seq<nat>, total: real, service: real, deadhead: real, teleports: nat)
    requires Assembled(n, edges, services, coords, pos)
    requires Measured(n, edges, services, total, service, deadhead)
    requires Continuous(start, edges, current, teleports)
    ensures (forall e :: e in edges ==> e in n.edges) && coords == Drawn(n, edges)
    ensures Embedded(services, edges, pos) && Breaks(start, edges) <= teleports
    ensures total == SumLen(n, edges) && service == SumServed(n, services) && total == service + deadhead
  {
    assert Recall(Drawing, 0) && Recall(Distances, 0) && Recall(Continuity, 0);
  }

  ghost function RidList(s: seq<Service>): seq<ReqId> {
    seq(|s|, i requires 0 <= i < |s| => s[i].rid)
  }

  /** The iterations that `k` requirements may take. */
  function Units(top: nat, k: nat): nat {
    if k == 0 then 0 else Units(top, k - 1) + top + 2
  }

  lemma {:induction false} UnitsGrow(top: nat, k: nat, k': nat)
    requires k < k'
    ensures Units(top, k) + top + 2 <= Units(top, k')
  {
    if k + 1 < k' {
      UnitsGrow(top, k, k' - 1);
    }
  }

  lemma {:induction false} UnitsAre(top: nat, k: nat)
    ensures Units(top, k) == (top + 2) * k
  {
    if k > 0 {
      UnitsAre(top, k - 1);
    }
  }

  /** One iteration pays for itself by a service, or by the credit it adds. */
  lemma StayOnBudget(top: nat, iterations: nat, open: nat, credit: int, open': nat, credit': int, all: nat)
    requires iterations + Units(top, open) <= Units(top, all) + credit && 0 <= credit <= top + 1 && 0 <= credit'
    requires open' < open || (open' == open && credit' > credit)
    ensures iterations + 1 + Units(top, open') <= Units(top, all) + credit'
  {
    if open' < open {
      UnitsGrow(top, open', open);
    }
  }

  /** An option of `r` leads from `from` to `to`, but belongs to another requirement. */
  ghost predicate DetourOver(p: Problem, open: set<ReqId>, from: Node, to: Node, active: int, r: ReqId, e: EdgeRef) {
    && r in open && r in p.options && e in p.options[r] && e.u == from && e.v == to && p.Comp(r) == active
    && !Owns(p, r, e)
  }

  /** A place the vehicle can be put down at and leave again. */
  ghost predicate Landing(p: Problem, xy: map<Node, Point>, s: Node) {
    s in p.net.nodes && s in xy && exists e :: e in p.net.edges && e.u == s
  }

  lemma WaysOut(n: Net, s: Node)
    ensures n.Out(s) != {} <==> exists e :: e in n.edges && e.u == s
  {
    if e :| e in n.edges && e.u == s {
      assert e in n.Out(s);
    }
  }

  /** The squared length of a jump, with longitudes scaled, divided by the open segments of the component it leads to. */
  ghost function JumpCost(p: Problem, xy: map<Node, Point>, cosLat: real -> real, open: set<ReqId>, here: Point, s: Node): real
    requires s in xy
  {
    var dx, dy, c := xy[s].x - here.x, xy[s].y - here.y, cosLat(here.y);
    (dx * dx * (c * c) + dy * dy) / AtLeastOne(p.SegmentSum(p.In(open, CompOf(p.net, s))))
  }

  /** No place that can be jumped to costs less. */
  ghost predicate LeastJump(p: Problem, xy: map<Node, Point>, cosLat: real -> real, open: set<ReqId>, targets: set<Node>,
                            from: Node, best: Node)
  {
    forall k {:trigger Recall(Jumps, k)} :: Recall(Jumps, k) ==>
      && from in xy && best in xy
      && forall s :: s in targets && Landing(p, xy, s) ==>
        JumpCost(p, xy, cosLat, open, xy[from], best) <= JumpCost(p, xy, cosLat, open, xy[from], s)
  }

  // ----- Ranking what can be served next --------------------------------------------------------

  /** The first shortest option that starts here. */
  function ServiceEdge(n: Net, options: seq<EdgeRef>, here: Node): Option<EdgeRef> {
    if options == [] then None
    else
      var best, e := ServiceEdge(n, options[..|options| - 1], here), options[|options| - 1];
      if e.u == here && (best.None? || n.EdgeLength(e) < n.EdgeLength(best.value)) then Some(e) else best
  }

  lemma {:induction false} ServiceEdgeIsShortest(n: Net, options: seq<EdgeRef>, here: Node)
    ensures var best := ServiceEdge(n, options, here);
            && (best.Some? ==> best.value in options && best.value.u == here)
            && (forall e :: e in options && e.u == here ==> best.Some? && n.EdgeLength(best.value) <= n.EdgeLength(e))
  {
    if options != [] {
      ServiceEdgeIsShortest(n, options[..|options| - 1], here);
      assert options == options[..|options| - 1] + [options[|options| - 1]];
    }
  }

  /** What speaks for serving a requirement next, most important first. */
  datatype Rank = Rank(segments: int, ahead: nat, length: real, starts: int)

  predicate Prefers(a: Rank, b: Rank) {
    if a.segments != b.segments then a.segments > b.segments
    else if a.ahead != b.ahead then a.ahead > b.ahead
    else if a.length != b.length then a.length > b.length
    else a.starts >= b.starts
  }

  /** More segments count first, then more open starts ahead, then the longer edge, then more starts at its end. */
  ghost predicate RanksNoLower(a: Rank, b: Rank) {
    || a.segments > b.segments
    || (a.segments == b.segments && a.ahead > b.ahead)
    || (a.segments == b.segments && a.ahead == b.ahead && a.length > b.length)
    || (a.segments == b.segments && a.ahead == b.ahead && a.length == b.length && a.starts >= b.starts)
  }

  /** A node and those one edge further. */
  ghost function Near(n: Net, v: Node): set<Node> {
    {v} + set e | e in n.edges && e.u == v :: e.v
  }

  /** The open requirements at the given nodes, counted at each of them. */
  ghost function StartsNear(p: Problem, open: set<ReqId>, nodes: set<Node>): set<(Node, ReqId)> {
    set v, r | v in nodes && r in p.At(open, v) :: (v, r)
  }

  lemma StartsNearSplit(p: Problem, open: set<ReqId>, a: set<Node>, b: set<Node>)
    requires a !! b
    ensures |StartsNear(p, open, a + b)| == |StartsNear(p, open, a)| + |StartsNear(p, open, b)|
  {
    assert StartsNear(p, open, a + b) == StartsNear(p, open, a) + StartsNear(p, open, b);
    assert StartsNear(p, open, a) !! StartsNear(p, open, b);
  }

  lemma {:induction false} PairsCount(pairs: set<(Node, ReqId)>, v: Node, rids: set<ReqId>)
    requires forall x :: x in pairs <==> x.0 == v && x.1 in rids
    ensures |pairs| == |rids|
    decreases rids
  {
    if rids == {} {
      assert pairs == {};
    } else {
      var r :| r in rids;
      PairsCount(pairs - {(v, r)}, v, rids - {r});
    }
  }

  /** The nodes counted after so many hops, those to be counted next, and all that have been seen. */
  ghost predicate Hopped(n: Net, next: Node, hop: int, seen: set<Node>, frontier: set<Node>, counted: set<Node>) {
    forall k {:trigger Recall(Choice, k)} :: Recall(Choice, k) ==>
      && counted !! frontier
      && (hop == 0 ==> counted == {} && seen == frontier == {next})
      && (hop == 1 ==> counted + frontier == seen == Near(n, next))
      && (hop == 2 ==> counted == Near(n, next))
  }

  lemma HopStep(n: Net, next: Node, hop: int, seen: set<Node>, frontier: set<Node>, counted: set<Node>, heads: set<Node>)
    requires Hopped(n, next, hop, seen, frontier, counted) && 0 <= hop < 2
    requires heads == set e | e in n.edges && e.u in frontier :: e.v
    ensures counted !! frontier && Hopped(n, next, hop + 1, seen + heads, heads - seen, counted + frontier)
  {
    assert Recall(Choice, 0);
    if hop == 0 {
      assert heads == set e | e in n.edges && e.u == next :: e.v;
    }
  }

  lemma HopsDone(n: Net, next: Node, seen: set<Node>, frontier: set<Node>, counted: set<Node>)
    requires Hopped(n, next, 2, seen, frontier, counted)
    ensures counted == Near(n, next)
  {
    assert Recall(Choice, 0);
  }

  ghost function RankOf(p: Problem, open: set<ReqId>, here: Node, r: ReqId): Rank {
    if r in p.options && ServiceEdge(p.net, p.options[r], here).Some? then
      var e := ServiceEdge(p.net, p.options[r], here).value;
      Rank(p.Segments(r), |StartsNear(p, open, Near(p.net, e.v))|, p.net.EdgeLength(e), |p.At(open, e.v)|)
    else Rank(0, 0, 0.0, 0)
  }

  /** Of all that could be served here, the route goes on with what ranks first. */
  ghost predicate TookBest(p: Problem, open: set<ReqId>, here: Node, active: int,
                           route: seq<EdgeRef>, route': seq<EdgeRef>)
  {
    forall k {:trigger Recall(Choice, k)} :: Recall(Choice, k) ==>
      exists r :: BestChoice(p, open, here, active, route, route', r)
  }

  ghost predicate BestChoice(p: Problem, open: set<ReqId>, here: Node, active: int,
                             route: seq<EdgeRef>, route': seq<EdgeRef>, r: ReqId)
  {
    && Adjacent(p, open, here, active, r) && ServiceEdge(p.net, p.options[r], here).Some?
    && route' == route + [ServiceEdge(p.net, p.options[r], here).value]
    && forall x :: Adjacent(p, open, here, active, x) ==>
      RanksNoLower(RankOf(p, open, here, r), RankOf(p, open, here, x))
  }

  ghost predicate Adjacent(p: Problem, open: set<ReqId>, here: Node, active: int, r: ReqId) {
    r in open && r in p.options && here in p.Starts(r) && p.Comp(r) == active
  }

  /** The active component, what is open, where the vehicle is, its route, and what it has jumped and given up. */
  datatype Snap = Snap(active: Option<int>, open: set<ReqId>, here: Node, route: seq<EdgeRef>, jumps: nat, given: set<ReqId>)

  /**
   One iteration: serves the first-ranked requirement of the active component that starts here; if
   none does, drives to the best-scored start, or jumps to the nearest one when there is no road, or
   gives up.
   */
  ghost predicate GreedyStep(p: Problem, xy: map<Node, Point>, cosLat: real -> real, a: Snap, b: Snap) {
    forall k {:trigger Recall(Choice, k)} :: Recall(Choice, k) ==>
      && b.open <= a.open
      && (if Ready(p, a) then
            TookBest(p, a.open, a.here, a.active.value, a.route, b.route) && b.jumps == a.jumps && b.given == a.given
          else if b.jumps != a.jumps then
            b.given == a.given && JumpedOn(p, xy, cosLat, a.active, a.open, a.here, b.here)
          else if b.active.Some? then
            b.given == a.given && MovedOn(p, a.active, a.open, a.here, b.here, a.route, b.route)
          else if StillOpen(p, a.open, a.active) then
            GaveUp(p, a.active.value, a.open, a.given, b.open, b.given)
          else b.open == {} && b.given == a.given + a.open)
  }

  /** Nothing is open in the active component. */
  lemma StepAnywhere(p: Problem, xy: map<Node, Point>, cosLat: real -> real, a: Snap, b: Snap)
    requires b.open <= a.open && !StillOpen(p, a.open, a.active)
    requires b.jumps != a.jumps ==> b.given == a.given && LeastJump(p, xy, cosLat, a.open, p.StartsOf(a.open), a.here, b.here)
    requires b.jumps == a.jumps && b.active.Some? ==>
               b.given == a.given && RoadTaken(p.net, a.here, p.StartsOf(a.open), WorkScore(p, a.open), b.here, a.route, b.route)
    requires b.jumps == a.jumps && b.active.None? ==> b.open == {} && b.given == a.given + a.open
    ensures GreedyStep(p, xy, cosLat, a, b)
  {
    ReadyIsOpen(p, a);
  }

  lemma ReadyIsOpen(p: Problem, a: Snap)
    ensures Ready(p, a) ==> StillOpen(p, a.open, a.active)
  {
    if Ready(p, a) {
      var r :| Adjacent(p, a.open, a.here, a.active.value, r);
      assert r in p.In(a.open, a.active.value);
    }
  }

  /** Something is. */
  lemma StepWithin(p: Problem, xy: map<Node, Point>, cosLat: real -> real, a: Snap, b: Snap)
    requires b.open <= a.open && StillOpen(p, a.open, a.active)
    requires Ready(p, a) ==>
               && TookBest(p, a.open, a.here, a.active.value, a.route, b.route)
               && b.jumps == a.jumps && b.given == a.given
    requires b.jumps != a.jumps ==>
               && b.given == a.given
               && LeastJump(p, xy, cosLat, a.open, p.StartsOf(p.In(a.open, a.active.value)), a.here, b.here)
    requires !Ready(p, a) && b.jumps == a.jumps && b.active.Some? ==>
               && b.given == a.given
               && RoadTaken(p.net, a.here, p.StartsOf(p.In(a.open, a.active.value)), StartScore(p, a.open), b.here, a.route, b.route)
    requires !Ready(p, a) && b.jumps == a.jumps && b.active.None? ==>
               GaveUp(p, a.active.value, a.open, a.given, b.open, b.given)
    ensures GreedyStep(p, xy, cosLat, a, b)
  {
  }

  /** Something of the active component starts here. */
  ghost predicate Ready(p: Problem, a: Snap) {
    a.active.Some? && exists r :: Adjacent(p, a.open, a.here, a.active.value, r)
  }

  ghost predicate IsRun(p: Problem, xy: map<Node, Point>, cosLat: real -> real, run: seq<Snap>) {
    forall k {:trigger Recall(Choice, k)} :: Recall(Choice, k) ==>
      forall i :: 0 <= i < |run| - 1 ==> GreedyStep(p, xy, cosLat, run[i], run[i + 1])
  }

  ghost predicate StillOpen(p: Problem, open: set<ReqId>, active: Option<int>) {
    active.Some? && p.In(open, active.value) != {}
  }

  /** By the best road to a start in the active component while it has any, else to any start. */
  ghost predicate MovedOn(p: Problem, active: Option<int>, open: set<ReqId>, from: Node, to: Node, route: seq<EdgeRef>,
                          route': seq<EdgeRef>)
  {
    forall k {:trigger Recall(Choice, k)} :: Recall(Choice, k) ==>
      if StillOpen(p, open, active)
      then RoadTaken(p.net, from, p.StartsOf(p.In(open, active.value)), StartScore(p, open), to, route, route')
      else RoadTaken(p.net, from, p.StartsOf(open), WorkScore(p, open), to, route, route')
  }

  /** By the least jump to a start in the active component while it has any, else to any start. */
  ghost predicate JumpedOn(p: Problem, xy: map<Node, Point>, cosLat: real -> real, active: Option<int>, open: set<ReqId>,
                           from: Node, to: Node)
  {
    forall k {:trigger Recall(Choice, k)} :: Recall(Choice, k) ==>
      if StillOpen(p, open, active) then LeastJump(p, xy, cosLat, open, p.StartsOf(p.In(open, active.value)), from, to)
      else LeastJump(p, xy, cosLat, open, p.StartsOf(open), from, to)
  }

  /** Exactly what was open in the component has been skipped. */
  ghost predicate GaveUp(p: Problem, active: int, open: set<ReqId>, skipped: set<ReqId>, open': set<ReqId>, skipped': set<ReqId>) {
    open' == open - p.In(open, active) && skipped' == skipped + p.In(open, active)
  }

  lemma SomeLeft<T>(a: set<T>)
    requires a != {}
    ensures |a| > 0
  {
  }

  /** The work waiting at a component or start, at least 1. */
  function Benefit(counts: map<int, int>, key: int): (b: real)
    ensures b >= 1.0
  {
    var n := if key in counts then counts[key] else 1;
    if n < 1 then 1.0 else n as real
  }

  /** The target sets, node by node, in terms of the start counts. */
  ghost predicate TargetsFollowCounts(n: Net, counts: map<Node, int>, targets: set<Node>, compTargets: map<int, set<Node>>) {
    && (forall s :: s in targets <==> CountAt(counts, s) > 0)
    && (forall c, s :: s in SetAt(compTargets, c) <==> CountAt(counts, s) > 0 && CompOf(n, s) == c)
  }

  lemma TargetsNodewise(p: Problem, open: set<ReqId>, counts: map<Node, int>, targets: set<Node>,
                        compTargets: map<int, set<Node>>)
    requires p.Valid() && open <= p.options.Keys
    requires forall s :: CountAt(counts, s) == |p.At(open, s)|
    ensures TargetsFollowCounts(p.net, counts, targets, compTargets) <==>
            && targets == p.StartsOf(open)
            && forall c :: SetAt(compTargets, c) == p.StartsOf(p.In(open, c))
  {
    StartsFollowCounts(p, open, counts);
    if TargetsFollowCounts(p.net, counts, targets, compTargets) {
      NodewiseEqual(p, open, counts, targets, compTargets);
    }
  }

  lemma StartsFollowCounts(p: Problem, open: set<ReqId>, counts: map<Node, int>)
    requires p.Valid() && open <= p.options.Keys && forall s :: CountAt(counts, s) == |p.At(open, s)|
    ensures forall s :: s in p.StartsOf(open) <==> CountAt(counts, s) > 0
    ensures forall c, s :: s in p.StartsOf(p.In(open, c)) <==> CountAt(counts, s) > 0 && CompOf(p.net, s) == c
  {
    forall s
      ensures s in p.StartsOf(open) <==> CountAt(counts, s) > 0
    {
      AtMissing(p, open, s);
    }
    forall c, s
      ensures s in p.StartsOf(p.In(open, c)) <==> CountAt(counts, s) > 0 && CompOf(p.net, s) == c
    {
      CompStarts(p, open, c);
    }
  }

  lemma NodewiseEqual(p: Problem, open: set<ReqId>, counts: map<Node, int>, targets: set<Node>, compTargets: map<int, set<Node>>)
    requires TargetsFollowCounts(p.net, counts, targets, compTargets)
    requires forall s :: s in p.StartsOf(open) <==> CountAt(counts, s) > 0
    requires forall c, s :: s in p.StartsOf(p.In(open, c)) <==> CountAt(counts, s) > 0 && CompOf(p.net, s) == c
    ensures targets == p.StartsOf(open) && forall c :: SetAt(compTargets, c) == p.StartsOf(p.In(open, c))
  {
    assert forall s :: s in targets <==> s in p.StartsOf(open);
    forall c
      ensures SetAt(compTargets, c) == p.StartsOf(p.In(open, c))
    {
      forall s
        ensures s in SetAt(compTargets, c) <==> s in p.StartsOf(p.In(open, c))
      {
        assert s in SetAt(compTargets, c) <==> CountAt(counts, s) > 0 && CompOf(p.net, s) == c;
        assert s in p.StartsOf(p.In(open, c)) <==> CountAt(counts, s) > 0 && CompOf(p.net, s) == c;
      }
    }
  }

  /** Counts each of the given starts of one component down, and drops those that reach zero. */
  method DropStarts(ghost n: Net, starts: set<Node>, c: int, counts0: map<Node, int>, targets0: set<Node>,
                    compTargets0: map<int, set<Node>>)
    returns (counts: map<Node, int>, targets: set<Node>, compTargets: map<int, set<Node>>)
    requires TargetsFollowCounts(n, counts0, targets0, compTargets0)
    requires forall s :: s in starts ==> CompOf(n, s) == c
    ensures TargetsFollowCounts(n, counts, targets, compTargets)
    ensures forall s :: CountAt(counts, s) == CountAt(counts0, s) - if s in starts then 1 else 0
  {
    counts, targets, compTargets := counts0, targets0, compTargets0;
    var left := starts;
    while left != {}
      invariant left <= starts && TargetsFollowCounts(n, counts, targets, compTargets)
      invariant forall s :: CountAt(counts, s) == CountAt(counts0, s) - if s in starts && s !in left then 1 else 0
      decreases left
    {
      var s := Pick(left);
      left := left - {s};
      var k := CountAt(counts, s) - 1;
      DropStart(n, counts, targets, compTargets, s, c, k);
      counts := counts[s := k];
      if k <= 0 {
        targets := targets - {s};
        if c in compTargets {
          compTargets := compTargets[c := compTargets[c] - {s}];
        }
      }
    }
  }

  lemma DropStart(n: Net, counts: map<Node, int>, targets: set<Node>, compTargets: map<int, set<Node>>,
                  s: Node, c: int, k: int)
    requires TargetsFollowCounts(n, counts, targets, compTargets) && CompOf(n, s) == c && k == CountAt(counts, s) - 1
    ensures k > 0 ==> TargetsFollowCounts(n, counts[s := k], targets, compTargets)
    ensures k <= 0 ==> TargetsFollowCounts(n, counts[s := k], targets - {s},
                         if c in compTargets then compTargets[c := compTargets[c] - {s}] else compTargets)
  {
    var counts' := counts[s := k];
    assert forall x :: CountAt(counts', x) == if x == s then k else CountAt(counts, x);
    if k <= 0 {
      var compTargets' := if c in compTargets then compTargets[c := compTargets[c] - {s}] else compTargets;
      forall d, x
        ensures x in SetAt(compTargets', d) <==> CountAt(counts', x) > 0 && CompOf(n, x) == d
      {
        assert SetAt(compTargets', d) == if d == c then SetAt(compTargets, d) - {s} else SetAt(compTargets, d);
        assert x in SetAt(compTargets, d) <==> CountAt(counts, x) > 0 && CompOf(n, x) == d;
      }
    }
  }

  lemma CompsRemove(p: Problem, open: set<ReqId>, r: ReqId, reqs: map<int, int>, segs: map<int, int>)
    requires p.Listed() && r in open && open <= p.options.Keys && CompsIndexed(p, open, reqs, segs)
    ensures var c := p.Comp(r);
            CompsIndexed(p, open - {r}, reqs[c := CountAt(reqs, c) - 1], segs[c := CountAt(segs, c) - p.Segments(r)])
  {
    assert Recall(Comps, 0);
    var c := p.Comp(r);
    forall k
      ensures CountAt(reqs[c := CountAt(reqs, c) - 1], k) == |p.In(open - {r}, k)|
      ensures CountAt(segs[c := CountAt(segs, c) - p.Segments(r)], k) == p.SegmentSum(p.In(open - {r}, k))
    {
      InRemove(p, open, r, k);
      assert CountAt(reqs, k) == |p.In(open, k)| && CountAt(segs, k) == p.SegmentSum(p.In(open, k));
    }
  }

  lemma FollowCounts(p: Problem, open: set<ReqId>, counts: map<Node, int>, targets: set<Node>,
                     compTargets: map<int, set<Node>>)
    requires p.Valid() && open <= p.options.Keys && TargetsIndexed(p, open, counts, targets, compTargets)
    ensures TargetsFollowCounts(p.net, counts, targets, compTargets)
  {
    assert Recall(Targets, 0);
    TargetsNodewise(p, open, counts, targets, compTargets);
  }

  lemma TargetsRemove(p: Problem, open: set<ReqId>, r: ReqId, counts0: map<Node, int>, targets0: set<Node>,
                      compTargets0: map<int, set<Node>>, counts: map<Node, int>, targets: set<Node>,
                      compTargets: map<int, set<Node>>)
    requires p.Valid() && r in open && open <= p.options.Keys
    requires TargetsIndexed(p, open, counts0, targets0, compTargets0)
    requires TargetsFollowCounts(p.net, counts, targets, compTargets)
    requires forall s :: CountAt(counts, s) == CountAt(counts0, s) - if s in p.Starts(r) then 1 else 0
    ensures TargetsIndexed(p, open - {r}, counts, targets, compTargets)
  {
    assert Recall(Targets, 0);
    CountsRemove(p, open, r, counts0, counts);
    TargetsNodewise(p, open - {r}, counts, targets, compTargets);
  }

  lemma StartsComp(p: Problem, r: ReqId)
    requires p.Valid() && r in p.options
    ensures forall s :: s in p.Starts(r) ==> CompOf(p.net, s) == p.Comp(r)
  {
    forall s | s in p.Starts(r)
      ensures CompOf(p.net, s) == p.Comp(r)
    {
      StartComp(p, r, s);
    }
  }

  lemma CountsRemove(p: Problem, open: set<ReqId>, r: ReqId, before: map<Node, int>, after: map<Node, int>)
    requires r in open && r in p.options
    requires forall s :: CountAt(before, s) == |p.At(open, s)|
    requires forall s :: CountAt(after, s) == CountAt(before, s) - if s in p.Starts(r) then 1 else 0
    ensures forall s :: CountAt(after, s) == |p.At(open - {r}, s)|
  {
    forall s
      ensures CountAt(after, s) == |p.At(open - {r}, s)|
    {
      AtRemove(p, open, r, s);
    }
  }

  lemma AtRemove(p: Problem, open: set<ReqId>, r: ReqId, s: Node)
    requires r in open && r in p.options
    ensures |p.At(open - {r}, s)| == |p.At(open, s)| - if s in p.Starts(r) then 1 else 0
  {
    AtAdd(p, open - {r}, r, s);
    assert open - {r} + {r} == open;
    assert r !in p.At(open - {r}, s);
  }

  lemma InRemove(p: Problem, open: set<ReqId>, r: ReqId, c: int)
    requires p.Listed() && r in open && open <= p.options.Keys
    ensures |p.In(open - {r}, c)| == |p.In(open, c)| - if p.Comp(r) == c then 1 else 0
    ensures p.SegmentSum(p.In(open - {r}, c)) ==
            p.SegmentSum(p.In(open, c)) - if p.Comp(r) == c then p.Segments(r) else 0
  {
    InAdd(p, open - {r}, r, c);
    assert open - {r} + {r} == open;
    assert r !in p.In(open - {r}, c);
    if p.Comp(r) == c {
      assert p.In(open, c) - {r} == p.In(open - {r}, c);
      assert r in p.order;
      SumOverRemove(p, p.order, p.In(open, c), r);
    }
  }
}
