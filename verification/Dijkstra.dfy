/**
 The bounded multi-target shortest-path search of the route solver: one Dijkstra sweep with
 lazy heap deletion that collects the closest targets and returns the best-scored one.
 */
module Dijkstra {
  import opened Optional
  import opened Guard
  import opened Sorting
  import opened Network

  datatype Entry = Entry(d: real, node: Node)

  datatype Candidate = Candidate(node: Node, d: real, score: real)

  datatype Found = Found(node: Node, dist: real, path: seq<EdgeRef>)

  type Prev = map<Node, (Node, int)>

  /** The order of the heap: by distance, then by node. */
  predicate HeapLe(a: Entry, b: Entry) {
    a.d < b.d || (a.d == b.d && a.node <= b.node)
  }

  /** Removes a least entry. */
  method HeapPop(heap: seq<Entry>) returns (top: Entry, rest: seq<Entry>)
    requires heap != []
    ensures top in heap && forall x :: x in heap ==> HeapLe(top, x)
    ensures multiset(heap) == multiset(rest) + multiset{top}
    ensures |rest| == |heap| - 1
    ensures forall x :: x in heap && x != top ==> x in rest
    ensures forall x :: x in rest ==> x in heap
  {
    var best := 0;
    for i := 1 to |heap|
      invariant 0 <= best < |heap|
      invariant forall j :: 0 <= j < i ==> HeapLe(heap[best], heap[j])
    {
      if !HeapLe(heap[best], heap[i]) {
        best := i;
      }
    }
    top, rest := heap[best], heap[..best] + heap[best + 1..];
    assert heap == heap[..best] + [top] + heap[best + 1..];
  }

  // ----- What the search keeps ------------------------------------------------------------

  /** The edge recorded as leading into `v`. */
  function Into(prev: Prev, v: Node): EdgeRef
    requires v in prev
  {
    EdgeRef(prev[v].0, v, prev[v].1)
  }

  /** The label of `v` is one edge longer than that of a node settled before it. */
  ghost predicate Labelled(n: Net, dist: map<Node, real>, prev: Prev, rank: map<Node, nat>, v: Node)
    requires v in dist
  {
    && v in prev && prev[v].0 in rank && prev[v].0 in dist && n.Usable(Into(prev, v))
    && dist[v] == dist[prev[v].0] + n.Weight(Into(prev, v))
    && (v in rank ==> rank[prev[v].0] < rank[v])
  }

  /** Every label is the length of a route through settled nodes, in settling order. */
  ghost predicate Labels(n: Net, source: Node, dist: map<Node, real>, prev: Prev,
                         visited: set<Node>, rank: map<Node, nat>)
  {
    && source in dist && dist[source] == 0.0
    && dist.Keys <= n.nodes && visited <= dist.Keys && rank.Keys == visited
    && (forall v {:trigger Labelled(n, dist, prev, rank, v)} :: v in dist && v != source ==>
          Labelled(n, dist, prev, rank, v))
  }

  /** Every usable edge out of a settled node, except those still to do, has been relaxed. */
  ghost predicate Relaxed(n: Net, dist: map<Node, real>, visited: set<Node>, todo: set<EdgeRef>)
    requires visited <= dist.Keys
  {
    forall e :: n.Usable(e) && e.u in visited && e !in todo ==>
      e.v in dist && dist[e.v] <= dist[e.u] + n.Weight(e)
  }

  /** The heap holds every open label; its stale entries are harmless. */
  ghost predicate Frontier(dist: map<Node, real>, visited: set<Node>, heap: seq<Entry>)
    requires visited <= dist.Keys
  {
    && (forall v :: v in dist && v !in visited ==> Entry(dist[v], v) in heap)
    && (forall x :: x in heap ==> x.node in dist && dist[x.node] <= x.d)
    && (forall a, x :: a in visited && x in heap ==> dist[a] <= x.d)
  }

  /** A label can only improve at a node that is still open. */
  lemma ImprovesOpen(n: Net, source: Node, dist: map<Node, real>, prev: Prev, visited: set<Node>,
                     rank: map<Node, nat>, e: EdgeRef)
    requires Labels(n, source, dist, prev, visited, rank) && n.Usable(e) && e.u in visited
    requires forall a :: a in visited ==> dist[a] <= dist[e.u]
    requires e.v !in dist || dist[e.u] + n.Weight(e) < dist[e.v]
    ensures e.v !in visited && e.v != source
  {
    LabelsNonNegative(n, source, dist, prev, visited, rank, e.u);
  }

  lemma ImproveLabels(n: Net, source: Node, dist: map<Node, real>, prev: Prev, visited: set<Node>,
                      rank: map<Node, nat>, e: EdgeRef)
    requires Labels(n, source, dist, prev, visited, rank) && n.Usable(e) && e.u in visited && e.v in n.nodes
    requires e.v !in visited && e.v != source
    ensures Labels(n, source, dist[e.v := dist[e.u] + n.Weight(e)], prev[e.v := (e.u, e.k)], visited, rank)
  {
    var dist', prev' := dist[e.v := dist[e.u] + n.Weight(e)], prev[e.v := (e.u, e.k)];
    assert Into(prev', e.v) == e;
    forall v | v in dist' && v != source
      ensures Labelled(n, dist', prev', rank, v)
    {
      if v != e.v {
        assert Labelled(n, dist, prev, rank, v);
        assert Into(prev', v) == Into(prev, v);
      }
    }
  }

  lemma ImproveFrontier(dist: map<Node, real>, visited: set<Node>, heap: seq<Entry>, v: Node, d: real)
    requires visited <= dist.Keys && v !in visited && Frontier(dist, visited, heap)
    requires (v in dist ==> d < dist[v]) && forall a :: a in visited ==> dist[a] <= d
    ensures Frontier(dist[v := d], visited, heap + [Entry(d, v)])
  {
  }

  /** A better label for the head of `e` keeps the labels, the relaxed edges and the heap right. */
  lemma RelaxEdge(n: Net, source: Node, dist: map<Node, real>, prev: Prev, heap: seq<Entry>,
                  visited: set<Node>, rank: map<Node, nat>, e: EdgeRef, todo: set<EdgeRef>)
    requires Labels(n, source, dist, prev, visited, rank) && e.v in n.nodes
    requires n.Usable(e) && e.u in visited && forall a :: a in visited ==> dist[a] <= dist[e.u]
    requires Relaxed(n, dist, visited, todo + {e}) && Frontier(dist, visited, heap)
    requires e.v !in dist || dist[e.u] + n.Weight(e) < dist[e.v]
    ensures e.v !in visited && e.v != source
    ensures var nd := dist[e.u] + n.Weight(e);
            && Labels(n, source, dist[e.v := nd], prev[e.v := (e.u, e.k)], visited, rank)
            && Relaxed(n, dist[e.v := nd], visited, todo)
            && Frontier(dist[e.v := nd], visited, heap + [Entry(nd, e.v)])
  {
    ImprovesOpen(n, source, dist, prev, visited, rank, e);
    ImproveLabels(n, source, dist, prev, visited, rank, e);
    ImproveFrontier(dist, visited, heap, e.v, dist[e.u] + n.Weight(e));
  }

  lemma {:induction false} LabelsNonNegative(n: Net, source: Node, dist: map<Node, real>, prev: Prev,
                                             visited: set<Node>, rank: map<Node, nat>, v: Node)
    requires Labels(n, source, dist, prev, visited, rank) && v in visited
    ensures 0.0 <= dist[v]
    decreases rank[v]
  {
    if v != source {
      assert Labelled(n, dist, prev, rank, v);
      LabelsNonNegative(n, source, dist, prev, visited, rank, prev[v].0);
    }
  }

  /** What holds while the edges in `todo` are still to be relaxed. */
  ghost predicate Searching(n: Net, source: Node, dist: map<Node, real>, prev: Prev, heap: seq<Entry>,
                            visited: set<Node>, rank: map<Node, nat>, todo: set<EdgeRef>)
    requires visited <= dist.Keys
  {
    forall k {:trigger Recall(Sweeping, k)} :: Recall(Sweeping, k) ==>
      && Labels(n, source, dist, prev, visited, rank)
      && Relaxed(n, dist, visited, todo) && Frontier(dist, visited, heap)
  }

  /** Relaxes one edge out of a node that was settled last. */
  method RelaxOne(n: Net, ghost source: Node, e: EdgeRef, dist0: map<Node, real>, prev0: Prev, heap0: seq<Entry>,
                  ghost visited: set<Node>, ghost rank: map<Node, nat>, ghost todo: set<EdgeRef>)
    returns (dist: map<Node, real>, prev: Prev, heap: seq<Entry>)
    requires e in n.edges && e.v in n.nodes && e.u in visited && visited <= dist0.Keys
    requires forall a :: a in visited ==> dist0[a] <= dist0[e.u]
    requires Searching(n, source, dist0, prev0, heap0, visited, rank, todo + {e})
    ensures visited <= dist.Keys && forall a :: a in visited ==> dist[a] == dist0[a]
    ensures Searching(n, source, dist, prev, heap, visited, rank, todo)
  {
    assert Recall(Sweeping, 0);
    dist, prev, heap := dist0, prev0, heap0;
    var w := n.Weight(e);
    if w >= 0.0 {
      var nd := dist[e.u] + w;
      if e.v !in dist || nd < dist[e.v] {
        RelaxEdge(n, source, dist, prev, heap, visited, rank, e, todo);
        dist, prev, heap := dist[e.v := nd], prev[e.v := (e.u, e.k)], heap + [Entry(nd, e.v)];
      }
    }
  }

  /** Relaxes all usable edges out of the node `u` that was just settled. */
  method RelaxOut(n: Net, ghost source: Node, u: Node, dist0: map<Node, real>, prev0: Prev,
                  heap0: seq<Entry>, ghost visited: set<Node>, ghost rank: map<Node, nat>)
    returns (dist: map<Node, real>, prev: Prev, heap: seq<Entry>)
    requires n.EdgesClosed() && u in visited && visited <= dist0.Keys
    requires forall a :: a in visited ==> dist0[a] <= dist0[u]
    requires Searching(n, source, dist0, prev0, heap0, visited, rank, n.Out(u))
    ensures visited <= dist.Keys && forall a :: a in visited ==> dist[a] == dist0[a]
    ensures Searching(n, source, dist, prev, heap, visited, rank, {})
  {
    dist, prev, heap := dist0, prev0, heap0;
    var todo := n.Out(u);
    while todo != {}
      invariant todo <= n.Out(u) && visited <= dist.Keys
      invariant forall a :: a in visited ==> dist[a] == dist0[a]
      invariant Searching(n, source, dist, prev, heap, visited, rank, todo)
      decreases todo
    {
      var e :| e in todo;
      assert todo == todo - {e} + {e};
      todo := todo - {e};
      dist, prev, heap := RelaxOne(n, source, e, dist, prev, heap, visited, rank, todo);
    }
  }

  // ----- Why settled labels are shortest distances ----------------------------------------

  /** Leaving the settled set costs at least the least open label. */
  lemma {:induction false} WalkLowerBound(n: Net, source: Node, dist: map<Node, real>, visited: set<Node>,
                                          lo: real, p: seq<EdgeRef>, t: Node)
    requires source in dist && dist[source] == 0.0 && visited <= dist.Keys
    requires Relaxed(n, dist, visited, {})
    requires forall v :: v in dist && v !in visited ==> lo <= dist[v]
    requires n.IsWalk(source, p, t)
    ensures lo <= n.Len(source, p, t) || (t in dist && dist[t] <= n.Len(source, p, t))
  {
    n.WalkEdges(source, p, t);
    if p != [] {
      var e := p[|p| - 1];
      WalkLowerBound(n, source, dist, visited, lo, p[..|p| - 1], e.u);
      assert n.Usable(e);
    }
  }

  /** The recorded route to a settled node. */
  ghost function TreePath(n: Net, source: Node, dist: map<Node, real>, prev: Prev,
                          visited: set<Node>, rank: map<Node, nat>, v: Node): seq<EdgeRef>
    requires Labels(n, source, dist, prev, visited, rank) && v in visited
    decreases rank[v]
  {
    if v == source then []
    else
      assert Labelled(n, dist, prev, rank, v);
      TreePath(n, source, dist, prev, visited, rank, prev[v].0) + [Into(prev, v)]
  }

  lemma {:induction false} TreePathIsWalk(n: Net, source: Node, dist: map<Node, real>, prev: Prev,
                                          visited: set<Node>, rank: map<Node, nat>, v: Node)
    requires Labels(n, source, dist, prev, visited, rank) && v in visited
    ensures var p := TreePath(n, source, dist, prev, visited, rank, v);
            n.IsWalk(source, p, v) && n.Len(source, p, v) == dist[v]
    decreases rank[v]
  {
    if v != source {
      assert Labelled(n, dist, prev, rank, v);
      var u := prev[v].0;
      TreePathIsWalk(n, source, dist, prev, visited, rank, u);
      WalkExtend(n, source, TreePath(n, source, dist, prev, visited, rank, u), Into(prev, v));
    }
  }

  /** Settling ranks rise along a recorded route, so it meets no node twice. */
  lemma {:induction false} TreePathIsSimple(n: Net, source: Node, dist: map<Node, real>, prev: Prev,
                                            visited: set<Node>, rank: map<Node, nat>, v: Node)
    requires Labels(n, source, dist, prev, visited, rank) && v in visited
    ensures var p := TreePath(n, source, dist, prev, visited, rank, v);
            && (forall i :: 0 <= i < |p| ==> p[i].v in visited && rank[p[i].v] <= rank[v])
            && IsSimple(source, p)
    decreases rank[v]
  {
    if v != source {
      assert Labelled(n, dist, prev, rank, v);
      TreePathIsSimple(n, source, dist, prev, visited, rank, prev[v].0);
    }
  }

  /** Walks the recorded predecessors back from `target`. */
  method ReconstructPathEdges(n: Net, source: Node, target: Node, prev: Prev,
                              ghost dist: map<Node, real>, ghost visited: set<Node>,
                              ghost rank: map<Node, nat>)
    returns (edges: seq<EdgeRef>)
    requires Labels(n, source, dist, prev, visited, rank) && target in visited
    ensures n.IsWalk(source, edges, target) && n.Len(source, edges, target) == dist[target]
    ensures IsSimple(source, edges)
  {
    ghost var whole := TreePath(n, source, dist, prev, visited, rank, target);
    edges := [];
    var cur := target;
    while cur != source
      invariant cur in visited
      invariant whole == TreePath(n, source, dist, prev, visited, rank, cur) + edges
      decreases rank[cur]
    {
      assert Labelled(n, dist, prev, rank, cur);
      edges := [Into(prev, cur)] + edges;
      cur := prev[cur].0;
    }
    assert edges == whole;
    TreePathIsWalk(n, source, dist, prev, visited, rank, target);
    TreePathIsSimple(n, source, dist, prev, visited, rank, target);
  }

  // ----- Candidates -----------------------------------------------------------------------

  ghost predicate WithinCutoff(cutoff: Option<real>, d: real) {
    cutoff.None? || d <= cutoff.value
  }

  ghost predicate Listed(cands: seq<Candidate>, t: Node) {
    exists i :: 0 <= i < |cands| && cands[i].node == t
  }

  /** Distinct reachable targets with their true distances, nearest first. */
  ghost predicate ValidCandidates(n: Net, source: Node, targets: set<Node>, score: (Node, real) -> real,
                                  cands: seq<Candidate>)
  {
    && (forall c :: c in cands ==>
          c.node in targets && n.Shortest(source, c.node, c.d) && c.score == score(c.node, c.d))
    && (forall i, j :: 0 <= i < j < |cands| ==> cands[i].node != cands[j].node && cands[i].d <= cands[j].d)
  }

  /** The relative bound: the scaled distance of the nearest candidate. */
  ghost function Cap(scale: real -> real, cands: seq<Candidate>): Option<real> {
    if cands == [] then None else Some(scale(cands[0].d))
  }

  /** Candidates after the nearest lie within the relative bound, all within the absolute one. */
  ghost predicate WithinBounds(cap: Option<real>, cutoff: Option<real>, cands: seq<Candidate>) {
    && (forall c :: c in cands ==> WithinCutoff(cutoff, c.d))
    && (forall i :: 0 < i < |cands| ==> WithinCutoff(cap, cands[i].d))
  }

  /** A target left out is no nearer than those listed, and was left out for a reason. */
  ghost predicate Justified(limit: int, cap: Option<real>, cutoff: Option<real>, cands: seq<Candidate>, len: real) {
    && (cands != [] ==> cands[|cands| - 1].d <= len)
    && (!WithinCutoff(cutoff, len) || (cands != [] && (|cands| >= limit || !WithinCutoff(cap, len))))
  }

  ghost predicate Complete(n: Net, source: Node, targets: set<Node>, limit: int, cap: Option<real>,
                           cutoff: Option<real>, cands: seq<Candidate>)
  {
    forall t, p :: t in targets && !Listed(cands, t) && n.IsWalk(source, p, t) ==>
      Justified(limit, cap, cutoff, cands, n.Len(source, p, t))
  }

  /** During the sweep the candidates are exactly the settled targets. */
  ghost predicate Collected(targets: set<Node>, visited: set<Node>, dist: map<Node, real>, cands: seq<Candidate>)
    requires visited <= dist.Keys
  {
    && (forall c :: c in cands ==> c.node in visited && c.d == dist[c.node])
    && (forall t :: t in targets && t in visited ==> Listed(cands, t))
  }

  /** When the least open label is `d`, any unlisted target is at least `d` away. */
  lemma UnlistedIsFar(n: Net, source: Node, targets: set<Node>, dist: map<Node, real>, visited: set<Node>,
                      cands: seq<Candidate>, d: real, t: Node, p: seq<EdgeRef>)
    requires source in dist && dist[source] == 0.0 && visited <= dist.Keys
    requires Relaxed(n, dist, visited, {}) && Collected(targets, visited, dist, cands)
    requires forall v :: v in dist && v !in visited ==> d <= dist[v]
    requires t in targets && !Listed(cands, t) && n.IsWalk(source, p, t)
    ensures d <= n.Len(source, p, t)
  {
    WalkLowerBound(n, source, dist, visited, d, p, t);
  }

  /** With no open label left, every reachable target is listed. */
  lemma SweptAll(n: Net, source: Node, targets: set<Node>, dist: map<Node, real>, visited: set<Node>,
                 cands: seq<Candidate>, t: Node, p: seq<EdgeRef>)
    requires source in dist && dist[source] == 0.0 && visited <= dist.Keys
    requires Relaxed(n, dist, visited, {}) && Collected(targets, visited, dist, cands)
    requires forall v :: v in dist ==> v in visited
    requires t in targets && n.IsWalk(source, p, t)
    ensures Listed(cands, t)
  {
    if !Listed(cands, t) {
      UnlistedIsFar(n, source, targets, dist, visited, cands, n.Len(source, p, t) + 1.0, t, p);
    }
  }

  /** Nodes are ranked in the order they were settled. */
  ghost predicate Ranked(rank: map<Node, nat>, visited: set<Node>) {
    rank.Keys == visited && forall v :: v in visited ==> rank[v] < |visited|
  }

  lemma RankedStep(rank: map<Node, nat>, visited: set<Node>, u: Node)
    requires Ranked(rank, visited) && u !in visited
    ensures Ranked(rank[u := |visited|], visited + {u})
  {
    assert |visited + {u}| == |visited| + 1;
  }

  /** Popping an open label settles its node. */
  lemma Settle(n: Net, source: Node, dist: map<Node, real>, prev: Prev, visited: set<Node>,
               rank: map<Node, nat>, heap: seq<Entry>, top: Entry, rest: seq<Entry>)
    requires visited <= dist.Keys && Searching(n, source, dist, prev, heap, visited, rank, {})
    requires Ranked(rank, visited)
    requires top in heap && forall x :: x in heap ==> HeapLe(top, x)
    requires forall x :: x in heap && x != top ==> x in rest
    requires forall x :: x in rest ==> x in heap
    requires top.node !in visited
    ensures top.node in dist && top.node in n.nodes && top.d == dist[top.node]
    ensures n.Shortest(source, top.node, top.d)
    ensures forall v :: v in dist && v !in visited ==> top.d <= dist[v]
    ensures forall a :: a in visited ==> dist[a] <= top.d
    ensures Ranked(rank[top.node := |visited|], visited + {top.node})
    ensures Searching(n, source, dist, prev, rest, visited + {top.node}, rank[top.node := |visited|], n.Out(top.node))
  {
    assert Recall(Sweeping, 0);
    var u := top.node;
    forall v | v in dist && v !in visited
      ensures top.d <= dist[v]
    {
      assert HeapLe(top, Entry(dist[v], v));
    }
    RankedStep(rank, visited, u);
    LabelsSettled(n, source, dist, prev, visited, rank, u);
    SettledIsShortest(n, source, dist, prev, visited, visited + {u}, rank[u := |visited|], u);
    FrontierPopped(dist, visited, heap, top, rest);
  }

  lemma LabelsSettled(n: Net, source: Node, dist: map<Node, real>, prev: Prev, visited: set<Node>, rank: map<Node, nat>, u: Node)
    requires Labels(n, source, dist, prev, visited, rank) && Ranked(rank, visited) && u in dist && u !in visited
    ensures Labels(n, source, dist, prev, visited + {u}, rank[u := |visited|])
  {
    forall v | v in dist && v != source
      ensures Labelled(n, dist, prev, rank[u := |visited|], v)
    {
      assert Labelled(n, dist, prev, rank, v);
    }
  }

  lemma FrontierPopped(dist: map<Node, real>, visited: set<Node>, heap: seq<Entry>, top: Entry, rest: seq<Entry>)
    requires visited <= dist.Keys && Frontier(dist, visited, heap) && top in heap && top.d == dist[top.node]
    requires (forall x :: x in heap ==> HeapLe(top, x)) && (forall x :: x in heap && x != top ==> x in rest)
    requires forall x :: x in rest ==> x in heap
    ensures Frontier(dist, visited + {top.node}, rest)
  {
  }

  /** An entry for a settled node is stale and can be dropped. */
  lemma DropStale(n: Net, source: Node, dist: map<Node, real>, prev: Prev, visited: set<Node>,
                  rank: map<Node, nat>, heap: seq<Entry>, top: Entry, rest: seq<Entry>)
    requires visited <= dist.Keys && Searching(n, source, dist, prev, heap, visited, rank, {})
    requires forall x :: x in heap && x != top ==> x in rest
    requires forall x :: x in rest ==> x in heap
    requires top.node in visited
    ensures Searching(n, source, dist, prev, rest, visited, rank, {})
  {
    assert Recall(Sweeping, 0);
  }

  /** A least open label is the true distance of its node. */
  lemma SettledIsShortest(n: Net, source: Node, dist: map<Node, real>, prev: Prev,
                          visited: set<Node>, visited': set<Node>, rank': map<Node, nat>, u: Node)
    requires Labels(n, source, dist, prev, visited', rank')
    requires visited' == visited + {u} && u !in visited
    requires Relaxed(n, dist, visited, {})
    requires forall v :: v in dist && v !in visited ==> dist[u] <= dist[v]
    ensures n.Shortest(source, u, dist[u])
  {
    TreePathIsWalk(n, source, dist, prev, visited', rank', u);
    forall p | n.IsWalk(source, p, u)
      ensures dist[u] <= n.Len(source, p, u)
    {
      WalkLowerBound(n, source, dist, visited, dist[u], p, u);
    }
  }

  /** Settling the target `u` extends the list by one valid candidate. */
  lemma AddCandidate(n: Net, source: Node, targets: set<Node>, scale: real -> real, cutoff: Option<real>,
                     score: (Node, real) -> real, dist: map<Node, real>, visited: set<Node>,
                     cands: seq<Candidate>, u: Node)
    requires visited <= dist.Keys && u in dist && u !in visited && u in targets
    requires ValidCandidates(n, source, targets, score, cands) && Collected(targets, visited, dist, cands)
    requires n.Shortest(source, u, dist[u]) && forall a :: a in visited ==> dist[a] <= dist[u]
    requires WithinBounds(Cap(scale, cands), cutoff, cands)
    requires WithinCutoff(cutoff, dist[u]) && WithinCutoff(Cap(scale, cands), dist[u])
    ensures var cands' := cands + [Candidate(u, dist[u], score(u, dist[u]))];
            && ValidCandidates(n, source, targets, score, cands')
            && Collected(targets, visited + {u}, dist, cands')
            && WithinBounds(Cap(scale, cands'), cutoff, cands')
            && Cap(scale, cands') == if cands == [] then Some(scale(dist[u])) else Cap(scale, cands)
  {
    var cands' := cands + [Candidate(u, dist[u], score(u, dist[u]))];
    assert cands'[|cands|].node == u;
    forall t | t in targets && t in visited
      ensures Listed(cands', t)
    {
      var i :| 0 <= i < |cands| && cands[i].node == t;
      assert cands'[i].node == t;
    }
    forall i | 0 <= i < |cands|
      ensures cands[i].node in visited && cands[i].d <= dist[u]
    {
      assert cands[i] in cands;
    }
  }

  lemma StopAtBound(n: Net, source: Node, targets: set<Node>, limit: int, cap: Option<real>, cutoff: Option<real>,
                    dist: map<Node, real>, prev: Prev, heap: seq<Entry>, visited: set<Node>, rank: map<Node, nat>,
                    cands: seq<Candidate>, d: real)
    requires visited <= dist.Keys && Searching(n, source, dist, prev, heap, visited, rank, {})
    requires Collected(targets, visited, dist, cands)
    requires forall v :: v in dist && v !in visited ==> d <= dist[v]
    requires forall a :: a in visited ==> dist[a] <= d
    requires !WithinCutoff(cutoff, d) || (cands != [] && !WithinCutoff(cap, d))
    ensures Complete(n, source, targets, limit, cap, cutoff, cands)
  {
    assert Recall(Sweeping, 0);
    forall t, p | t in targets && !Listed(cands, t) && n.IsWalk(source, p, t)
      ensures Justified(limit, cap, cutoff, cands, n.Len(source, p, t))
    {
      UnlistedIsFar(n, source, targets, dist, visited, cands, d, t, p);
      assert cands != [] ==> cands[|cands| - 1] in cands;
    }
  }

  lemma StopAtLimit(n: Net, source: Node, targets: set<Node>, limit: int, cap: Option<real>, cutoff: Option<real>,
                    score: (Node, real) -> real, dist: map<Node, real>, prev: Prev, heap: seq<Entry>, visited: set<Node>, rank: map<Node, nat>,
                    cands: seq<Candidate>, u: Node)
    requires visited <= dist.Keys && u in dist && Searching(n, source, dist, prev, heap, visited, rank, {})
    requires Collected(targets, visited, dist, cands)
    requires forall v :: v in dist && v !in visited ==> dist[u] <= dist[v]
    requires |cands| + 1 >= limit
    ensures Complete(n, source, targets, limit, cap, cutoff,
                     cands + [Candidate(u, dist[u], score(u, dist[u]))])
  {
    assert Recall(Sweeping, 0);
    var cands' := cands + [Candidate(u, dist[u], score(u, dist[u]))];
    forall t, p | t in targets && !Listed(cands', t) && n.IsWalk(source, p, t)
      ensures Justified(limit, cap, cutoff, cands', n.Len(source, p, t))
    {
      assert forall i :: 0 <= i < |cands| ==> cands'[i] == cands[i];
      UnlistedIsFar(n, source, targets, dist, visited, cands, dist[u], t, p);
    }
  }

  lemma StopAtEmpty(n: Net, source: Node, targets: set<Node>, limit: int, cap: Option<real>, cutoff: Option<real>,
                    dist: map<Node, real>, prev: Prev, heap: seq<Entry>, visited: set<Node>, rank: map<Node, nat>,
                    cands: seq<Candidate>)
    requires visited <= dist.Keys && Searching(n, source, dist, prev, heap, visited, rank, {})
    requires Collected(targets, visited, dist, cands)
    requires heap == []
    ensures Complete(n, source, targets, limit, cap, cutoff, cands)
  {
    assert Recall(Sweeping, 0);
    forall t, p | t in targets && n.IsWalk(source, p, t)
      ensures Listed(cands, t)
    {
      SweptAll(n, source, targets, dist, visited, cands, t, p);
    }
  }

  /** An index of the first candidate of least score. */
  method BestCandidate(cands: seq<Candidate>) returns (best: nat)
    requires cands != []
    ensures best < |cands|
    ensures forall i :: 0 <= i < |cands| ==> cands[best].score <= cands[i].score
    ensures forall i :: 0 <= i < best ==> cands[best].score < cands[i].score
  {
    best := 0;
    for i := 1 to |cands|
      invariant best < i
      invariant forall j :: 0 <= j < i ==> cands[best].score <= cands[j].score
      invariant forall j :: 0 <= j < best ==> cands[best].score < cands[j].score
    {
      if cands[i].score < cands[best].score {
        best := i;
      }
    }
  }

  // ----- The search -----------------------------------------------------------------------

  /** A target at its true distance, with a simple path of graph edges of exactly that length. */
  ghost predicate Answers(n: Net, source: Node, targets: set<Node>, f: Found) {
    && f.node in targets
    && n.Shortest(source, f.node, f.dist)
    && n.IsWalk(source, f.path, f.node) && n.Len(source, f.path, f.node) == f.dist
    && IsSimple(source, f.path)
  }

  /** The answer is a candidate of least score. */
  ghost predicate Chosen(cands: seq<Candidate>, f: Found) {
    exists i :: && 0 <= i < |cands| && cands[i].node == f.node && cands[i].d == f.dist
                && forall j :: 0 <= j < |cands| ==> cands[i].score <= cands[j].score
  }

  ghost predicate ReachableWithin(n: Net, source: Node, targets: set<Node>, cutoff: Option<real>) {
    exists t, p :: t in targets && n.IsWalk(source, p, t) && WithinCutoff(cutoff, n.Len(source, p, t))
  }

  /** The source itself is at distance 0. */
  lemma SourceIsShortest(n: Net, source: Node)
    ensures n.IsWalk(source, [], source) && n.Len(source, [], source) == 0.0
    ensures n.Shortest(source, source, 0.0)
  {
    assert n.IsWalk(source, [], source) && n.Len(source, [], source) == 0.0;
    forall p | n.IsWalk(source, p, source)
      ensures 0.0 <= n.Len(source, p, source)
    {
      WalkWeightNonNegative(n, source, p, source);
    }
  }

  /** A complete valid list is empty exactly when no target is in reach. */
  lemma EmptyMeansOutOfReach(n: Net, source: Node, targets: set<Node>, limit: int, cap: Option<real>,
                             cutoff: Option<real>, score: (Node, real) -> real, cands: seq<Candidate>)
    requires ValidCandidates(n, source, targets, score, cands)
    requires WithinBounds(cap, cutoff, cands)
    requires Complete(n, source, targets, limit, cap, cutoff, cands)
    ensures cands == [] <==> !ReachableWithin(n, source, targets, cutoff)
  {
    if cands != [] {
      assert cands[0] in cands;
    } else {
      forall t, p | t in targets && n.IsWalk(source, p, t)
        ensures !WithinCutoff(cutoff, n.Len(source, p, t))
      {
        assert !Listed(cands, t);
      }
    }
  }

  /** What is known of the candidates while the sweep goes on. */
  ghost predicate Gathering(n: Net, source: Node, targets: set<Node>, limit: int, scale: real -> real, cutoff: Option<real>,
                            score: (Node, real) -> real, dist: map<Node, real>, visited: set<Node>, cands: seq<Candidate>,
                            cap: Option<real>)
  {
    forall k {:trigger Recall(Gathered, k)} :: Recall(Gathered, k) ==>
      && visited <= dist.Keys && Collected(targets, visited, dist, cands)
      && ValidCandidates(n, source, targets, score, cands) && WithinBounds(cap, cutoff, cands)
      && cap == Cap(scale, cands) && (cands == [] || |cands| < limit)
  }

  /** What is known of the candidates when it has stopped. */
  ghost predicate AllGathered(n: Net, source: Node, targets: set<Node>, limit: int, scale: real -> real, cutoff: Option<real>,
                              score: (Node, real) -> real, dist: map<Node, real>, visited: set<Node>, cands: seq<Candidate>)
  {
    forall k {:trigger Recall(Gathered, k)} :: Recall(Gathered, k) ==>
      && ValidCandidates(n, source, targets, score, cands)
      && WithinBounds(Cap(scale, cands), cutoff, cands)
      && Complete(n, source, targets, limit, Cap(scale, cands), cutoff, cands)
      && (|cands| <= 1 || |cands| <= limit)
      && visited <= dist.Keys && forall c :: c in cands ==> c.node in visited && c.d == dist[c.node]
  }

  lemma GatherNone(n: Net, source: Node, targets: set<Node>, limit: int, scale: real -> real, cutoff: Option<real>,
                   score: (Node, real) -> real, dist: map<Node, real>)
    ensures Gathering(n, source, targets, limit, scale, cutoff, score, dist, {}, [], None)
  {
  }

  lemma GatherPass(n: Net, source: Node, targets: set<Node>, limit: int, scale: real -> real, cutoff: Option<real>,
                   score: (Node, real) -> real, dist: map<Node, real>, visited: set<Node>, cands: seq<Candidate>,
                   cap: Option<real>, u: Node)
    requires Gathering(n, source, targets, limit, scale, cutoff, score, dist, visited, cands, cap) && u in dist && u !in targets
    ensures Gathering(n, source, targets, limit, scale, cutoff, score, dist, visited + {u}, cands, cap)
  {
    assert Recall(Gathered, 0);
  }

  lemma GatherRelaxed(n: Net, source: Node, targets: set<Node>, limit: int, scale: real -> real, cutoff: Option<real>,
                      score: (Node, real) -> real, dist: map<Node, real>, dist': map<Node, real>, visited: set<Node>,
                      cands: seq<Candidate>, cap: Option<real>)
    requires Gathering(n, source, targets, limit, scale, cutoff, score, dist, visited, cands, cap)
    requires visited <= dist.Keys && visited <= dist'.Keys && forall a :: a in visited ==> dist'[a] == dist[a]
    ensures Gathering(n, source, targets, limit, scale, cutoff, score, dist', visited, cands, cap)
  {
    assert Recall(Gathered, 0);
  }

  /** Takes in a settled target. */
  method Consider(ghost n: Net, ghost source: Node, ghost targets: set<Node>, ghost limit: int, scale: real -> real,
                  ghost cutoff: Option<real>, score: (Node, real) -> real, ghost dist: map<Node, real>,
                  ghost visited: set<Node>, cands0: seq<Candidate>, cap0: Option<real>, u: Node, d: real)
    returns (cands: seq<Candidate>, cap: Option<real>)
    requires Gathering(n, source, targets, limit, scale, cutoff, score, dist, visited, cands0, cap0)
    requires u in dist && u !in visited && u in targets && d == dist[u] && visited <= dist.Keys
    requires n.Shortest(source, u, d) && forall a :: a in visited ==> dist[a] <= d
    requires WithinCutoff(cutoff, d) && WithinCutoff(cap0, d)
    ensures cands == cands0 + [Candidate(u, d, score(u, d))]
    ensures |cands| < limit ==> Gathering(n, source, targets, limit, scale, cutoff, score, dist, visited + {u}, cands, cap)
  {
    assert Recall(Gathered, 0);
    cap := if cap0.None? then Some(scale(d)) else cap0;
    cands := cands0 + [Candidate(u, d, score(u, d))];
    AddCandidate(n, source, targets, scale, cutoff, score, dist, visited, cands0, u);
  }

  lemma StoppedAtBound(n: Net, source: Node, targets: set<Node>, limit: int, scale: real -> real, cutoff: Option<real>,
                       score: (Node, real) -> real, dist: map<Node, real>, prev: Prev, heap: seq<Entry>, visited: set<Node>,
                       rank: map<Node, nat>, cands: seq<Candidate>, cap: Option<real>, u: Node, d: real)
    requires visited <= dist.Keys && Searching(n, source, dist, prev, heap, visited, rank, {}) && u in dist
    requires Gathering(n, source, targets, limit, scale, cutoff, score, dist, visited, cands, cap)
    requires forall v :: v in dist && v !in visited ==> d <= dist[v]
    requires forall a :: a in visited ==> dist[a] <= d
    requires !WithinCutoff(cutoff, d) || !WithinCutoff(cap, d)
    ensures AllGathered(n, source, targets, limit, scale, cutoff, score, dist, visited + {u}, cands)
  {
    assert Recall(Gathered, 0);
    StopAtBound(n, source, targets, limit, cap, cutoff, dist, prev, heap, visited, rank, cands, d);
  }

  lemma StoppedAtLimit(n: Net, source: Node, targets: set<Node>, limit: int, scale: real -> real, cutoff: Option<real>,
                       score: (Node, real) -> real, dist: map<Node, real>, prev: Prev, heap: seq<Entry>, visited: set<Node>,
                       rank: map<Node, nat>, cands: seq<Candidate>, cap: Option<real>, u: Node)
    requires visited <= dist.Keys && Searching(n, source, dist, prev, heap, visited, rank, {})
    requires Gathering(n, source, targets, limit, scale, cutoff, score, dist, visited, cands, cap)
    requires u in dist && u !in visited && u in targets && n.Shortest(source, u, dist[u])
    requires forall v :: v in dist && v !in visited ==> dist[u] <= dist[v]
    requires forall a :: a in visited ==> dist[a] <= dist[u]
    requires WithinCutoff(cutoff, dist[u]) && WithinCutoff(cap, dist[u]) && |cands| + 1 >= limit
    ensures AllGathered(n, source, targets, limit, scale, cutoff, score, dist, visited + {u},
                        cands + [Candidate(u, dist[u], score(u, dist[u]))])
  {
    assert Recall(Gathered, 0);
    AddCandidate(n, source, targets, scale, cutoff, score, dist, visited, cands, u);
    var more := cands + [Candidate(u, dist[u], score(u, dist[u]))];
    StopAtLimit(n, source, targets, limit, Cap(scale, more), cutoff, score, dist, prev, heap, visited, rank, cands, u);
  }

  lemma StoppedAtEmpty(n: Net, source: Node, targets: set<Node>, limit: int, scale: real -> real, cutoff: Option<real>,
                       score: (Node, real) -> real, dist: map<Node, real>, prev: Prev, visited: set<Node>,
                       rank: map<Node, nat>, cands: seq<Candidate>, cap: Option<real>)
    requires visited <= dist.Keys && Searching(n, source, dist, prev, [], visited, rank, {})
    requires Gathering(n, source, targets, limit, scale, cutoff, score, dist, visited, cands, cap)
    ensures AllGathered(n, source, targets, limit, scale, cutoff, score, dist, visited, cands)
  {
    assert Recall(Gathered, 0);
    StopAtEmpty(n, source, targets, limit, cap, cutoff, dist, prev, [], visited, rank, cands);
  }

  /** The best-scored candidate, if there is one, reached along its recorded route. */
  method PickBest(n: Net, source: Node, targets: set<Node>, ghost limit: int, ghost scale: real -> real,
                  ghost cutoff: Option<real>, score: (Node, real) -> real, candidates: seq<Candidate>,
                  prev: Prev, ghost dist: map<Node, real>, ghost heap: seq<Entry>, ghost visited: set<Node>,
                  ghost rank: map<Node, nat>, ghost todo: set<EdgeRef>)
    returns (r: Option<Found>)
    requires AllGathered(n, source, targets, limit, scale, cutoff, score, dist, visited, candidates)
    requires visited <= dist.Keys && Searching(n, source, dist, prev, heap, visited, rank, todo)
    ensures ValidCandidates(n, source, targets, score, candidates)
    ensures WithinBounds(Cap(scale, candidates), cutoff, candidates)
    ensures Complete(n, source, targets, limit, Cap(scale, candidates), cutoff, candidates)
    ensures |candidates| <= 1 || |candidates| <= limit
    ensures r.None? <==> candidates == []
    ensures r.Some? ==> Answers(n, source, targets, r.value) && Chosen(candidates, r.value)
  {
    assert Recall(Gathered, 0);
    if candidates == [] {
      return None;
    }
    assert Recall(Sweeping, 0);
    var best := BestCandidate(candidates);
    var c := candidates[best];
    var path := ReconstructPathEdges(n, source, c.node, prev, dist, visited, rank);
    r := Some(Found(c.node, c.d, path));
  }

  /** The sweep; `scale` turns the nearest distance into the relative bound. */
  method Sweep(n: Net, source: Node, targets: set<Node>, limit: int, scale: real -> real,
               cutoff: Option<real>, score: (Node, real) -> real)
    returns (r: Option<Found>, candidates: seq<Candidate>)
    requires n.EdgesClosed() && source in n.nodes
    ensures ValidCandidates(n, source, targets, score, candidates)
    ensures WithinBounds(Cap(scale, candidates), cutoff, candidates)
    ensures Complete(n, source, targets, limit, Cap(scale, candidates), cutoff, candidates)
    ensures |candidates| <= 1 || |candidates| <= limit
    ensures r.None? <==> candidates == []
    ensures r.Some? ==> Answers(n, source, targets, r.value) && Chosen(candidates, r.value)
  {
    var dist: map<Node, real>, prev: Prev, heap := map[source := 0.0], map[], [Entry(0.0, source)];
    var visited: set<Node> := {};
    ghost var rank: map<Node, nat>, todo: set<EdgeRef> := map[], {};
    candidates := [];
    var cap: Option<real> := None;  // the scaled distance of the nearest target, once one is found
    ghost var stopped := false;
    GatherNone(n, source, targets, limit, scale, cutoff, score, dist);

    while heap != []
      invariant !stopped && todo == {} && visited <= dist.Keys && visited <= n.nodes
      invariant Searching(n, source, dist, prev, heap, visited, rank, todo) && Ranked(rank, visited)
      invariant Gathering(n, source, targets, limit, scale, cutoff, score, dist, visited, candidates, cap)
      decreases n.nodes - visited, |heap|
    {
      var top, rest := HeapPop(heap);
      var d, u := top.d, top.node;
      if u in visited {
        DropStale(n, source, dist, prev, visited, rank, heap, top, rest);
        heap := rest;
        continue;
      }
      Settle(n, source, dist, prev, visited, rank, heap, top, rest);
      ghost var settled, ranked, open := visited, rank, heap;
      heap, visited := rest, visited + {u};
      rank, todo := rank[u := |settled|], n.Out(u);

      if (cutoff.Some? && d > cutoff.value) || (cap.Some? && d > cap.value) {
        StoppedAtBound(n, source, targets, limit, scale, cutoff, score, dist, prev, open, settled, ranked, candidates, cap, u, d);
        stopped := true;
        break;
      }

      if u in targets {
        ghost var before, bound := candidates, cap;
        candidates, cap := Consider(n, source, targets, limit, scale, cutoff, score, dist, settled, candidates, cap, u, d);
        if |candidates| >= limit {
          StoppedAtLimit(n, source, targets, limit, scale, cutoff, score, dist, prev, open, settled, ranked, before, bound, u);
          stopped := true;
          break;
        }
      } else {
        GatherPass(n, source, targets, limit, scale, cutoff, score, dist, settled, candidates, cap, u);
      }

      ghost var labels := dist;
      dist, prev, heap := RelaxOut(n, source, u, dist, prev, heap, visited, rank);
      todo := {};
      GatherRelaxed(n, source, targets, limit, scale, cutoff, score, labels, dist, visited, candidates, cap);
    }
    if !stopped {
      StoppedAtEmpty(n, source, targets, limit, scale, cutoff, score, dist, prev, visited, rank, candidates, cap);
    }
    r := PickBest(n, source, targets, limit, scale, cutoff, score, candidates, prev, dist, heap, visited, rank, todo);
  }

  /** The other targets that are no farther than `d`. */
  ghost function AsNear(n: Net, source: Node, targets: set<Node>, t: Node, d: real): set<Node> {
    set x | x in targets && x != t && NoFarther(n, source, x, d)
  }

  ghost predicate NoFarther(n: Net, source: Node, x: Node, d: real) {
    exists p :: n.IsWalk(source, p, x) && n.Len(source, p, x) <= d
  }

  /** `d` is within the scaled distance of every target, so of the nearest. */
  ghost predicate WithinScale(n: Net, source: Node, targets: set<Node>, scale: real -> real, d: real) {
    forall x, dx :: x in targets && n.Shortest(source, x, dx) ==> d <= scale(dx)
  }

  /** A target that is left out for the limit has that many others as near. */
  lemma Crowded(n: Net, source: Node, targets: set<Node>, limit: int, cap: Option<real>, cutoff: Option<real>,
                score: (Node, real) -> real, cands: seq<Candidate>, t: Node, d: real)
    requires ValidCandidates(n, source, targets, score, cands) && Complete(n, source, targets, limit, cap, cutoff, cands)
    requires t in targets && n.Shortest(source, t, d) && !Listed(cands, t)
    requires WithinCutoff(cutoff, d) && (cands != [] ==> WithinCutoff(cap, d))
    ensures limit <= |AsNear(n, source, targets, t, d)|
  {
    var p :| n.IsWalk(source, p, t) && n.Len(source, p, t) == d;
    assert Justified(limit, cap, cutoff, cands, d);
    var nodes := seq(|cands|, i requires 0 <= i < |cands| => cands[i].node);
    forall x | x in Elements(nodes)
      ensures x in AsNear(n, source, targets, t, d)
    {
      var i :| 0 <= i < |cands| && cands[i].node == x;
      assert cands[i] in cands && cands[i].d <= cands[|cands| - 1].d;
      var q :| n.IsWalk(source, q, x) && n.Len(source, q, x) == cands[i].d;
      assert NoFarther(n, source, x, d);
    }
    DistinctCount(nodes);
    SubsetCount(Elements(nodes), AsNear(n, source, targets, t, d));
  }

  /**
   The answer scores no worse than any target within the bounds that has fewer than `maxCandidates`
   others as near, and fewer than five or fewer than a quarter of all targets.
   */
  ghost predicate BestOfNear(n: Net, source: Node, targets: set<Node>, maxCandidates: int, scale: real -> real, cutoff: Option<real>,
                             score: (Node, real) -> real, f: Found)
  {
    forall t, d :: t in targets && n.Shortest(source, t, d) && (cutoff.Some? ==> d <= cutoff.value)
      && WithinScale(n, source, targets, scale, d) && FewAsNear(n, source, targets, maxCandidates, t, d)
      ==> score(f.node, f.dist) <= score(t, d)
  }

  ghost predicate FewAsNear(n: Net, source: Node, targets: set<Node>, maxCandidates: int, t: Node, d: real) {
    var others := |AsNear(n, source, targets, t, d)|;
    others < maxCandidates && (others < 5 || others < |targets| / 4)
  }

  lemma ChosenIsBest(n: Net, source: Node, targets: set<Node>, maxCandidates: int, scale: real -> real, limit: int,
                     cutoff: Option<real>, score: (Node, real) -> real, cands: seq<Candidate>, f: Found)
    requires ValidCandidates(n, source, targets, score, cands)
    requires Complete(n, source, targets, limit, Cap(scale, cands), cutoff, cands) && Chosen(cands, f)
    requires limit >= maxCandidates || (limit >= 5 && limit >= |targets| / 4)
    ensures BestOfNear(n, source, targets, maxCandidates, scale, cutoff, score, f)
  {
    forall t, d | t in targets && n.Shortest(source, t, d) && (cutoff.Some? ==> d <= cutoff.value)
      && WithinScale(n, source, targets, scale, d) && FewAsNear(n, source, targets, maxCandidates, t, d)
      ensures score(f.node, f.dist) <= score(t, d)
    {
      assert cands[0] in cands;
      if !Listed(cands, t) {
        Crowded(n, source, targets, limit, Cap(scale, cands), cutoff, score, cands, t, d);
      } else {
        ListedScores(n, source, targets, score, cands, f, t, d);
      }
    }
  }

  lemma ListedScores(n: Net, source: Node, targets: set<Node>, score: (Node, real) -> real, cands: seq<Candidate>, f: Found,
                     t: Node, d: real)
    requires ValidCandidates(n, source, targets, score, cands) && Chosen(cands, f) && Listed(cands, t) && n.Shortest(source, t, d)
    ensures score(f.node, f.dist) <= score(t, d)
  {
    var j :| 0 <= j < |cands| && cands[j].node == t;
    assert cands[j] in cands;
    ShortestIsDistance(n, source, t, d);
    ShortestIsDistance(n, source, t, cands[j].d);
    var i :| 0 <= i < |cands| && cands[i].node == f.node && cands[i].d == f.dist
             && forall k :: 0 <= k < |cands| ==> cands[i].score <= cands[k].score;
    assert cands[i] in cands;
  }

  /** The scale leaves room for the nearest itself. */
  ghost predicate Inflates(scale: real -> real) {
    forall a, b :: 0.0 <= a <= b ==> a <= scale(a) <= scale(b)
  }

  /** A chosen candidate is within the scaled distance of the nearest. */
  lemma ChosenIsWithin(n: Net, source: Node, targets: set<Node>, scale: real -> real, limit: int,
                       cutoff: Option<real>, score: (Node, real) -> real, cands: seq<Candidate>, f: Found)
    requires ValidCandidates(n, source, targets, score, cands) && Chosen(cands, f) && Inflates(scale)
    requires Complete(n, source, targets, limit, Cap(scale, cands), cutoff, cands)
    requires WithinBounds(Cap(scale, cands), cutoff, cands)
    ensures WithinScale(n, source, targets, scale, f.dist)
  {
    forall x, dx | x in targets && n.Shortest(source, x, dx)
      ensures f.dist <= scale(dx)
    {
      var p :| n.IsWalk(source, p, x) && n.Len(source, p, x) == dx;
      NearestIsCandidate(n, source, targets, limit, Cap(scale, cands), cutoff, score, cands, x, p);
      assert cands[0] in cands;
      var q :| n.IsWalk(source, q, cands[0].node) && n.Len(source, q, cands[0].node) == cands[0].d;
      WalkWeightNonNegative(n, source, q, cands[0].node);
      var i :| 0 <= i < |cands| && cands[i].node == f.node && cands[i].d == f.dist
               && forall k :: 0 <= k < |cands| ==> cands[i].score <= cands[k].score;
      assert i > 0 ==> WithinCutoff(Cap(scale, cands), cands[i].d);
      assert cands[0].d <= scale(cands[0].d) <= scale(dx);
    }
  }

  lemma FactorInflates(factor: real)
    requires factor >= 1.0
    ensures Inflates((d: real) => d * factor)
  {
    var scale := (d: real) => d * factor;
    forall a, b | 0.0 <= a <= b
      ensures a <= scale(a) <= scale(b)
    {
      var x, y := Grows(a, b, factor);
      assert scale(a) == x;
      assert scale(b) == y;
    }
  }

  lemma Grows(a: real, b: real, factor: real) returns (x: real, y: real)
    requires 0.0 <= a <= b && factor >= 1.0
    ensures x == a * factor && y == b * factor && a <= x <= y
  {
    x, y := a * factor, b * factor;
    assert x - a == a * (factor - 1.0) && y - x == (b - a) * factor;
  }

  /** Selects the best target among the closest ones. */
  method DijkstraToBestTarget(n: Net, source: Node, targets: set<Node>, maxCandidates: int, factor: real,
                              cutoff: Option<real>, score: (Node, real) -> real)
    returns (r: Option<Found>, ghost cands: seq<Candidate>)
    requires n.EdgesClosed() && source in n.nodes
    ensures source in targets ==> r == Some(Found(source, 0.0, []))
    ensures source !in targets ==> (r.None? <==> !ReachableWithin(n, source, targets, cutoff))
    ensures r.Some? ==> Answers(n, source, targets, r.value)
    ensures source !in targets && r.Some? ==>
              BestOfNear(n, source, targets, maxCandidates, (d: real) => d * factor, cutoff, score, r.value)
    ensures source !in targets && r.Some? && factor >= 1.0 ==>
              WithinScale(n, source, targets, (d: real) => d * factor, r.value.dist)
    ensures source !in targets ==>
              && ValidCandidates(n, source, targets, score, cands)
              && WithinBounds(Cap((d: real) => d * factor, cands), cutoff, cands)
              && (var adapted := if |targets| / 4 > 5 then |targets| / 4 else 5;
                  Complete(n, source, targets, if maxCandidates < adapted then maxCandidates else adapted,
                           Cap((d: real) => d * factor, cands), cutoff, cands))
              && (|cands| <= 1 || (|cands| <= maxCandidates && (|cands| <= 5 || |cands| <= |targets| / 4)))
              && (r.Some? ==> Chosen(cands, r.value))
  {
    if source in targets {
      SourceIsShortest(n, source);
      return Some(Found(source, 0.0, [])), [];
    }
    if targets == {} {
      return None, [];
    }
    var adapted := if |targets| / 4 > 5 then |targets| / 4 else 5;
    var limit := if maxCandidates < adapted then maxCandidates else adapted;
    var scale := (d: real) => d * factor;
    r, cands := Sweep(n, source, targets, limit, scale, cutoff, score);
    EmptyMeansOutOfReach(n, source, targets, limit, Cap(scale, cands), cutoff, score, cands);
    if r.Some? {
      ChosenIsBest(n, source, targets, maxCandidates, scale, limit, cutoff, score, cands, r.value);
      if factor >= 1.0 {
        FactorInflates(factor);
        ChosenIsWithin(n, source, targets, scale, limit, cutoff, score, cands, r.value);
      }
    }
  }

  /** With at most five targets no target within the factor of the nearest scores better than the answer. */
  lemma FewTargetsBest(n: Net, source: Node, targets: set<Node>, maxCandidates: int, scale: real -> real, score: (Node, real) -> real,
                       f: Found, t: Node, d: real)
    requires BestOfNear(n, source, targets, maxCandidates, scale, None, score, f)
    requires |targets| <= 5 <= maxCandidates && t in targets && n.Shortest(source, t, d)
    requires WithinScale(n, source, targets, scale, d)
    ensures score(f.node, f.dist) <= score(t, d)
  {
    var others := AsNear(n, source, targets, t, d);
    SubsetCount(others, targets - {t});
    assert FewAsNear(n, source, targets, maxCandidates, t, d);
  }

  /** However few candidates are kept, a nearest target is among them. */
  lemma NearestIsCandidate(n: Net, source: Node, targets: set<Node>, limit: int, cap: Option<real>,
                           cutoff: Option<real>, score: (Node, real) -> real, cands: seq<Candidate>,
                           t: Node, p: seq<EdgeRef>)
    requires ValidCandidates(n, source, targets, score, cands) && cands != []
    requires Complete(n, source, targets, limit, cap, cutoff, cands)
    requires t in targets && n.IsWalk(source, p, t)
    ensures cands[0].d <= n.Len(source, p, t)
  {
    if Listed(cands, t) {
      var i :| 0 <= i < |cands| && cands[i].node == t;
      assert cands[i] in cands;
    } else {
      assert Justified(limit, cap, cutoff, cands, n.Len(source, p, t));
    }
  }
}
