/**
 The directed street multigraph that every routing module works on, its two notions of
 edge length, and walks with their weights.

 Python's `networkx` graph becomes a finite map from edge references to edge data; the
 order in which a node's outgoing edges are listed is left open, so everything proved
 here holds for every listing order.
 */
module Network {
  import opened Optional

  type Node = int

  datatype Point = Point(x: real, y: real)

  /** A directed edge: tail, head and the key that tells parallel edges apart. */
  datatype EdgeRef = EdgeRef(u: Node, v: Node, k: int)

  /** A street to be driven, named by the directed edges that stand for it. */
  datatype ReqId = ReqId(edges: set<EdgeRef>)

  /** One entry of a service sequence: a requirement and the edge that serves it. */
  datatype Service = Service(rid: ReqId, edge: EdgeRef)

  /** The attributes of an edge: stored length, OSM way id, and the polyline drawn for it. */
  datatype EdgeData = EdgeData(length: Option<real>, osmid: Option<int>, geometry: seq<Point>)

  /**
   `straight` holds the straight-line metres between two nodes that have coordinates, and
   `components` the weakly connected components in the order the graph library lists them.
   */
  datatype Net = Net(
    nodes: set<Node>,
    edges: map<EdgeRef, EdgeData>,
    straight: map<(Node, Node), real>,
    components: seq<set<Node>>)
  {
    ghost predicate Valid() {
      && EdgesClosed()
      && (forall ab :: ab in straight ==> 0.0 <= straight[ab])
      && ComponentsValid()
    }

    ghost predicate EdgesClosed() {
      forall e :: e in edges ==> e.u in nodes && e.v in nodes
    }

    /** The components partition the nodes and no edge leaves its component. */
    ghost predicate ComponentsValid() {
      && (forall v :: v in nodes ==> exists i :: 0 <= i < |components| && v in components[i])
      && (forall i, j, v :: 0 <= i < j < |components| && v in components[i] ==> v !in components[j])
      && (forall e, i :: e in edges && 0 <= i < |components| ==>
            (e.u in components[i] <==> e.v in components[i]))
    }

    /** The weight the path search reads: the stored length, or 1 when there is none. */
    function Weight(e: EdgeRef): real
      requires e in edges
    {
      match edges[e].length
      case Some(l) => l
      case None => 1.0
    }

    /** Best-effort metres: a positive stored length, else the straight line, else 0. */
    function EdgeLength(e: EdgeRef): real {
      if e !in edges then 0.0
      else if edges[e].length.Some? && edges[e].length.value > 0.0 then edges[e].length.value
      else if (e.u, e.v) in straight then straight[(e.u, e.v)]
      else 0.0
    }

    /** The points an edge contributes to a drawn route, oriented from tail to head. */
    function Geometry(e: EdgeRef): seq<Point> {
      if e in edges then edges[e].geometry else []
    }

    /** The path search skips edges of negative weight. */
    predicate Usable(e: EdgeRef) {
      e in edges && 0.0 <= Weight(e)
    }

    /** The outgoing edges of a node. */
    function Out(u: Node): set<EdgeRef> {
      set e | e in edges && e.u == u
    }

    /** `p` is a walk of usable edges from `s` to `t`. */
    ghost predicate IsWalk(s: Node, p: seq<EdgeRef>, t: Node) {
      if p == [] then s == t
      else
        var e := p[|p| - 1];
        Usable(e) && e.v == t && IsWalk(s, p[..|p| - 1], e.u)
    }

    ghost function WalkWeight(p: seq<EdgeRef>): real
      requires forall e :: e in p ==> e in edges
    {
      if p == [] then 0.0 else WalkWeight(p[..|p| - 1]) + Weight(p[|p| - 1])
    }

    lemma {:induction false} WalkEdges(s: Node, p: seq<EdgeRef>, t: Node)
      requires IsWalk(s, p, t)
      ensures forall e :: e in p ==> Usable(e)
    {
      if p != [] {
        WalkEdges(s, p[..|p| - 1], p[|p| - 1].u);
        assert p == p[..|p| - 1] + [p[|p| - 1]];
      }
    }

    /** The weight of a walk, without the side condition that its edges exist. */
    ghost function Len(s: Node, p: seq<EdgeRef>, t: Node): real
      requires IsWalk(s, p, t)
    {
      WalkEdges(s, p, t);
      WalkWeight(p)
    }

    /** Every walk is as heavy as `d`, and one is exactly that heavy. */
    ghost predicate Shortest(s: Node, t: Node, d: real) {
      && (exists p :: IsWalk(s, p, t) && Len(s, p, t) == d)
      && (forall p :: IsWalk(s, p, t) ==> d <= Len(s, p, t))
    }

    ghost predicate Reachable(s: Node, t: Node) {
      exists p :: IsWalk(s, p, t)
    }

    /** The true network distance. */
    ghost function Distance(s: Node, t: Node): Option<real> {
      if d: real :| Shortest(s, t, d) then Some(d) else None
    }
  }

  lemma EdgeLengthNonNegative(n: Net, e: EdgeRef)
    requires n.Valid()
    ensures 0.0 <= n.EdgeLength(e)
  {
  }

  /** Where one stands before taking step `i` of `p` from `s`. */
  function NodeAt(s: Node, p: seq<EdgeRef>, i: nat): Node
    requires i <= |p|
  {
    if i == 0 then s else p[i - 1].v
  }

  /** Each edge of `p` starts where the previous one ended, the first at `s`. */
  ghost predicate IsChain(s: Node, p: seq<EdgeRef>) {
    forall i :: 0 <= i < |p| ==> p[i].u == NodeAt(s, p, i)
  }

  /** `p` leaves `s` and never comes back to a node it has been at. */
  ghost predicate IsSimple(s: Node, p: seq<EdgeRef>) {
    && (forall i :: 0 <= i < |p| ==> p[i].v != s)
    && (forall i, j :: 0 <= i < j < |p| ==> p[i].v != p[j].v)
  }

  lemma {:induction false} WalkIsChain(n: Net, s: Node, p: seq<EdgeRef>, t: Node)
    requires n.IsWalk(s, p, t)
    ensures IsChain(s, p) && t == NodeAt(s, p, |p|)
  {
    if p != [] {
      var q := p[..|p| - 1];
      WalkIsChain(n, s, q, p[|p| - 1].u);
      forall i | 0 <= i < |p|
        ensures p[i].u == NodeAt(s, p, i)
      {
        assert NodeAt(s, q, i) == NodeAt(s, p, i);
      }
    }
  }

  lemma {:induction false} WalkWeightNonNegative(n: Net, s: Node, p: seq<EdgeRef>, t: Node)
    requires n.IsWalk(s, p, t)
    ensures 0.0 <= n.Len(s, p, t)
  {
    n.WalkEdges(s, p, t);
    if p != [] {
      WalkWeightNonNegative(n, s, p[..|p| - 1], p[|p| - 1].u);
    }
  }

  /** Extending a walk by a usable edge adds that edge's weight. */
  lemma WalkExtend(n: Net, s: Node, p: seq<EdgeRef>, e: EdgeRef)
    requires n.IsWalk(s, p, e.u) && n.Usable(e)
    ensures n.IsWalk(s, p + [e], e.v)
    ensures n.Len(s, p + [e], e.v) == n.Len(s, p, e.u) + n.Weight(e)
  {
    assert (p + [e])[..|p|] == p;
  }

  /** Distances are unique, so `Distance` is the value any correct search must return. */
  lemma ShortestIsDistance(n: Net, s: Node, t: Node, d: real)
    requires n.Shortest(s, t, d)
    ensures n.Distance(s, t) == Some(d)
  {
    var d' := n.Distance(s, t).value;
    assert n.Shortest(s, t, d');
    var p :| n.IsWalk(s, p, t) && n.Len(s, p, t) == d;
    var p' :| n.IsWalk(s, p', t) && n.Len(s, p', t) == d';
  }
}
