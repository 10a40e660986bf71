/**
 The lazy distance oracle of the local search: network distances where there is a path,
 penalised straight-line jumps where there is none.
 */
module DistanceCache {
  import opened Optional
  import opened Guard
  import opened Network
  import opened RouteCost
  import Dijkstra

  const TELEPORT_PENALTY_FACTOR := 10.0

  /** The street network with the node coordinates and the great-circle distance in use. */
  datatype World = World(net: Net, xy: map<Node, Point>, haversine: (Point, Point) -> real) {
    ghost predicate Valid() {
      net.Valid() && forall p, q :: 0.0 <= haversine(p, q)
    }

    /** What it costs the search to get from `a` to `b`; undefined without path or coordinates. */
    ghost function Travel(a: Node, b: Node): Option<real> {
      if a == b then Some(0.0)
      else if net.Distance(a, b).Some? then net.Distance(a, b)
      else if a in xy && b in xy then Some(haversine(xy[a], xy[b]) * 10.0)
      else None
    }
  }

  /** An undefined cost counts as 0 but spoils the sum it enters. */
  ghost function ToSum(d: Option<real>): Sum {
    if d.Some? then Sum(true, d.value) else Sum(false, 0.0)
  }

  /** Names a pair of nodes whose connection a proof looks up. */
  ghost predicate Asked(a: Node, b: Node) {
    true
  }

  /** `m` measures connections by `Travel` and served edges by their length. */
  ghost predicate Measures(m: Meter, w: World) {
    && (forall a, b {:trigger Asked(a, b)} :: m.gap(a, b) == ToSum(w.Travel(a, b)))
    && (forall e :: m.len(e) == w.net.EdgeLength(e))
    && m.NonNegative()
  }

  ghost function MeterOf(w: World): (m: Meter)
    requires w.Valid()
    ensures Measures(m, w)
  {
    var m := Meter((a, b) => ToSum(w.Travel(a, b)), e => w.net.EdgeLength(e));
    assert forall a, b :: 0.0 <= m.gap(a, b).value by {
      forall a, b
        ensures 0.0 <= m.gap(a, b).value
      {
        if w.Travel(a, b).Some? { TravelNonNegative(w, a, b); }
      }
    }
    m
  }

  lemma TravelNonNegative(w: World, a: Node, b: Node)
    requires w.Valid() && w.Travel(a, b).Some?
    ensures 0.0 <= w.Travel(a, b).value
  {
    if a != b && w.net.Distance(a, b).Some? {
      var d := w.net.Distance(a, b).value;
      var p :| w.net.IsWalk(a, p, b) && w.net.Len(a, p, b) == d;
      WalkWeightNonNegative(w.net, a, p, b);
    }
  }

  /** Whatever has been stored is the true value. */
  ghost predicate TruthfulFacts(w: World, m: Meter, network: map<(Node, Node), Option<real>>,
                                cache: map<(Node, Node), Option<real>>)
  {
    && w.Valid() && Measures(m, w)
    && (forall ab :: ab in network ==>
          && network[ab] == w.net.Distance(ab.0, ab.1)
          && (network[ab].None? <==> !w.net.Reachable(ab.0, ab.1)))
    && (forall ab :: ab in cache ==> cache[ab] == w.Travel(ab.0, ab.1))
  }

  ghost predicate Truthful(w: World, m: Meter, network: map<(Node, Node), Option<real>>,
                           cache: map<(Node, Node), Option<real>>)
  {
    forall k {:trigger Recall(Memo, k)} :: Recall(Memo, k) ==> TruthfulFacts(w, m, network, cache)
  }

  /** Runs the path search for a single target. */
  method SearchDistance(n: Net, a: Node, b: Node) returns (d: Option<real>)
    requires n.EdgesClosed() && a in n.nodes && a != b
    ensures d == n.Distance(a, b) && (d.None? <==> !n.Reachable(a, b))
  {
    var r, cands := Dijkstra.DijkstraToBestTarget(n, a, {b}, 1, 5.0, None, (node, dist) => dist);
    if r.Some? {
      ShortestIsDistance(n, a, b, r.value.dist);
      d := Some(r.value.dist);
    } else {
      assert forall p :: n.IsWalk(a, p, b) ==> Dijkstra.WithinCutoff(None, n.Len(a, p, b));
      d := None;
    }
  }

  class Oracle {
    const world: World
    ghost const meter: Meter
    var network: map<(Node, Node), Option<real>>
    var cache: map<(Node, Node), Option<real>>

    constructor (world: World)
      requires world.Valid()
      ensures Valid() && this.world == world
    {
      this.world, this.meter := world, MeterOf(world);
      network, cache := map[], map[];
    }

    ghost predicate Valid()
      reads this
    {
      Truthful(world, meter, network, cache)
    }

    lemma MeasuresWorld()
      requires Valid()
      ensures Measures(meter, world)
    {
      assert Recall(Memo, 0);
    }

    lemma MeterIsRight()
      requires Valid()
      ensures meter.NonNegative() && forall e :: meter.len(e) == world.net.EdgeLength(e)
    {
      assert Recall(Memo, 0);
    }

    /** The real shortest-path distance, or none if there is no path. */
    method GetNetworkDistance(a: Node, b: Node) returns (d: Option<real>)
      requires Valid() && a in world.net.nodes
      modifies this`network
      ensures Valid()
      ensures d == if a == b then Some(0.0) else world.net.Distance(a, b)
      ensures d.None? <==> !world.net.Reachable(a, b)
    {
      assert Recall(Memo, 0);
      var n := world.net;
      if a == b {
        Dijkstra.SourceIsShortest(n, a);
        return Some(0.0);
      }
      if (a, b) in network {
        return network[(a, b)];
      }
      d := SearchDistance(n, a, b);
      network := network[(a, b) := d];
    }

    /** The search cost, finite whenever there is a path or both ends have coordinates. */
    method Get(a: Node, b: Node) returns (d: Option<real>)
      requires Valid() && a in world.net.nodes
      modifies this
      ensures Valid()
      ensures d == world.Travel(a, b) && ToSum(d) == meter.gap(a, b)
    {
      assert Recall(Memo, 0) && Asked(a, b);
      if a == b {
        return Some(0.0);
      }
      if (a, b) in cache {
        return cache[(a, b)];
      }
      d := GetNetworkDistance(a, b);
      if d.None? && a in world.xy && b in world.xy {
        d := Some(world.haversine(world.xy[a], world.xy[b]) * TELEPORT_PENALTY_FACTOR);
      }
      cache := cache[(a, b) := d];
    }
  }
}
