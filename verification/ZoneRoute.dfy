/**
 Solving the zones one after the other and stitching their routes into one, and the choice between
 zones and a single solve for an area.
 */
module ZoneRoute {
  import opened Optional
  import opened Guard
  import opened Network
  import opened Sorting
  import opened Requirements
  import opened Greedy
  import opened Zones
  import opened GapIndices

  // ----- Routes put end to end ----------------------------------------------------------------

  lemma {:induction false} LengthConcat(n: Net, a: seq<EdgeRef>, b: seq<EdgeRef>)
    ensures SumLen(n, a + b) == SumLen(n, a) + SumLen(n, b)
  {
    if b == [] {
      assert a + b == a;
    } else {
      var init := b[..|b| - 1];
      LengthConcat(n, a, init);
      assert (a + b)[..|a + b| - 1] == a + init;
    }
  }

  lemma {:induction false} ServedConcat(n: Net, a: seq<Service>, b: seq<Service>)
    ensures SumServed(n, a + b) == SumServed(n, a) + SumServed(n, b)
  {
    if b == [] {
      assert a + b == a;
    } else {
      var init := b[..|b| - 1];
      ServedConcat(n, a, init);
      assert (a + b)[..|a + b| - 1] == a + init;
    }
  }

  lemma JoinedAssociates(x: seq<Point>, y: seq<Point>, z: seq<Point>)
    ensures Joined(Joined(x, y), z) == Joined(x, Joined(y, z))
  {
    if x != [] && y != [] && z != [] {
      TailOfConcat(y, z[1..]);
      ConcatAssociates(x, y[1..], z[1..]);
    }
  }

  lemma TailOfConcat<T>(a: seq<T>, b: seq<T>)
    requires a != []
    ensures (a + b)[1..] == a[1..] + b
  {
  }

  lemma ConcatAssociates<T>(a: seq<T>, b: seq<T>, c: seq<T>)
    ensures a + b + c == a + (b + c)
  {
  }

  /** Drawing two routes and joining the drawings is drawing the whole. */
  lemma {:induction false} DrawnConcat(n: Net, a: seq<EdgeRef>, b: seq<EdgeRef>)
    ensures Drawn(n, a + b) == Joined(Drawn(n, a), Drawn(n, b))
  {
    if b == [] {
      assert a + b == a;
    } else {
      var init, e := b[..|b| - 1], b[|b| - 1];
      DrawnConcat(n, a, init);
      assert a + b == (a + init) + [e] && b == init + [e];
      DrawnExtended(n, a + init, e);
      DrawnExtended(n, init, e);
      JoinedAssociates(Drawn(n, a), Drawn(n, init), n.Geometry(e));
    }
  }

  lemma {:induction false} BreaksConcat(start: Node, a: seq<EdgeRef>, b: seq<EdgeRef>)
    ensures EndAt(start, a + b) == EndAt(EndAt(start, a), b)
    ensures Breaks(start, a + b) == Breaks(start, a) + Breaks(EndAt(start, a), b)
  {
    if b == [] {
      assert a + b == a;
    } else {
      var init, e := b[..|b| - 1], b[|b| - 1];
      BreaksConcat(start, a, init);
      assert a + b == (a + init) + [e] && b == init + [e];
      BreaksExtended(start, a + init, e);
      BreaksExtended(EndAt(start, a), init, e);
    }
  }

  /** Setting out from elsewhere costs at most one more break. */
  lemma {:induction false} BreaksElsewhere(s: Node, t: Node, b: seq<EdgeRef>)
    ensures Breaks(s, b) <= Breaks(t, b) + if EndAt(s, b) == EndAt(t, b) then 1 else 0
    ensures b != [] ==> EndAt(s, b) == EndAt(t, b)
  {
    if b != [] {
      var init, e := b[..|b| - 1], b[|b| - 1];
      BreaksElsewhere(s, t, init);
      assert b == init + [e];
      BreaksExtended(s, init, e);
      BreaksExtended(t, init, e);
    }
  }

  lemma EmbeddedConcat(s: seq<Service>, es: seq<EdgeRef>, pos: seq<nat>, s': seq<Service>, es': seq<EdgeRef>, pos': seq<nat>)
    requires Embedded(s, es, pos) && Embedded(s', es', pos')
    ensures exists q :: Embedded(s + s', es + es', q)
  {
    var q: seq<nat> := pos + seq(|pos'|, i requires 0 <= i < |pos'| => |es| + pos'[i]);
    forall i | 0 <= i < |q|
      ensures q[i] < |es + es'| && (es + es')[q[i]] == (s + s')[i].edge
    {
      if i >= |pos| {
        assert q[i] == |es| + pos'[i - |pos|];
      }
    }
    forall i, j | 0 <= i < j < |q|
      ensures q[i] < q[j]
    {
      if j >= |pos| {
        assert q[j] == |es| + pos'[j - |pos|];
      }
    }
    assert Embedded(s + s', es + es', q);
  }

  // ----- What adds up -------------------------------------------------------------------------

  /** Real edges, distances and books that add up, and services in route order. */
  ghost predicate Tallied(n: Net, required: nat, s: Solution) {
    && (forall e :: e in s.edges ==> e in n.edges)
    && s.stats.total == SumLen(n, s.edges) && s.stats.service == SumServed(n, s.services)
    && s.stats.total == s.stats.service + s.stats.deadhead
    && (exists pos :: Embedded(s.services, s.edges, pos))
    && s.stats.required == required && s.stats.completed == |s.services|
    && s.stats.completed + s.stats.skipped == required
    && (s.stats.skipped == 0 ==> s.stats.requiredDist <= s.stats.service)
  }

  function StitchCoords(a: seq<Point>, b: seq<Point>): seq<Point> {
    if b == [] then a else if a == [] then b else a + if |b| > 1 then b[1..] else b
  }

  function AddStats(a: Stats, b: Stats): Stats {
    Stats(a.total + b.total, a.service + b.service, a.deadhead + b.deadhead,
          a.requiredDist + b.requiredDist, a.required + b.required,
          a.completed + b.completed, a.skipped + b.skipped, a.opportunistic + b.opportunistic,
          a.teleports + b.teleports, a.iterations + b.iterations)
  }

  function Stitch(s: Solution, t: Solution): Solution {
    Solution(StitchCoords(s.coords, t.coords), AddStats(s.stats, t.stats), s.edges + t.edges, s.services + t.services)
  }

  function Nothing(): Solution {
    Solution([], Stats(0.0, 0.0, 0.0, 0.0, 0, 0, 0, 0, 0, 0), [], [])
  }

  lemma NothingTallied(n: Net)
    ensures Tallied(n, 0, Nothing())
  {
    assert Embedded([], [], []);
  }

  lemma StitchTallied(n: Net, required: nat, s: Solution, required': nat, t: Solution)
    requires Tallied(n, required, s) && Tallied(n, required', t)
    ensures Tallied(n, required + required', Stitch(s, t))
  {
    LengthConcat(n, s.edges, t.edges);
    ServedConcat(n, s.services, t.services);
    var pos :| Embedded(s.services, s.edges, pos);
    var pos' :| Embedded(t.services, t.edges, pos');
    EmbeddedConcat(s.services, s.edges, pos, t.services, t.edges, pos');
  }

  // ----- Which requirements are served --------------------------------------------------------

  ghost predicate OnceEach(services: seq<Service>) {
    forall i, j :: 0 <= i < j < |services| ==> services[i].rid != services[j].rid
  }

  ghost predicate ServedIn(z: Zone, x: Service) {
    x.rid in z.reqs && x.edge in z.reqs[x.rid]
  }

  ghost predicate ServesOnly(zones: seq<Zone>, services: seq<Service>) {
    forall x :: x in services ==> exists i :: 0 <= i < |zones| && ServedIn(zones[i], x)
  }

  /** The requirements of all zones, and their number. */
  ghost function KeysOf(zones: seq<Zone>): set<ReqId> {
    if zones == [] then {} else KeysOf(zones[..|zones| - 1]) + zones[|zones| - 1].reqs.Keys
  }

  ghost function CountOf(zones: seq<Zone>): nat {
    if zones == [] then 0 else CountOf(zones[..|zones| - 1]) + |zones[|zones| - 1].reqs.Keys|
  }

  lemma {:induction false} KeysOfIs(zones: seq<Zone>, r: ReqId)
    ensures r in KeysOf(zones) <==> exists i :: 0 <= i < |zones| && r in zones[i].reqs
  {
    if zones != [] {
      var init := zones[..|zones| - 1];
      KeysOfIs(init, r);
      if r in KeysOf(init) {
        var i :| 0 <= i < |init| && r in init[i].reqs;
        assert r in zones[i].reqs;
      }
      if i :| 0 <= i < |zones| && r in zones[i].reqs {
        assert i < |init| ==> r in init[i].reqs;
      }
    }
  }

  /** Zones that share nothing have as many requirements as they have together. */
  lemma {:induction false} CountOfSeparate(zones: seq<Zone>)
    requires Separate(zones)
    ensures CountOf(zones) == |KeysOf(zones)|
  {
    if zones != [] {
      var init, z := zones[..|zones| - 1], zones[|zones| - 1];
      CountOfSeparate(init);
      forall r | r in KeysOf(init)
        ensures r !in z.reqs.Keys
      {
        KeysOfIs(init, r);
        var i :| 0 <= i < |init| && r in init[i].reqs;
        assert r in zones[i].reqs;
      }
      assert KeysOf(init) !! z.reqs.Keys;
    }
  }

  lemma OneMoreZone(zones: seq<Zone>, i: nat)
    requires i < |zones|
    ensures zones[..i + 1] == zones[..i] + [zones[i]]
    ensures KeysOf(zones[..i + 1]) == KeysOf(zones[..i]) + zones[i].reqs.Keys
    ensures CountOf(zones[..i + 1]) == CountOf(zones[..i]) + |zones[i].reqs.Keys|
  {
    assert zones[..i + 1][..i] == zones[..i];
  }

  lemma StitchServes(zones: seq<Zone>, z: Zone, a: seq<Service>, b: seq<Service>)
    requires ServesOnly(zones, a) && forall x :: x in b ==> ServedIn(z, x)
    ensures ServesOnly(zones + [z], a + b)
  {
    var more := zones + [z];
    forall x | x in a + b
      ensures exists i :: 0 <= i < |more| && ServedIn(more[i], x)
    {
      if x in a {
        var i :| 0 <= i < |zones| && ServedIn(zones[i], x);
        assert ServedIn(more[i], x);
      } else {
        assert ServedIn(more[|zones|], x);
      }
    }
  }

  lemma StitchOnce(zones: seq<Zone>, z: Zone, a: seq<Service>, b: seq<Service>)
    requires ServesOnly(zones, a) && (forall x :: x in b ==> ServedIn(z, x))
    requires OnceEach(a) && OnceEach(b) && Separate(zones + [z])
    ensures OnceEach(a + b)
  {
    var more := zones + [z];
    forall i, j | 0 <= i < |a| && 0 <= j < |b|
      ensures a[i].rid != b[j].rid
    {
      assert a[i] in a && b[j] in b;
      var k :| 0 <= k < |zones| && ServedIn(zones[k], a[i]);
      assert a[i].rid in more[k].reqs && more[|zones|] == z;
    }
    forall i, j | 0 <= i < j < |a + b|
      ensures (a + b)[i].rid != (a + b)[j].rid
    {
      if i < |a| <= j {
        assert a[i].rid != b[j - |a|].rid;
      } else if i >= |a| {
        assert b[i - |a|].rid != b[j - |a|].rid;
      }
    }
  }

  lemma SeparatePrefix(zones: seq<Zone>, z: Zone)
    requires Separate(zones + [z])
    ensures Separate(zones)
  {
    var more := zones + [z];
    forall i, j, r | 0 <= i < j < |zones| && r in zones[i].reqs
      ensures r !in zones[j].reqs
    {
      assert more[i] == zones[i] && more[j] == zones[j];
    }
  }

  /** Only requirements of the zones are served, and none twice if the zones share nothing. */
  ghost predicate Serves(zones: seq<Zone>, s: Solution) {
    ServesOnly(zones, s.services) && (Separate(zones) ==> OnceEach(s.services))
  }

  lemma StitchKeepsServes(zones: seq<Zone>, z: Zone, s: Solution, t: Solution)
    requires Serves(zones, s) && OnceEach(t.services) && forall x :: x in t.services ==> ServedIn(z, x)
    ensures Serves(zones + [z], Stitch(s, t))
  {
    StitchServes(zones, z, s.services, t.services);
    if Separate(zones + [z]) {
      SeparatePrefix(zones, z);
      StitchOnce(zones, z, s.services, t.services);
    }
  }

  // ----- One zone -----------------------------------------------------------------------------

  /** Every requirement of the zone is a street of the network. */
  ghost predicate Solvable(n: Net, z: Zone) {
    forall r :: r in z.reqs ==> OneStreet(z.reqs[r]) && forall e :: e in z.reqs[r] ==> e in n.edges
  }

  /** No edge is an option of two requirements of the zone. */
  ghost predicate OwnEdges(z: Zone) {
    forall r, r', e :: r in z.reqs && r' in z.reqs && e in z.reqs[r] && e in z.reqs[r'] ==> r == r'
  }

  method ListKeys(keys: set<ReqId>) returns (order: seq<ReqId>)
    ensures Distinct(order) && (forall r :: r in order <==> r in keys) && |order| == |keys|
  {
    order := [];
    var left := keys;
    while left != {}
      invariant left <= keys && Distinct(order) && |order| + |left| == |keys|
      invariant forall r :: r in order <==> r in keys && r !in left
      decreases left
    {
      var r := Pick(left);
      left := left - {r};
      order := order + [r];
    }
  }

  /** Every node reaches every start of the zone. */
  ghost predicate ReachesZone(n: Net, z: Zone) {
    forall k {:trigger Recall(Reach, k)} :: Recall(Reach, k) ==>
      forall v, r, e :: v in n.nodes && r in z.reqs && e in z.reqs[r] ==> n.Reachable(v, e.u)
  }

  lemma ReachesProblem(n: Net, z: Zone, order: seq<ReqId>)
    requires ReachesZone(n, z)
    ensures ReachesAll(ProblemOf(n, z, order))
  {
    assert Recall(Reach, 0);
  }

  ghost predicate ReachesZones(n: Net, zones: seq<Zone>) {
    forall i :: 0 <= i < |zones| ==> ReachesZone(n, zones[i])
  }

  /** What solving one zone from `first` gives. */
  ghost predicate ZoneSolved(n: Net, z: Zone, first: Node, s: Solution) {
    && Tallied(n, |z.reqs.Keys|, s) && s.coords == Drawn(n, s.edges) && Breaks(first, s.edges) <= s.stats.teleports
    && OnceEach(s.services) && (forall x :: x in s.services ==> ServedIn(z, x))
    && (s.stats.skipped == 0 ==> EndsOnService(s.services, s.edges, EndAt(first, s.edges)))
    && (ReachesZone(n, z) ==> s.stats.teleports == 0)
  }

  ghost predicate ZoneCovered(z: Zone, s: Solution) {
    s.stats.skipped == 0 && Rids(s.services) == z.reqs.Keys && s.stats.iterations <= 2 * |z.reqs.Keys|
  }

  method SolveZone(n: Net, z: Zone, xy: map<Node, Point>, cosLat: real -> real, start: Option<Node>)
    returns (s: Solution, ghost first: Node)
    requires n.Valid() && Solvable(n, z) && z.reqs.Keys != {}
    ensures ZoneSolved(n, z, first, s)
    ensures start.Some? && start.value in n.nodes ==> first == start.value
    ensures OwnEdges(z) && n.nodes <= xy.Keys ==> ZoneCovered(z, s)
  {
    var order := ListKeys(z.reqs.Keys);
    var p := ProblemOf(n, z, order);
    ZoneIsProblem(n, z, order);
    ghost var run;
    s, run := SolveGreedyRoute(p, xy, cosLat, start);
    first := StartOf(p, start);
    if s.stats.skipped == 0 {
      CompleteCosts(p, first, s);
    }
    if ReachesZone(n, z) {
      ReachesProblem(n, z, order);
    }
    SoundZone(n, z, order, first, s);
  }

  function ProblemOf(n: Net, z: Zone, order: seq<ReqId>): Problem {
    Problem(n, order, z.reqs, if z.segs == map[] then None else Some(z.segs))
  }

  lemma ZoneIsProblem(n: Net, z: Zone, order: seq<ReqId>)
    requires n.Valid() && Solvable(n, z) && Distinct(order) && forall r :: r in order <==> r in z.reqs.Keys
    ensures ProblemOf(n, z, order).Valid()
    ensures OwnEdges(z) ==> ProblemOf(n, z, order).Disjoint()
  {
  }

  lemma SoundZone(n: Net, z: Zone, order: seq<ReqId>, first: Node, s: Solution)
    requires Sound(ProblemOf(n, z, order), first, s) && |order| == |z.reqs.Keys|
    requires s.stats.skipped == 0 ==> EndsOnService(s.services, s.edges, EndAt(first, s.edges))
    requires s.stats.skipped == 0 ==> s.stats.requiredDist <= s.stats.service
    requires ReachesZone(n, z) ==> s.stats.teleports == 0
    ensures ZoneSolved(n, z, first, s)
    ensures Covers(ProblemOf(n, z, order), s) ==> ZoneCovered(z, s)
  {
  }

  // ----- All zones ----------------------------------------------------------------------------

  /** The next zone starts at the head of the last served edge, if anything was drawn. */
  function NextStart(current: Option<Node>, t: Solution): Option<Node> {
    if t.coords != [] && t.services != [] then Some(t.services[|t.services| - 1].edge.v) else current
  }

  /**
   If nothing was skipped and all edges are drawn, the route breaks only at teleports and the next
   zone starts where it ends.
   */
  ghost predicate Connected(n: Net, origin: Node, s: Solution, current: Option<Node>) {
    s.stats.skipped == 0 && s.stats.required > 0 && Drawable(n, s.edges) ==>
      && Breaks(origin, s.edges) <= s.stats.teleports
      && EndsOnService(s.services, s.edges, EndAt(origin, s.edges))
      && current == Some(EndAt(origin, s.edges))
  }

  ghost predicate DrawnWhole(n: Net, s: Solution) {
    Drawable(n, s.edges) ==> s.coords == Drawn(n, s.edges)
  }

  lemma DrawableParts(n: Net, a: seq<EdgeRef>, b: seq<EdgeRef>)
    requires Drawable(n, a + b)
    ensures Drawable(n, a) && Drawable(n, b)
  {
    assert forall e :: e in a ==> e in a + b;
    assert forall e :: e in b ==> e in a + b;
  }

  lemma StitchDrawn(n: Net, s: Solution, t: Solution)
    requires DrawnWhole(n, s) && t.coords == Drawn(n, t.edges)
    ensures DrawnWhole(n, Stitch(s, t))
  {
    if Drawable(n, s.edges + t.edges) {
      DrawableParts(n, s.edges, t.edges);
      DrawnConcat(n, s.edges, t.edges);
      CursorIsLength(n, t.edges);
      assert t.edges == [] ==> t.coords == [];
    }
  }

  /** The first zone that is solved sets the origin. */
  ghost function OriginOf(s: Solution, origin: Node, first: Node): Node {
    if s.stats.required == 0 then first else origin
  }

  lemma StitchBreaks(origin: Node, s: Solution, first: Node, t: Solution, zones: nat)
    requires Breaks(origin, s.edges) <= s.stats.teleports + zones && Breaks(first, t.edges) <= t.stats.teleports
    ensures Breaks(origin, s.edges + t.edges) <= s.stats.teleports + t.stats.teleports + zones + 1
  {
    BreaksConcat(origin, s.edges, t.edges);
    BreaksElsewhere(EndAt(origin, s.edges), first, t.edges);
  }

  /** What a zone adds to a connected route leaves it connected. */
  lemma StitchConnected(n: Net, z: Zone, origin: Node, s: Solution, current: Option<Node>, first: Node, t: Solution)
    requires n.EdgesClosed() && Connected(n, origin, s, current) && ZoneSolved(n, z, first, t) && z.reqs.Keys != {}
    requires s.stats.required == 0 ==> s.edges == []
    requires forall e :: e in s.edges ==> e in n.edges
    requires current.Some? && current.value in n.nodes ==> first == current.value
    ensures Connected(n, OriginOf(s, origin, first), Stitch(s, t), NextStart(current, t))
  {
    var from := OriginOf(s, origin, first);
    if s.stats.skipped == 0 && t.stats.skipped == 0 && Drawable(n, s.edges + t.edges) {
      DrawableParts(n, s.edges, t.edges);
      assert s.stats.required > 0 ==> s.edges[|s.edges| - 1] in s.edges;
      BreaksConcat(from, s.edges, t.edges);
      CursorIsLength(n, t.edges);
      EndsConcat(from, s.services, s.edges, first, t.services, t.edges);
    }
  }

  /** A route that ends on a service still does when it follows another one. */
  lemma EndsConcat(from: Node, services: seq<Service>, edges: seq<EdgeRef>, first: Node, services': seq<Service>,
                   edges': seq<EdgeRef>)
    requires EndAt(from, edges) == first && EndsOnService(services', edges', EndAt(first, edges'))
    ensures EndsOnService(services + services', edges + edges', EndAt(from, edges + edges'))
    ensures EndAt(from, edges + edges') == services'[|services'| - 1].edge.v
  {
    BreaksConcat(from, edges, edges');
  }

  /** What is known after some of the zones. */
  ghost predicate Progress(n: Net, zones: seq<Zone>, origin: Node, s: Solution, current: Option<Node>) {
    && Tallied(n, CountOf(zones), s) && Serves(zones, s) && DrawnWhole(n, s)
    && Breaks(origin, s.edges) <= s.stats.teleports + |zones|
    && Connected(n, origin, s, current)
    && (s.stats.required == 0 ==> s == Nothing())
    && (ReachesZones(n, zones) ==> s.stats.teleports == 0)
  }

  ghost predicate Covered(zones: seq<Zone>, s: Solution) {
    s.stats.skipped == 0 && Rids(s.services) == KeysOf(zones) && s.stats.iterations <= 2 * CountOf(zones)
  }

  lemma StitchCovered(zones: seq<Zone>, i: nat, s: Solution, t: Solution)
    requires i < |zones| && Covered(zones[..i], s) && ZoneCovered(zones[i], t)
    ensures Covered(zones[..i + 1], Stitch(s, t))
  {
    OneMoreZone(zones, i);
    assert Rids(s.services + t.services) == Rids(s.services) + Rids(t.services);
  }

  lemma ReachesMore(n: Net, zones: seq<Zone>, i: nat)
    requires i < |zones|
    ensures ReachesZones(n, zones[..i + 1]) ==> ReachesZones(n, zones[..i]) && ReachesZone(n, zones[i])
  {
    var more := zones[..i + 1];
    assert more[i] == zones[i] && forall k :: 0 <= k < i ==> more[k] == zones[..i][k];
  }

  lemma StitchProgress(n: Net, zones: seq<Zone>, i: nat, origin: Node, s: Solution, current: Option<Node>, first: Node,
                       t: Solution)
    requires n.EdgesClosed() && i < |zones| && Progress(n, zones[..i], origin, s, current)
    requires ZoneSolved(n, zones[i], first, t) && zones[i].reqs.Keys != {}
    requires current.Some? && current.value in n.nodes ==> first == current.value
    ensures Progress(n, zones[..i + 1], OriginOf(s, origin, first), Stitch(s, t), NextStart(current, t))
  {
    OneMoreZone(zones, i);
    ReachesMore(n, zones, i);
    StitchTallied(n, CountOf(zones[..i]), s, |zones[i].reqs.Keys|, t);
    StitchKeepsServes(zones[..i], zones[i], s, t);
    StitchDrawn(n, s, t);
    StitchBreaks(OriginOf(s, origin, first), s, first, t, i);
    StitchConnected(n, zones[i], origin, s, current, first, t);
  }

  lemma EmptyZoneProgress(n: Net, zones: seq<Zone>, i: nat, origin: Node, s: Solution, current: Option<Node>)
    requires i < |zones| && Progress(n, zones[..i], origin, s, current) && zones[i].reqs.Keys == {}
    ensures Progress(n, zones[..i + 1], origin, s, current) && (Covered(zones[..i], s) ==> Covered(zones[..i + 1], s))
  {
    OneMoreZone(zones, i);
    ReachesMore(n, zones, i);
    StitchKeepsServes(zones[..i], zones[i], s, Nothing());
    assert s.services + [] == s.services;
  }

  /** All nodes have coordinates and no edge is an option of two requirements of one zone. */
  ghost predicate Coverable(n: Net, zones: seq<Zone>, xy: map<Node, Point>) {
    n.nodes <= xy.Keys && forall i :: 0 <= i < |zones| ==> OwnEdges(zones[i])
  }

  /** The route sets out from the start that was given, if it can. */
  ghost predicate SetsOut(n: Net, start: Option<Node>, s: Solution, current: Option<Node>, origin: Node) {
    && (s.stats.required == 0 ==> current == start)
    && (start.Some? && start.value in n.nodes ==> origin == start.value)
  }

  /** Everything that is known after the first `i` zones. */
  ghost predicate Underway(n: Net, zones: seq<Zone>, i: nat, xy: map<Node, Point>, start: Option<Node>, s: Solution,
                           current: Option<Node>, origin: Node)
  {
    forall k {:trigger Recall(Zoning, k)} :: Recall(Zoning, k) ==>
      UnderwayFacts(n, zones, i, xy, start, s, current, origin)
  }

  ghost predicate UnderwayFacts(n: Net, zones: seq<Zone>, i: nat, xy: map<Node, Point>, start: Option<Node>, s: Solution,
                                current: Option<Node>, origin: Node)
  {
    && i <= |zones| && Progress(n, zones[..i], origin, s, current) && SetsOut(n, start, s, current, origin)
    && (Coverable(n, zones, xy) ==> Covered(zones[..i], s))
  }

  lemma SetOut(n: Net, zones: seq<Zone>, xy: map<Node, Point>, start: Option<Node>, origin: Node)
    requires start.Some? ==> origin == start.value
    ensures Underway(n, zones, 0, xy, start, Nothing(), start, origin)
  {
    NothingTallied(n);
    assert zones[..0] == [] && Rids([]) == {};
  }

  lemma Arrive(n: Net, zones: seq<Zone>, xy: map<Node, Point>, start: Option<Node>, s: Solution, current: Option<Node>,
               origin: Node)
    requires Underway(n, zones, |zones|, xy, start, s, current, origin)
    ensures Progress(n, zones, origin, s, current) && (start.Some? && start.value in n.nodes ==> origin == start.value)
    ensures Coverable(n, zones, xy) ==> Covered(zones, s)
  {
    assert Recall(Zoning, 0);
    assert zones[..|zones|] == zones;
  }

  lemma PassBy(n: Net, zones: seq<Zone>, i: nat, xy: map<Node, Point>, start: Option<Node>, s: Solution,
               current: Option<Node>, origin: Node)
    requires Underway(n, zones, i, xy, start, s, current, origin) && i < |zones| && zones[i].reqs.Keys == {}
    ensures Underway(n, zones, i + 1, xy, start, s, current, origin)
  {
    assert Recall(Zoning, 0);
    EmptyZoneProgress(n, zones, i, origin, s, current);
  }

  lemma GoOn(n: Net, zones: seq<Zone>, i: nat, xy: map<Node, Point>, start: Option<Node>, s: Solution,
             current: Option<Node>, origin: Node, first: Node, t: Solution)
    requires n.EdgesClosed() && Underway(n, zones, i, xy, start, s, current, origin) && i < |zones|
    requires ZoneSolved(n, zones[i], first, t) && zones[i].reqs.Keys != {}
    requires current.Some? && current.value in n.nodes ==> first == current.value
    requires OwnEdges(zones[i]) && n.nodes <= xy.Keys ==> ZoneCovered(zones[i], t)
    ensures Underway(n, zones, i + 1, xy, start, Stitch(s, t), NextStart(current, t), OriginOf(s, origin, first))
  {
    assert Recall(Zoning, 0);
    StitchProgress(n, zones, i, origin, s, current, first, t);
    if Coverable(n, zones, xy) {
      StitchCovered(zones, i, s, t);
    }
    assert t.stats.required > 0;
  }

  datatype Figure =
    Total | ServiceLength | Deadhead | RequiredLength | Required | Completed | Skipped | Opportunistic | Teleports | Iterations

  ghost function Read(stats: Stats, figure: Figure): real {
    match figure
    case Total => stats.total
    case ServiceLength => stats.service
    case Deadhead => stats.deadhead
    case RequiredLength => stats.requiredDist
    case Required => stats.required as real
    case Completed => stats.completed as real
    case Skipped => stats.skipped as real
    case Opportunistic => stats.opportunistic as real
    case Teleports => stats.teleports as real
    case Iterations => stats.iterations as real
  }

  /** A figure added up over the solutions of the zones. */
  ghost function Over(parts: seq<Solution>, figure: Figure): real {
    if parts == [] then 0.0 else Over(parts[..|parts| - 1], figure) + Read(parts[|parts| - 1].stats, figure)
  }

  /** Every figure of the route is the sum of that figure over the solutions of the zones. */
  ghost predicate AddsUp(s: Solution, parts: seq<Solution>) {
    forall figure :: Read(s.stats, figure) == Over(parts, figure)
  }

  lemma AddsUpStep(s: Solution, parts: seq<Solution>, t: Solution)
    requires AddsUp(s, parts)
    ensures AddsUp(Stitch(s, t), parts + [t])
  {
    assert (parts + [t])[..|parts|] == parts;
    forall figure
      ensures Read(Stitch(s, t).stats, figure) == Over(parts + [t], figure)
    {
      assert Read(s.stats, figure) == Over(parts, figure);
    }
  }

  /** One solution for each zone that has requirements. */
  ghost predicate SolvedEach(n: Net, zones: seq<Zone>, parts: seq<Solution>) {
    |parts| == |zones| && forall i :: 0 <= i < |zones| ==> SolvedPart(n, zones[i], parts[i])
  }

  ghost predicate SolvedPart(n: Net, z: Zone, t: Solution) {
    if z.reqs.Keys == {} then t == Nothing() else exists first :: ZoneSolved(n, z, first, t)
  }

  lemma SolvedMore(n: Net, zones: seq<Zone>, i: nat, parts: seq<Solution>, t: Solution)
    requires i < |zones| && SolvedEach(n, zones[..i], parts) && SolvedPart(n, zones[i], t)
    ensures SolvedEach(n, zones[..i + 1], parts + [t])
  {
    var more := zones[..i + 1];
    assert more[i] == zones[i] && forall k :: 0 <= k < i ==> more[k] == zones[..i][k];
  }

  lemma SameWithNothing(s: Solution)
    ensures Stitch(s, Nothing()) == s
  {
    assert s.edges + [] == s.edges && s.services + [] == s.services;
  }

  method SolveZones(n: Net, zones: seq<Zone>, xy: map<Node, Point>, cosLat: real -> real, start: Option<Node>)
    returns (s: Solution, ghost origin: Node, ghost end: Option<Node>, ghost parts: seq<Solution>)
    requires n.Valid() && forall i :: 0 <= i < |zones| ==> Solvable(n, zones[i])
    ensures SolvedEach(n, zones, parts) && AddsUp(s, parts)
    ensures Progress(n, zones, origin, s, end)
    ensures start.Some? && start.value in n.nodes ==> origin == start.value
    ensures Coverable(n, zones, xy) ==> Covered(zones, s)
  {
    s, origin := Nothing(), if start.Some? then start.value else 0;
    var current := start;
    parts := [];
    SetOut(n, zones, xy, start, origin);
    for i := 0 to |zones|
      invariant Underway(n, zones, i, xy, start, s, current, origin)
      invariant SolvedEach(n, zones[..i], parts) && AddsUp(s, parts)
    {
      if zones[i].reqs.Keys == {} {
        PassBy(n, zones, i, xy, start, s, current, origin);
        SameWithNothing(s);
        AddsUpStep(s, parts, Nothing());
        SolvedMore(n, zones, i, parts, Nothing());
        parts := parts + [Nothing()];
      } else {
        var t; ghost var first;
        t, first := SolveZone(n, zones[i], xy, cosLat, current);
        GoOn(n, zones, i, xy, start, s, current, origin, first, t);
        AddsUpStep(s, parts, t);
        SolvedMore(n, zones, i, parts, t);
        parts := parts + [t];
        origin := OriginOf(s, origin, first);
        s, current := Stitch(s, t), NextStart(current, t);
      }
    }
    assert zones[..|zones|] == zones;
    Arrive(n, zones, xy, start, s, current, origin);
    end := current;
  }

  // ----- A whole area -------------------------------------------------------------------------

  /** Only options are driven, no requirement is served twice, and all are if they can be. */
  ghost predicate AreaServed(p: Problem, xy: map<Node, Point>, s: Solution) {
    && OnceEach(s.services) && (forall x :: x in s.services ==> x.rid in p.options && x.edge in p.options[x.rid])
    && (p.Disjoint() && p.net.nodes <= xy.Keys ==> Covers(p, s))
  }

  /** A route that skips nothing and is drawn with two points or more per edge breaks only at teleports. */
  ghost predicate AreaConnected(n: Net, origin: Node, s: Solution) {
    s.stats.skipped == 0 && Drawable(n, s.edges) ==>
      Breaks(origin, s.edges) <= s.stats.teleports && EndsOnService(s.services, s.edges, EndAt(origin, s.edges))
  }

  lemma ZonesWithinProblem(p: Problem, zones: seq<Zone>, r: ReqId)
    requires Partitions(p, zones) && r in KeysOf(zones)
    ensures r in p.options
  {
    KeysOfIs(zones, r);
    var i :| 0 <= i < |zones| && r in zones[i].reqs;
    assert Faithful(p, zones[i]);
  }

  lemma ProblemWithinZones(p: Problem, zones: seq<Zone>, r: ReqId)
    requires Partitions(p, zones) && r in p.options
    ensures r in KeysOf(zones)
  {
    KeysOfIs(zones, r);
  }

  lemma PartitionKeys(p: Problem, zones: seq<Zone>)
    requires Partitions(p, zones)
    ensures KeysOf(zones) == p.options.Keys
  {
    forall r | r in KeysOf(zones)
      ensures r in p.options.Keys
    {
      ZonesWithinProblem(p, zones, r);
    }
    forall r | r in p.options.Keys
      ensures r in KeysOf(zones)
    {
      ProblemWithinZones(p, zones, r);
    }
  }

  /** The zones of a partition have as many requirements as the problem. */
  lemma PartitionAddsUp(p: Problem, zones: seq<Zone>)
    requires p.Listed() && Partitions(p, zones)
    ensures KeysOf(zones) == p.options.Keys && CountOf(zones) == |p.order|
  {
    PartitionKeys(p, zones);
    CountOfSeparate(zones);
    ListedCount(p);
  }

  lemma PartitionReached(p: Problem, zones: seq<Zone>)
    requires Partitions(p, zones) && ReachesAll(p)
    ensures ReachesZones(p.net, zones)
  {
    forall i | 0 <= i < |zones|
      ensures ReachesZone(p.net, zones[i])
    {
      assert Recall(Reach, 0);
      assert Faithful(p, zones[i]);
      forall r, e | r in zones[i].reqs && e in zones[i].reqs[r]
        ensures e.u in p.AllStarts()
      {
        assert r in p.options.Keys && e in p.options[r];
      }
    }
  }

  lemma PartitionSolvable(p: Problem, zones: seq<Zone>)
    requires p.Valid() && Partitions(p, zones)
    ensures forall i :: 0 <= i < |zones| ==> Solvable(p.net, zones[i])
    ensures p.Disjoint() ==> forall i :: 0 <= i < |zones| ==> OwnEdges(zones[i])
  {
    forall i | 0 <= i < |zones|
      ensures Solvable(p.net, zones[i]) && (p.Disjoint() ==> OwnEdges(zones[i]))
    {
      assert Faithful(p, zones[i]);
    }
  }

  lemma ZonesServeArea(p: Problem, zones: seq<Zone>, s: Solution)
    requires Partitions(p, zones) && Serves(zones, s)
    ensures OnceEach(s.services) && forall x :: x in s.services ==> x.rid in p.options && x.edge in p.options[x.rid]
  {
    forall x | x in s.services
      ensures x.rid in p.options && x.edge in p.options[x.rid]
    {
      var i :| 0 <= i < |zones| && ServedIn(zones[i], x);
      assert Faithful(p, zones[i]);
    }
  }

  lemma ZonesSolveArea(p: Problem, xy: map<Node, Point>, origin: Node, s: Solution, end: Option<Node>)
    requires p.order != [] && Tallied(p.net, |p.order|, s) && DrawnWhole(p.net, s) && Connected(p.net, origin, s, end)
    requires OnceEach(s.services) && forall x :: x in s.services ==> x.rid in p.options && x.edge in p.options[x.rid]
    requires p.Disjoint() && p.net.nodes <= xy.Keys ==> Covers(p, s)
    ensures AreaServed(p, xy, s) && AreaConnected(p.net, origin, s)
  {
  }

  lemma SingleSolvesArea(p: Problem, xy: map<Node, Point>, origin: Node, s: Solution)
    requires Sound(p, origin, s) && p.order != [] && (s.stats.skipped == 0 ==> s.stats.requiredDist <= s.stats.service)
    requires p.Disjoint() && p.net.nodes <= xy.Keys ==> Covers(p, s)
    requires s.stats.skipped == 0 ==> EndsOnService(s.services, s.edges, EndAt(origin, s.edges))
    ensures Tallied(p.net, |p.order|, s) && DrawnWhole(p.net, s)
    ensures AreaServed(p, xy, s) && AreaConnected(p.net, origin, s)
  {
  }

  /**
   Zones for a large area; one solve for a small one, or where the decomposition fails. The single
   solve takes its coordinates from the network again, in `rebuilt`.
   */
  method SolveArea(p: Problem, xy: map<Node, Point>, rebuilt: map<Node, Point>, cosLat: real -> real, startNode: Option<Node>,
                   startXy: Option<Point>, threshold: nat, maxZoneSize: int)
    returns (s: Solution, zoned: bool, ghost origin: Node)
    requires p.Valid() && p.order != []
    ensures Tallied(p.net, |p.order|, s) && DrawnWhole(p.net, s)
    ensures AreaServed(p, if zoned then xy else rebuilt, s)
    ensures AreaConnected(p.net, origin, s)
    ensures ReachesAll(p) ==> s.stats.teleports == 0
    ensures startNode.Some? && startNode.value in p.net.nodes ==> origin == startNode.value
  {
    var zones: Option<seq<Zone>> := None;
    if |p.order| > threshold {
      zones := DecomposeIntoZones(p, xy, maxZoneSize);
    }
    zoned := zones.Some?;
    if zoned {
      s, origin := SolveDivided(p, xy, cosLat, startNode, startXy, zones.value);
    } else {
      s, origin := SolveWhole(p, rebuilt, cosLat, startNode);
    }
  }

  /** Solves the zones of an area, nearest first. */
  method SolveDivided(p: Problem, xy: map<Node, Point>, cosLat: real -> real, startNode: Option<Node>, startXy: Option<Point>,
                      zones: seq<Zone>)
    returns (s: Solution, ghost origin: Node)
    requires p.Valid() && p.order != [] && Partitions(p, zones)
    ensures Tallied(p.net, |p.order|, s) && DrawnWhole(p.net, s)
    ensures AreaServed(p, xy, s) && AreaConnected(p.net, origin, s)
    ensures ReachesAll(p) ==> s.stats.teleports == 0
    ensures startNode.Some? && startNode.value in p.net.nodes ==> origin == startNode.value
  {
    var ordered := OrderZones(zones, startXy);
    PermutedPartition(p, zones, ordered);
    PartitionSolvable(p, ordered);
    ghost var end, parts;
    s, origin, end, parts := SolveZones(p.net, ordered, xy, cosLat, startNode);
    PartitionAddsUp(p, ordered);
    ZonesServeArea(p, ordered, s);
    ZonesSolveArea(p, xy, origin, s, end);
    if ReachesAll(p) {
      PartitionReached(p, ordered);
    }
  }

  /** Solves an area at once. */
  method SolveWhole(p: Problem, xy: map<Node, Point>, cosLat: real -> real, startNode: Option<Node>)
    returns (s: Solution, ghost origin: Node)
    requires p.Valid() && p.order != []
    ensures Tallied(p.net, |p.order|, s) && DrawnWhole(p.net, s)
    ensures AreaServed(p, xy, s) && AreaConnected(p.net, origin, s)
    ensures ReachesAll(p) ==> s.stats.teleports == 0
    ensures startNode.Some? && startNode.value in p.net.nodes ==> origin == startNode.value
  {
    ghost var run;
    s, run := SolveGreedyRoute(p, xy, cosLat, startNode);
    origin := StartOf(p, startNode);
    if s.stats.skipped == 0 {
      CompleteCosts(p, origin, s);
    }
    SingleSolvesArea(p, xy, origin, s);
  }

  /** The gaps found in the drawing of a fully solved area are no more than the teleports. */
  lemma GapsAreTeleports(n: Net, origin: Node, s: Solution, gaps: seq<int>)
    requires DrawnWhole(n, s) && AreaConnected(n, origin, s) && s.stats.skipped == 0 && Drawable(n, s.edges)
    requires Ascending(gaps)
    requires forall g :: g in gaps <==> |s.coords| >= 2 && exists i :: JumpsTo(n, s.edges, |s.coords|, i, g)
    ensures |gaps| <= s.stats.teleports
    ensures forall i :: JumpsBefore(s.edges, i) ==> Cursor(n, s.edges[..i]) in gaps
  {
    GapsAreJumps(n, s.edges, s.coords, gaps);
    GapsBounded(n, origin, s.edges, |s.coords|, gaps);
  }
}
