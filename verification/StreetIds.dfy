/**
 Turning matched street segments into requirements: a directed edge and at most one reverse of it
 stand for one street, and segments matched to the same street are counted together.
 */
module StreetIds {
  import opened Optional
  import opened Network
  import opened Sorting
  import opened Requirements
  import Greedy
  import ZoneRoute

  /** The edges back. */
  ghost function Reverses(n: Net, e: EdgeRef): set<EdgeRef> {
    set x | x in n.edges && x.u == e.v && x.v == e.u
  }

  /** Both edges are known to belong to the same OSM way. */
  ghost predicate SameWay(n: Net, e: EdgeRef, x: EdgeRef) {
    e in n.edges && x in n.edges && n.edges[e].osmid.Some? && n.edges[x].osmid == n.edges[e].osmid
  }

  /** The graph lists its edges in this order. */
  ghost predicate Lists(n: Net, listing: seq<EdgeRef>) {
    forall e :: e in listing <==> e in n.edges
  }

  /** The listed reverses of `e`, or only those of the same way. */
  ghost function Back(n: Net, listing: seq<EdgeRef>, e: EdgeRef, sameWay: bool): seq<EdgeRef> {
    if listing == [] then []
    else
      var x := listing[|listing| - 1];
      Back(n, listing[..|listing| - 1], e, sameWay) + if IsBack(n, e, x, sameWay) then [x] else []
  }

  ghost predicate IsBack(n: Net, e: EdgeRef, x: EdgeRef, sameWay: bool) {
    x.u == e.v && x.v == e.u && (sameWay ==> SameWay(n, e, x))
  }

  lemma {:induction false} BackIs(n: Net, listing: seq<EdgeRef>, e: EdgeRef, sameWay: bool)
    ensures forall x :: x in Back(n, listing, e, sameWay) <==> x in listing && IsBack(n, e, x, sameWay)
  {
    if listing != [] {
      BackIs(n, listing[..|listing| - 1], e, sameWay);
      assert listing == listing[..|listing| - 1] + [listing[|listing| - 1]];
    }
  }

  /** The plausible reverses: those of the same way if there are any, else all. */
  ghost function Plausible(n: Net, listing: seq<EdgeRef>, e: EdgeRef): seq<EdgeRef> {
    if Back(n, listing, e, true) != [] then Back(n, listing, e, true) else Back(n, listing, e, false)
  }

  lemma PlausibleIs(n: Net, listing: seq<EdgeRef>, e: EdgeRef)
    requires Lists(n, listing)
    ensures forall x :: x in Plausible(n, listing, e) ==> x in Reverses(n, e)
    ensures Plausible(n, listing, e) == [] <==> Reverses(n, e) == {}
  {
    BackIs(n, listing, e, true);
    BackIs(n, listing, e, false);
    var some := Plausible(n, listing, e);
    assert some != [] ==> some[0] in some && some[0] in Reverses(n, e);
    forall x | x in Reverses(n, e)
      ensures some != []
    {
      assert x in Back(n, listing, e, false);
    }
  }

  /** `x` is the first of the shortest. */
  ghost predicate FirstShortest(n: Net, edges: seq<EdgeRef>, x: EdgeRef) {
    exists i :: 0 <= i < |edges| && edges[i] == x && ShortestAt(n, edges, i)
  }

  ghost predicate ShortestAt(n: Net, edges: seq<EdgeRef>, i: nat)
    requires i < |edges|
  {
    && (forall j :: 0 <= j < i ==> n.EdgeLength(edges[i]) < n.EdgeLength(edges[j]))
    && (forall j :: i < j < |edges| ==> n.EdgeLength(edges[i]) <= n.EdgeLength(edges[j]))
  }

  /** The reverse that goes with `e`. */
  ghost predicate Picks(n: Net, listing: seq<EdgeRef>, e: EdgeRef, x: EdgeRef) {
    FirstShortest(n, Plausible(n, listing, e), x)
  }

  lemma PicksOne(n: Net, listing: seq<EdgeRef>, e: EdgeRef, x: EdgeRef, y: EdgeRef)
    requires Picks(n, listing, e, x) && Picks(n, listing, e, y)
    ensures x == y
  {
    var edges := Plausible(n, listing, e);
    var i :| 0 <= i < |edges| && edges[i] == x && ShortestAt(n, edges, i);
    var j :| 0 <= j < |edges| && edges[j] == y && ShortestAt(n, edges, j);
  }

  /** `rid` names the street of `e`; its options are `e` and the reverse that goes with it. */
  ghost predicate MadeFrom(n: Net, listing: seq<EdgeRef>, e: EdgeRef, rid: ReqId, options: seq<EdgeRef>) {
    && 1 <= |options| <= 2 && options[0] == e && rid.edges == Elements(options)
    && (|options| == 1 <==> Reverses(n, e) == {})
    && (|options| == 2 ==> Picks(n, listing, e, options[1]))
  }

  method ReverseCandidatesForEdge(n: Net, listing: seq<EdgeRef>, e: EdgeRef) returns (candidates: seq<EdgeRef>)
    ensures candidates == Plausible(n, listing, e)
  {
    candidates := ListBack(n, listing, e, true);
    if candidates == [] {
      candidates := ListBack(n, listing, e, false);
    }
  }

  method ListBack(n: Net, listing: seq<EdgeRef>, e: EdgeRef, sameWay: bool) returns (edges: seq<EdgeRef>)
    ensures edges == Back(n, listing, e, sameWay)
  {
    edges := [];
    for i := 0 to |listing|
      invariant edges == Back(n, listing[..i], e, sameWay)
    {
      assert listing[..i + 1][..i] == listing[..i];
      var x := listing[i];
      if x.u == e.v && x.v == e.u {
        if !sameWay || (e in n.edges && x in n.edges && n.edges[e].osmid.Some? && n.edges[x].osmid == n.edges[e].osmid) {
          edges := edges + [x];
        }
      }
    }
    assert listing[..|listing|] == listing;
  }

  method ShortestOf(n: Net, edges: seq<EdgeRef>) returns (best: EdgeRef)
    requires edges != []
    ensures FirstShortest(n, edges, best)
  {
    var k := 0;
    for i := 1 to |edges|
      invariant 0 <= k < i
      invariant forall j :: 0 <= j < k ==> n.EdgeLength(edges[k]) < n.EdgeLength(edges[j])
      invariant forall j :: k < j < i ==> n.EdgeLength(edges[k]) <= n.EdgeLength(edges[j])
    {
      if n.EdgeLength(edges[i]) < n.EdgeLength(edges[k]) {
        k := i;
      }
    }
    best := edges[k];
    assert ShortestAt(n, edges, k);
  }

  method MakeReqId(n: Net, listing: seq<EdgeRef>, e: EdgeRef) returns (rid: ReqId, options: seq<EdgeRef>)
    requires Lists(n, listing)
    ensures MadeFrom(n, listing, e, rid, options)
  {
    options := [e];
    var candidates := ReverseCandidatesForEdge(n, listing, e);
    PlausibleIs(n, listing, e);
    if candidates != [] {
      var best := ShortestOf(n, candidates);
      options := options + [best];
    }
    rid := ReqId(set x | x in options);
  }

  lemma PickedIsReverse(n: Net, listing: seq<EdgeRef>, e: EdgeRef, x: EdgeRef)
    requires Lists(n, listing) && Picks(n, listing, e, x)
    ensures x in Reverses(n, e)
  {
    PlausibleIs(n, listing, e);
    var edges := Plausible(n, listing, e);
    assert x in edges;
  }

  lemma MadeIsStreet(n: Net, listing: seq<EdgeRef>, e: EdgeRef, rid: ReqId, options: seq<EdgeRef>)
    requires Lists(n, listing) && MadeFrom(n, listing, e, rid, options)
    ensures OneStreet(options)
    ensures e in n.edges ==> forall x :: x in options ==> x in n.edges
  {
    if |options| == 2 {
      PickedIsReverse(n, listing, e, options[1]);
    }
  }

  // ----- When streets share no edge -----------------------------------------------------------

  /** Picking a reverse and then the reverse of that leads back to the same edge. */
  ghost predicate Mutual(n: Net, listing: seq<EdgeRef>) {
    forall e, x, y :: e in n.edges && Picks(n, listing, e, x) && Picks(n, listing, x, y) ==> y == e
  }

  /** Two names made from edges that share an edge are the same name. */
  ghost predicate NamesDisjoint(n: Net, listing: seq<EdgeRef>) {
    forall a, r, s, b, r', s' :: Names(n, listing, a, r, s) && Names(n, listing, b, r', s') ==> r == r' || r.edges !! r'.edges
  }

  ghost predicate Names(n: Net, listing: seq<EdgeRef>, e: EdgeRef, rid: ReqId, options: seq<EdgeRef>) {
    e in n.edges && MadeFrom(n, listing, e, rid, options)
  }

  /** An edge with a reverse has one that goes with it. */
  lemma SomePick(n: Net, listing: seq<EdgeRef>, e: EdgeRef) returns (x: EdgeRef)
    requires Lists(n, listing) && Reverses(n, e) != {}
    ensures Picks(n, listing, e, x)
  {
    PlausibleIs(n, listing, e);
    x := SomeFirst(n, Plausible(n, listing, e));
  }

  lemma {:induction false} SomeFirst(n: Net, edges: seq<EdgeRef>) returns (x: EdgeRef)
    requires edges != []
    ensures FirstShortest(n, edges, x)
  {
    var last := |edges| - 1;
    x := edges[last];
    if last == 0 {
      assert ShortestAt(n, edges, 0);
    } else {
      var front := edges[..last];
      var y := SomeFirst(n, front);
      var i :| 0 <= i < |front| && front[i] == y && ShortestAt(n, front, i);
      if n.EdgeLength(x) < n.EdgeLength(y) {
        forall j | 0 <= j < last
          ensures n.EdgeLength(x) < n.EdgeLength(edges[j])
        {
          assert edges[j] == front[j];
        }
        assert ShortestAt(n, edges, last);
      } else {
        x := y;
        assert forall j :: 0 <= j < last ==> edges[j] == front[j];
        assert edges[i] == y && ShortestAt(n, edges, i);
      }
    }
  }

  /** The name an edge gets if picking is mutual: itself, with its one reverse if it has any. */
  lemma MutualName(n: Net, listing: seq<EdgeRef>, e: EdgeRef, rid: ReqId, options: seq<EdgeRef>)
    requires Lists(n, listing) && Mutual(n, listing) && Names(n, listing, e, rid, options)
    ensures |options| == 1 ==> rid.edges == {e} && Reverses(n, e) == {}
    ensures |options| == 2 ==> rid.edges == {e, options[1]} && Picks(n, listing, options[1], e)
    ensures |options| == 2 ==> options[1] in Reverses(n, e) && e in Reverses(n, options[1])
  {
    if |options| == 2 {
      var x := options[1];
      PickedIsReverse(n, listing, e, x);
      assert e in Reverses(n, x);
      var y := SomePick(n, listing, x);
      assert options == [e, x];
    } else {
      assert options == [e];
    }
  }

  lemma MutualNames(n: Net, listing: seq<EdgeRef>, a: EdgeRef, r: ReqId, s: seq<EdgeRef>, b: EdgeRef, r': ReqId, s': seq<EdgeRef>,
                    z: EdgeRef)
    requires Lists(n, listing) && Mutual(n, listing) && Names(n, listing, a, r, s) && Names(n, listing, b, r', s')
    requires z in r.edges && z in r'.edges
    ensures r == r'
  {
    MutualName(n, listing, a, r, s);
    MutualName(n, listing, b, r', s');
    if |s| == 2 && |s'| == 2 {
      SamePair(n, listing, a, s[1], b, s'[1], z);
    }
  }

  /** Edges that pick each other are in no other pair. */
  lemma SamePair(n: Net, listing: seq<EdgeRef>, a: EdgeRef, x: EdgeRef, b: EdgeRef, y: EdgeRef, z: EdgeRef)
    requires Picks(n, listing, a, x) && Picks(n, listing, x, a) && Picks(n, listing, b, y) && Picks(n, listing, y, b)
    requires z in {a, x} && z in {b, y}
    ensures {a, x} == {b, y}
  {
    if a == b {
      PicksOne(n, listing, a, x, y);
    } else if a == y {
      PicksOne(n, listing, a, x, b);
    } else if x == b {
      PicksOne(n, listing, x, a, y);
    } else {
      PicksOne(n, listing, x, a, b);
    }
  }

  /** Names share no edge exactly when picking reverses is mutual. */
  lemma DisjointIffMutual(n: Net, listing: seq<EdgeRef>)
    requires Lists(n, listing)
    ensures NamesDisjoint(n, listing) <==> Mutual(n, listing)
  {
    if Mutual(n, listing) {
      forall a, r, s, b, r', s' | Names(n, listing, a, r, s) && Names(n, listing, b, r', s')
        ensures r == r' || r.edges !! r'.edges
      {
        if z :| z in r.edges && z in r'.edges {
          MutualNames(n, listing, a, r, s, b, r', s', z);
        }
      }
    }
    if NamesDisjoint(n, listing) {
      forall e, x, y | e in n.edges && Picks(n, listing, e, x) && Picks(n, listing, x, y)
        ensures y == e
      {
        PairName(n, listing, e, x);
        PickedIsReverse(n, listing, e, x);
        PairName(n, listing, x, y);
        assert x in ReqId({e, x}).edges && x in ReqId({x, y}).edges;
        assert {e, x} == {x, y};
        assert e in {x, y} && y in {e, x};
      }
    }
  }

  lemma PairName(n: Net, listing: seq<EdgeRef>, e: EdgeRef, x: EdgeRef)
    requires Lists(n, listing) && e in n.edges && Picks(n, listing, e, x)
    ensures Names(n, listing, e, ReqId({e, x}), [e, x])
  {
    assert Elements([e, x]) == {e, x};
    PickedIsReverse(n, listing, e, x);
  }

  /** Picking is mutual where no two edges join the same nodes in the same direction. */
  lemma NoParallelsMutual(n: Net, listing: seq<EdgeRef>)
    requires Lists(n, listing)
    requires forall a, b :: a in n.edges && b in n.edges && a.u == b.u && a.v == b.v ==> a == b
    ensures Mutual(n, listing)
  {
    forall e, x, y | e in n.edges && Picks(n, listing, e, x) && Picks(n, listing, x, y)
      ensures y == e
    {
      PickedIsReverse(n, listing, e, x);
      PickedIsReverse(n, listing, x, y);
    }
  }

  /** A road between two nodes. */
  ghost function Road(edges: map<EdgeRef, EdgeData>): Net {
    Net({0, 1}, edges, map[], [{0, 1}])
  }

  lemma RoadIsValid(edges: map<EdgeRef, EdgeData>)
    requires forall e :: e in edges ==> e.u in {0, 1} && e.v in {0, 1}
    ensures Road(edges).Valid()
  {
    var n := Road(edges);
    assert n.components[0] == {0, 1};
  }

  /** Two edges with the same single way back get two names that share it. */
  lemma WayBackShared(n: Net, listing: seq<EdgeRef>, a: EdgeRef, b: EdgeRef, x: EdgeRef)
    requires Lists(n, listing) && a in n.edges && b in n.edges && a != b && a != x
    requires Reverses(n, a) == {x} && Reverses(n, b) == {x}
    ensures !NamesDisjoint(n, listing)
  {
    OnlyWayBack(n, listing, a, x);
    OnlyWayBack(n, listing, b, x);
    PairName(n, listing, a, x);
    PairName(n, listing, b, x);
    assert x in ReqId({a, x}).edges && x in ReqId({b, x}).edges && a in ReqId({a, x}).edges && a !in ReqId({b, x}).edges;
  }

  /** Picking need not be mutual: so it is with two lanes out and one back. */
  lemma ParallelsShare()
    ensures exists n: Net, listing :: n.Valid() && Lists(n, listing) && !NamesDisjoint(n, listing)
  {
    var data := EdgeData(Some(1.0), None, []);
    var a, b, x := EdgeRef(0, 1, 0), EdgeRef(0, 1, 1), EdgeRef(1, 0, 0);
    var edges := map[a := data, b := data, x := data];
    var n, listing := Road(edges), [a, b, x];
    RoadIsValid(edges);
    assert Lists(n, listing);
    assert Reverses(n, a) == {x} && Reverses(n, b) == {x};
    WayBackShared(n, listing, a, b, x);
  }

  lemma OnlyWayBack(n: Net, listing: seq<EdgeRef>, e: EdgeRef, x: EdgeRef)
    requires Lists(n, listing) && Reverses(n, e) == {x}
    ensures Picks(n, listing, e, x)
  {
    var y := SomePick(n, listing, e);
    PickedIsReverse(n, listing, e, y);
  }

  // ----- Collecting the requirements ----------------------------------------------------------

  /** Every requirement was made from one of its edges. */
  ghost predicate AllMade(n: Net, listing: seq<EdgeRef>, options: map<ReqId, seq<EdgeRef>>) {
    forall r :: r in options ==> options[r] != [] && options[r][0] in n.edges && MadeFrom(n, listing, options[r][0], r, options[r])
  }

  /** The first `i` matched edges are each in a requirement. */
  ghost predicate Represented(p: Problem, matched: seq<EdgeRef>, i: nat) {
    forall k :: 0 <= k < i <= |matched| ==> Named(p.options.Keys, matched[k])
  }

  ghost predicate Named(rids: set<ReqId>, e: EdgeRef) {
    exists r :: r in rids && e in r.edges
  }

  /** All that is known after `i` matched segments; the counts add up to `i`. */
  ghost predicate Gathered(n: Net, listing: seq<EdgeRef>, p: Problem, matched: seq<EdgeRef>, i: nat) {
    && i <= |matched| && p.net == n && p.Listed() && AllMade(n, listing, p.options)
    && p.segments.Some? && p.segments.value.Keys == p.options.Keys
    && Represented(p, matched, i) && p.SegmentSum(p.options.Keys) == i
  }

  lemma {:induction false} SumOverSame(p: Problem, q: Problem, order: seq<ReqId>, a: set<ReqId>, b: set<ReqId>)
    requires forall r :: r in order ==> (r in a <==> r in b) && p.Segments(r) == q.Segments(r)
    ensures SumOver(p, order, a) == SumOver(q, order, b)
  {
    if order != [] {
      assert order[0] in order && forall r :: r in order[1..] ==> r in order;
      SumOverSame(p, q, order[1..], a, b);
    }
  }

  lemma {:induction false} SumOverAppend(p: Problem, order: seq<ReqId>, r: ReqId, todo: set<ReqId>)
    ensures SumOver(p, order + [r], todo) == SumOver(p, order, todo) + if r in todo then p.Segments(r) else 0
  {
    if order != [] {
      SumOverAppend(p, order[1..], r, todo);
      assert (order + [r])[1..] == order[1..] + [r];
    }
  }

  lemma {:induction false} SumOverBump(p: Problem, q: Problem, order: seq<ReqId>, r: ReqId, todo: set<ReqId>)
    requires Distinct(order) && r in order && r in todo && q.Segments(r) == p.Segments(r) + 1
    requires forall x :: x in order && x != r ==> p.Segments(x) == q.Segments(x)
    ensures SumOver(q, order, todo) == SumOver(p, order, todo) + 1
  {
    assert forall x :: x in order[1..] ==> x in order;
    if order[0] == r {
      SumOverSame(p, q, order[1..], todo, todo);
    } else {
      SumOverBump(p, q, order[1..], r, todo);
    }
  }

  function AddNew(p: Problem, rid: ReqId, options: seq<EdgeRef>): Problem
    requires p.segments.Some?
  {
    p.(order := p.order + [rid], options := p.options[rid := options], segments := Some(p.segments.value[rid := 1]))
  }

  function AddAgain(p: Problem, rid: ReqId): Problem
    requires p.segments.Some? && rid in p.segments.value
  {
    p.(segments := Some(p.segments.value[rid := p.segments.value[rid] + 1]))
  }

  lemma MoreRepresented(p: Problem, q: Problem, matched: seq<EdgeRef>, i: nat, rid: ReqId)
    requires Represented(p, matched, i) && i < |matched| && p.options.Keys <= q.options.Keys
    requires rid in q.options && matched[i] in rid.edges
    ensures Represented(q, matched, i + 1)
  {
    forall k | 0 <= k <= i
      ensures Named(q.options.Keys, matched[k])
    {
      if k < i {
        assert Named(p.options.Keys, matched[k]);
        var r :| r in p.options.Keys && matched[k] in r.edges;
        assert r in q.options.Keys;
      }
    }
  }

  lemma NewSum(p: Problem, rid: ReqId, options: seq<EdgeRef>)
    requires p.Listed() && p.segments.Some? && rid !in p.options
    ensures AddNew(p, rid, options).Listed()
    ensures AddNew(p, rid, options).SegmentSum(AddNew(p, rid, options).options.Keys) == p.SegmentSum(p.options.Keys) + 1
  {
    var q := AddNew(p, rid, options);
    SumOverAppend(q, p.order, rid, q.options.Keys);
    SumOverSame(p, q, p.order, p.options.Keys, q.options.Keys);
  }

  lemma NewGathered(n: Net, listing: seq<EdgeRef>, p: Problem, matched: seq<EdgeRef>, i: nat, rid: ReqId, options: seq<EdgeRef>)
    requires Gathered(n, listing, p, matched, i) && i < |matched| && matched[i] in n.edges && rid !in p.options
    requires MadeFrom(n, listing, matched[i], rid, options)
    ensures Gathered(n, listing, AddNew(p, rid, options), matched, i + 1)
  {
    assert matched[i] in rid.edges;
    NewSum(p, rid, options);
    MoreRepresented(p, AddNew(p, rid, options), matched, i, rid);
  }

  lemma AgainGathered(n: Net, listing: seq<EdgeRef>, p: Problem, matched: seq<EdgeRef>, i: nat, rid: ReqId, options: seq<EdgeRef>)
    requires Gathered(n, listing, p, matched, i) && i < |matched| && rid in p.options
    requires MadeFrom(n, listing, matched[i], rid, options)
    ensures Gathered(n, listing, AddAgain(p, rid), matched, i + 1)
  {
    assert matched[i] in rid.edges;
    SumOverBump(p, AddAgain(p, rid), p.order, rid, p.options.Keys);
    MoreRepresented(p, AddAgain(p, rid), matched, i, rid);
  }

  method GatherRequirements(n: Net, listing: seq<EdgeRef>, matched: seq<EdgeRef>) returns (p: Problem)
    requires Lists(n, listing) && forall e :: e in matched ==> e in n.edges
    ensures Gathered(n, listing, p, matched, |matched|)
  {
    p := Problem(n, [], map[], Some(map[]));
    for i := 0 to |matched|
      invariant Gathered(n, listing, p, matched, i)
    {
      var rid, options := MakeReqId(n, listing, matched[i]);
      if rid !in p.options {
        NewGathered(n, listing, p, matched, i, rid, options);
        p := AddNew(p, rid, options);
      } else {
        AgainGathered(n, listing, p, matched, i, rid, options);
        p := AddAgain(p, rid);
      }
    }
  }

  /** The collected requirements are what the solver asks for. */
  lemma GatheredIsValid(n: Net, listing: seq<EdgeRef>, p: Problem, matched: seq<EdgeRef>)
    requires n.Valid() && Lists(n, listing) && Gathered(n, listing, p, matched, |matched|)
    ensures p.Valid()
  {
    forall r | r in p.options
      ensures OneStreet(p.options[r]) && forall e :: e in p.options[r] ==> e in n.edges
    {
      MadeIsStreet(n, listing, p.options[r][0], r, p.options[r]);
    }
  }

  lemma GatheredIsDisjoint(n: Net, listing: seq<EdgeRef>, p: Problem, matched: seq<EdgeRef>)
    requires Lists(n, listing) && Gathered(n, listing, p, matched, |matched|) && Mutual(n, listing)
    ensures p.Disjoint()
  {
    forall r, r', e | r in p.options && r' in p.options && e in p.options[r] && e in p.options[r']
      ensures r == r'
    {
      MutualNames(n, listing, p.options[r][0], r, p.options[r], p.options[r'][0], r', p.options[r'], e);
    }
  }

  /** The service drives the street of `e`, in one direction or the other. */
  ghost predicate DrivesStreetOf(x: Service, e: EdgeRef) {
    e in x.rid.edges && x.edge in x.rid.edges
  }

  ghost predicate ServedOnce(services: seq<Service>, e: EdgeRef) {
    && (exists i :: 0 <= i < |services| && DrivesStreetOf(services[i], e))
    && (forall i, j :: 0 <= i < j < |services| ==> !(DrivesStreetOf(services[i], e) && DrivesStreetOf(services[j], e)))
  }

  /** From matching to route: if the matched streets share no edge, each matched segment is served, and only once. */
  lemma EverySegmentServed(n: Net, listing: seq<EdgeRef>, p: Problem, matched: seq<EdgeRef>, xy: map<Node, Point>,
                           s: Greedy.Solution, k: nat)
    requires Gathered(n, listing, p, matched, |matched|) && p.Disjoint() && n.nodes <= xy.Keys
    requires ZoneRoute.AreaServed(p, xy, s) && k < |matched|
    ensures ServedOnce(s.services, matched[k])
  {
    assert Named(p.options.Keys, matched[k]);
    var r :| r in p.options.Keys && matched[k] in r.edges;
    var i := ServiceOf(s.services, r);
    assert s.services[i] in s.services;
    assert DrivesStreetOf(s.services[i], matched[k]);
    forall j | 0 <= j < |s.services| && DrivesStreetOf(s.services[j], matched[k])
      ensures j == i
    {
      assert s.services[j] in s.services;
      OnlyName(n, listing, p, r, s.services[j].rid, matched[k]);
    }
  }

  lemma ServiceOf(services: seq<Service>, r: ReqId) returns (i: nat)
    requires r in Greedy.Rids(services)
    ensures i < |services| && services[i].rid == r
  {
    var x :| x in services && x.rid == r;
    i :| 0 <= i < |services| && services[i] == x;
  }

  lemma OnlyName(n: Net, listing: seq<EdgeRef>, p: Problem, r: ReqId, r': ReqId, e: EdgeRef)
    requires AllMade(n, listing, p.options) && p.Disjoint() && r in p.options && r' in p.options && e in r.edges && e in r'.edges
    ensures r == r'
  {
    assert e in p.options[r] && e in p.options[r'];
  }

  /** In particular on every network where picking reverses is mutual. */
  lemma MutualSegmentsServed(n: Net, listing: seq<EdgeRef>, p: Problem, matched: seq<EdgeRef>, xy: map<Node, Point>,
                             s: Greedy.Solution)
    requires Lists(n, listing) && Gathered(n, listing, p, matched, |matched|) && Mutual(n, listing) && n.nodes <= xy.Keys
    requires ZoneRoute.AreaServed(p, xy, s)
    ensures forall k :: 0 <= k < |matched| ==> ServedOnce(s.services, matched[k])
  {
    GatheredIsDisjoint(n, listing, p, matched);
    forall k | 0 <= k < |matched|
      ensures ServedOnce(s.services, matched[k])
    {
      EverySegmentServed(n, listing, p, matched, xy, s, k);
    }
  }

  // ----- Streets that share edges -------------------------------------------------------------

  /** The given requirements, each with one segment. */
  ghost function OneEach(n: Net, order: seq<ReqId>, options: map<ReqId, seq<EdgeRef>>): Problem {
    Problem(n, order, options, Some(map r | r in options :: 1))
  }

  /** A picked reverse is known by its length. */
  lemma PicksShorter(n: Net, listing: seq<EdgeRef>, e: EdgeRef, x: EdgeRef, y: EdgeRef)
    requires Lists(n, listing) && Reverses(n, e) == {x, y} && SameWay(n, e, x) && SameWay(n, e, y)
    requires n.EdgeLength(x) < n.EdgeLength(y)
    ensures Picks(n, listing, e, x)
  {
    var z := SomePick(n, listing, e);
    PickedIsReverse(n, listing, e, z);
    BackIs(n, listing, e, true);
    var edges := Plausible(n, listing, e);
    assert x in Back(n, listing, e, true) && x in edges;
    var i :| 0 <= i < |edges| && edges[i] == z && ShortestAt(n, edges, i);
    var j :| 0 <= j < |edges| && edges[j] == x;
  }

  /** A divided road: two lanes each way, of which the second out and the first back are the short ones. */
  ghost function Lane(out: bool, k: int): EdgeRef {
    if out then EdgeRef(0, 1, k) else EdgeRef(1, 0, k)
  }

  ghost function DividedRoad(): Net {
    var long, short := EdgeData(Some(2.0), Some(7), []), EdgeData(Some(1.0), Some(7), []);
    Road(map[Lane(true, 0) := long, Lane(true, 1) := short, Lane(false, 0) := short, Lane(false, 1) := long])
  }

  ghost function Lanes(): seq<EdgeRef> {
    [Lane(true, 0), Lane(true, 1), Lane(false, 0), Lane(false, 1)]
  }

  lemma DividedRoadIsValid()
    ensures DividedRoad().Valid() && Lists(DividedRoad(), Lanes())
  {
    RoadIsValid(DividedRoad().edges);
  }

  lemma PicksBack(k: int)
    requires k == 0 || k == 1
    ensures Picks(DividedRoad(), Lanes(), Lane(true, k), Lane(false, 0))
  {
    var n := DividedRoad();
    DividedRoadIsValid();
    assert Reverses(n, Lane(true, k)) == {Lane(false, 0), Lane(false, 1)};
    PicksShorter(n, Lanes(), Lane(true, k), Lane(false, 0), Lane(false, 1));
  }

  lemma PicksOut(k: int)
    requires k == 0 || k == 1
    ensures Picks(DividedRoad(), Lanes(), Lane(false, k), Lane(true, 1))
  {
    var n := DividedRoad();
    DividedRoadIsValid();
    assert Reverses(n, Lane(false, k)) == {Lane(true, 1), Lane(true, 0)};
    PicksShorter(n, Lanes(), Lane(false, k), Lane(true, 1), Lane(true, 0));
  }

  /** The name that a lane and the lane picked for the way back get. */
  ghost function NameOf(a: EdgeRef, b: EdgeRef): ReqId {
    ReqId({a, b})
  }

  ghost function TangledProblem(): Problem {
    var a, b, x, y := Lane(true, 0), Lane(true, 1), Lane(false, 0), Lane(false, 1);
    OneEach(DividedRoad(), [NameOf(a, x), NameOf(y, b), NameOf(b, x)],
          map[NameOf(a, x) := [a, x], NameOf(y, b) := [y, b], NameOf(b, x) := [b, x]])
  }

  ghost function TangledMatches(): seq<EdgeRef> {
    [Lane(true, 0), Lane(false, 1), Lane(true, 1)]
  }

  lemma NamesDiffer()
    ensures var a, b, x, y := Lane(true, 0), Lane(true, 1), Lane(false, 0), Lane(false, 1);
            NameOf(a, x) != NameOf(y, b) && NameOf(a, x) != NameOf(b, x) && NameOf(y, b) != NameOf(b, x)
  {
    var a, b, x, y := Lane(true, 0), Lane(true, 1), Lane(false, 0), Lane(false, 1);
    assert a in NameOf(a, x).edges && a !in NameOf(y, b).edges && a !in NameOf(b, x).edges;
    assert y in NameOf(y, b).edges && y !in NameOf(b, x).edges;
  }

  lemma NameIsMade(a: EdgeRef, b: EdgeRef)
    requires a in DividedRoad().edges && Picks(DividedRoad(), Lanes(), a, b)
    ensures MadeFrom(DividedRoad(), Lanes(), a, NameOf(a, b), [a, b])
  {
    DividedRoadIsValid();
    PairName(DividedRoad(), Lanes(), a, b);
  }

  lemma TangledIsMade()
    ensures AllMade(DividedRoad(), Lanes(), TangledProblem().options)
  {
    var a, b, x, y := Lane(true, 0), Lane(true, 1), Lane(false, 0), Lane(false, 1);
    assert a in DividedRoad().edges && b in DividedRoad().edges && y in DividedRoad().edges;
    PicksBack(0);
    PicksBack(1);
    PicksOut(1);
    NameIsMade(a, x);
    NameIsMade(y, b);
    NameIsMade(b, x);
    NamesDiffer();
    MadeThree(DividedRoad(), Lanes(), [a, x], NameOf(a, x), [y, b], NameOf(y, b), [b, x], NameOf(b, x));
  }

  lemma MadeThree(n: Net, listing: seq<EdgeRef>, s: seq<EdgeRef>, r: ReqId, s': seq<EdgeRef>, r': ReqId, s'': seq<EdgeRef>, r'': ReqId)
    requires s != [] && s' != [] && s'' != [] && r != r' && r != r'' && r' != r''
    requires s[0] in n.edges && MadeFrom(n, listing, s[0], r, s)
    requires s'[0] in n.edges && MadeFrom(n, listing, s'[0], r', s')
    requires s''[0] in n.edges && MadeFrom(n, listing, s''[0], r'', s'')
    ensures AllMade(n, listing, map[r := s, r' := s', r'' := s''])
  {
  }

  lemma TangledIsListed()
    ensures TangledProblem().Listed() && |TangledProblem().order| == 3
  {
    NamesDiffer();
  }

  lemma TangledIsRepresented()
    ensures Represented(TangledProblem(), TangledMatches(), 3)
  {
    var p, m := TangledProblem(), TangledMatches();
    forall k | 0 <= k < 3
      ensures Named(p.options.Keys, m[k])
    {
      assert p.order[k] in p.options.Keys && m[k] in p.order[k].edges;
    }
  }

  /** These are the requirements that matching the first lane out, the second back and the second out gives. */
  lemma TangledIsGathered()
    ensures Gathered(DividedRoad(), Lanes(), TangledProblem(), TangledMatches(), 3)
  {
    TangledIsMade();
    TangledIsListed();
    TangledIsRepresented();
    TangledSum();
  }

  lemma TangledSum()
    ensures TangledProblem().SegmentSum(TangledProblem().options.Keys) == 3
  {
    var p := TangledProblem();
    var all := p.options.Keys;
    NamesDiffer();
    assert p.order[0] in all && p.order[1] in all && p.order[2] in all;
    assert p.order[1..][0] == p.order[1] && p.order[1..][1..] == [p.order[2]] && p.order[1..][1..][1..] == [];
    assert SumOver(p, [p.order[2]], all) == 1;
    assert SumOver(p, p.order[1..], all) == 2;
  }

  /** Both options of the third requirement belong to the first two. */
  lemma TangledOwners()
    ensures var p, r := TangledProblem(), NameOf(Lane(true, 1), Lane(false, 0));
            p.Listed() && r in p.options && forall e :: e in p.options[r] ==> !Owns(p, r, e)
  {
    var p := TangledProblem();
    NamesDiffer();
    assert p.Listed();
    forall e | e == Lane(true, 1) || e == Lane(false, 0)
      ensures Owner(p, e, 3) == Owner(p, e, 2) && Owner(p, e, 2).Some? && Owner(p, e, 2).value != p.order[2]
    {
      assert Owner(p, e, 1) == if e == Lane(false, 0) then Some(p.order[0]) else None;
    }
  }

  /** So this input is never covered, whatever route the solver takes. */
  lemma TangledNeverCovered(start: Node, s: Greedy.Solution)
    requires Greedy.Sound(TangledProblem(), start, s)
    ensures NameOf(Lane(true, 1), Lane(false, 0)) !in Greedy.Rids(s.services) && s.stats.skipped > 0
  {
    TangledOwners();
    Greedy.UnownedNeverServed(TangledProblem(), start, s, NameOf(Lane(true, 1), Lane(false, 0)));
  }

  /** Two lanes out and one back share the way back, and yet are untangled. */
  ghost function TwoLanes(): Problem {
    var a, b, x := Lane(true, 0), Lane(true, 1), Lane(false, 0);
    var data := EdgeData(Some(1.0), None, []);
    OneEach(Road(map[a := data, b := data, x := data]), [NameOf(a, x), NameOf(b, x)],
          map[NameOf(a, x) := [a, x], NameOf(b, x) := [b, x]])
  }

  lemma TwoLanesUntangled()
    ensures !TwoLanes().Disjoint() && Greedy.Untangled(TwoLanes())
  {
    var a, b, x := Lane(true, 0), Lane(true, 1), Lane(false, 0);
    var p := TwoLanes();
    NamesDiffer();
    assert x in p.options[NameOf(a, x)] && x in p.options[NameOf(b, x)];
    assert p.Listed();
    var height: Node -> nat := v => if v == 1 then 1 else 0;
    assert Owner(p, a, 1) == Some(NameOf(a, x)) && Owner(p, x, 1) == Some(NameOf(a, x)) && Owner(p, b, 1) == None;
    assert Owner(p, a, 2) == Some(NameOf(a, x)) && Owner(p, x, 2) == Some(NameOf(a, x)) && Owner(p, b, 2) == Some(NameOf(b, x));
    assert b in p.options[NameOf(b, x)] && b.u == 0;
    assert 0 in p.Starts(NameOf(b, x));
    assert Graded(p, height, 1);
    Greedy.UnitsAre(1, 2);
    assert Greedy.UntangledBy(p, height, 1);
  }
}
