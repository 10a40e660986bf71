/**
 Splitting a large set of requirements into geographic zones: chunks of the requirements sorted by
 midpoint, split along road components, small zones of one component merged again. The order in
 which dictionaries list their entries is left open.
 */
module Zones {
  import opened Optional
  import opened Guard
  import opened Network
  import opened Sorting
  import opened Requirements

  datatype Zone = Zone(id: int, reqs: map<ReqId, seq<EdgeRef>>, segs: map<ReqId, int>, cx: real, cy: real)

  function NewZone(id: int): Zone {
    Zone(id, map[], map[], 0.0, 0.0)
  }

  /** The segment counts of a problem; none given is the same as an empty table. */
  function Counts(p: Problem): map<ReqId, int> {
    if p.segments.Some? then p.segments.value else map[]
  }

  /** The zone has the options and segment counts of its requirements as the problem has them. */
  ghost predicate Faithful(p: Problem, z: Zone) {
    && (forall r :: r in z.reqs ==> r in p.options && z.reqs[r] == p.options[r])
    && (forall r :: r in z.segs ==> p.segments.Some? && r in p.segments.value && z.segs[r] == p.segments.value[r])
    && (forall r :: r in z.reqs && p.segments.Some? && r in p.segments.value ==> r in z.segs)
  }

  ghost predicate Separate(zones: seq<Zone>) {
    forall i, j, r :: 0 <= i < j < |zones| && r in zones[i].reqs ==> r !in zones[j].reqs
  }

  /** Every requirement is in exactly one zone, unchanged. */
  ghost predicate Partitions(p: Problem, zones: seq<Zone>) {
    && (forall i :: 0 <= i < |zones| ==> Faithful(p, zones[i]))
    && (forall r :: r in p.options ==> exists i :: 0 <= i < |zones| && r in zones[i].reqs)
    && Separate(zones)
  }

  /** All requirements of the zone lie in the road component `c`. */
  ghost predicate Within(p: Problem, z: Zone, c: int) {
    forall r :: r in z.reqs ==> p.Comp(r) == c
  }

  ghost predicate OneComponent(p: Problem, z: Zone) {
    exists c :: Within(p, z, c)
  }

  // ----- Zones under construction -------------------------------------------------------------

  ghost function Members(zoneOf: map<ReqId, int>, k: int): set<ReqId> {
    set r | r in zoneOf && zoneOf[r] == k
  }

  /** The zone table says the same as the assignment `zoneOf` of requirements to zones. */
  ghost predicate Holds(p: Problem, zoneOf: map<ReqId, int>, zones: map<int, Zone>) {
    && (forall r :: r in zoneOf ==> zoneOf[r] in zones)
    && (forall k :: k in zones ==> HoldsAt(p, zoneOf, k, zones[k]))
  }

  ghost predicate HoldsAt(p: Problem, zoneOf: map<ReqId, int>, k: int, z: Zone) {
    z.id == k && Faithful(p, z) && z.reqs.Keys == Members(zoneOf, k)
  }

  /** No zone is empty. */
  ghost predicate Occupied(zones: map<int, Zone>) {
    forall k :: k in zones ==> zones[k].reqs.Keys != {}
  }

  lemma HeldAt(p: Problem, zoneOf: map<ReqId, int>, zones: map<int, Zone>, k: int)
    requires Holds(p, zoneOf, zones) && k in zones
    ensures forall r :: r in zones[k].reqs <==> r in zoneOf && zoneOf[r] == k
    ensures forall r :: r in zones[k].reqs.Keys <==> r in zoneOf && zoneOf[r] == k
  {
    assert HoldsAt(p, zoneOf, k, zones[k]);
    assert forall r :: r in zones[k].reqs <==> r in zones[k].reqs.Keys;
  }

  /** Adds requirements to a zone. */
  function Extend(p: Problem, z: Zone, rids: set<ReqId>): Zone
    requires rids <= p.options.Keys
  {
    z.(reqs := z.reqs + map r | r in rids :: p.options[r],
       segs := z.segs + map r | r in rids && r in Counts(p) :: Counts(p)[r])
  }

  function ZoneAt(zones: map<int, Zone>, k: int): Zone {
    if k in zones then zones[k] else NewZone(k)
  }

  function Union(a: Zone, b: Zone): Zone {
    a.(reqs := a.reqs + b.reqs, segs := a.segs + b.segs)
  }

  function Emptied(z: Zone): Zone {
    z.(reqs := map[], segs := map[])
  }

  ghost function Assigned(zoneOf: map<ReqId, int>, rids: set<ReqId>, k: int): map<ReqId, int> {
    zoneOf + map r | r in rids :: k
  }

  lemma ExtendFaithful(p: Problem, z: Zone, rids: set<ReqId>)
    requires Faithful(p, z) && rids <= p.options.Keys
    ensures Faithful(p, Extend(p, z, rids)) && Extend(p, z, rids).reqs.Keys == z.reqs.Keys + rids
  {
  }

  lemma AssignedHere(p: Problem, zoneOf: map<ReqId, int>, k: int, z: Zone, rids: set<ReqId>)
    requires HoldsAt(p, zoneOf, k, z) && rids !! zoneOf.Keys && rids <= p.options.Keys
    ensures HoldsAt(p, Assigned(zoneOf, rids, k), k, Extend(p, z, rids))
  {
    ExtendFaithful(p, z, rids);
    assert Members(Assigned(zoneOf, rids, k), k) == Members(zoneOf, k) + rids;
  }

  lemma AssignedElsewhere(p: Problem, zoneOf: map<ReqId, int>, k: int, j: int, z: Zone, rids: set<ReqId>)
    requires HoldsAt(p, zoneOf, j, z) && rids !! zoneOf.Keys && j != k
    ensures HoldsAt(p, Assigned(zoneOf, rids, k), j, z)
  {
    assert Members(Assigned(zoneOf, rids, k), j) == Members(zoneOf, j);
  }

  /** Putting new requirements into a zone, old or new. */
  lemma ExtendHolds(p: Problem, zoneOf: map<ReqId, int>, zones: map<int, Zone>, k: int, rids: set<ReqId>)
    requires Holds(p, zoneOf, zones) && rids !! zoneOf.Keys && rids <= p.options.Keys
    ensures Holds(p, Assigned(zoneOf, rids, k), zones[k := Extend(p, ZoneAt(zones, k), rids)])
    ensures Assigned(zoneOf, rids, k).Keys == zoneOf.Keys + rids
  {
    var z := ZoneAt(zones, k);
    assert HoldsAt(p, zoneOf, k, z) by {
      if k !in zones {
        assert Members(zoneOf, k) == {};
      }
    }
    AssignedHere(p, zoneOf, k, z, rids);
    forall j | j in zones && j != k
      ensures HoldsAt(p, Assigned(zoneOf, rids, k), j, zones[j])
    {
      AssignedElsewhere(p, zoneOf, k, j, zones[j], rids);
    }
    HoldsUpdated(p, Assigned(zoneOf, rids, k), zones, k, Extend(p, z, rids));
  }

  lemma HoldsUpdated(p: Problem, zoneOf: map<ReqId, int>, zones: map<int, Zone>, k: int, z: Zone)
    requires HoldsAt(p, zoneOf, k, z)
    requires forall j :: j in zones && j != k ==> HoldsAt(p, zoneOf, j, zones[j])
    requires forall r :: r in zoneOf ==> zoneOf[r] == k || zoneOf[r] in zones
    ensures Holds(p, zoneOf, zones[k := z])
  {
  }

  /** Keeping only some requirements of a zone. */
  lemma ShrinkHolds(p: Problem, zoneOf: map<ReqId, int>, zones: map<int, Zone>, k: int, keep: set<ReqId>)
    requires Holds(p, zoneOf, zones) && k in zones && keep <= zones[k].reqs.Keys && keep <= p.options.Keys
    ensures Holds(p, zoneOf - (zones[k].reqs.Keys - keep), zones[k := Extend(p, Emptied(zones[k]), keep)])
  {
    var after := zoneOf - (zones[k].reqs.Keys - keep);
    assert HoldsAt(p, zoneOf, k, zones[k]);
    ExtendFaithful(p, Emptied(zones[k]), keep);
    assert Members(after, k) == keep;
    forall j | j in zones && j != k
      ensures HoldsAt(p, after, j, zones[j])
    {
      assert HoldsAt(p, zoneOf, j, zones[j]);
      assert Members(after, j) == Members(zoneOf, j);
    }
  }

  ghost function Moved(zoneOf: map<ReqId, int>, a: int, b: int): map<ReqId, int> {
    map r | r in zoneOf :: if zoneOf[r] == b then a else zoneOf[r]
  }

  /** Merging zone `b` into zone `a`. */
  lemma MergeHolds(p: Problem, zoneOf: map<ReqId, int>, zones: map<int, Zone>, a: int, b: int)
    requires Holds(p, zoneOf, zones) && a in zones && b in zones && a != b
    ensures Holds(p, Moved(zoneOf, a, b), (zones - {b})[a := Union(zones[a], zones[b])])
    ensures Moved(zoneOf, a, b).Keys == zoneOf.Keys
  {
    var after := Moved(zoneOf, a, b);
    assert HoldsAt(p, zoneOf, a, zones[a]) && HoldsAt(p, zoneOf, b, zones[b]);
    MergedHere(p, zoneOf, a, b, zones[a], zones[b]);
    forall j | j in zones - {b} && j != a
      ensures HoldsAt(p, after, j, (zones - {b})[j])
    {
      assert HoldsAt(p, zoneOf, j, zones[j]);
      assert Members(after, j) == Members(zoneOf, j);
    }
    HoldsUpdated(p, after, zones - {b}, a, Union(zones[a], zones[b]));
  }

  lemma MergedHere(p: Problem, zoneOf: map<ReqId, int>, a: int, b: int, y: Zone, z: Zone)
    requires HoldsAt(p, zoneOf, a, y) && HoldsAt(p, zoneOf, b, z) && a != b
    ensures HoldsAt(p, Moved(zoneOf, a, b), a, Union(y, z))
  {
    assert Members(Moved(zoneOf, a, b), a) == Members(zoneOf, a) + Members(zoneOf, b);
  }

  // ----- Midpoints and chunks -----------------------------------------------------------------

  /** The requirements whose street has coordinates at both ends. */
  ghost function Located(p: Problem, xy: map<Node, Point>): set<ReqId> {
    set r | r in p.options && p.options[r] != [] && p.options[r][0].u in xy && p.options[r][0].v in xy
  }

  function EdgeMidpoint(e: EdgeRef, xy: map<Node, Point>): Option<Point> {
    if e.u in xy && e.v in xy
    then Some(Point((xy[e.u].x + xy[e.v].x) / 2.0, (xy[e.u].y + xy[e.v].y) / 2.0))
    else None
  }

  /** The listed requirements with their midpoints; the direction of the shortest option does not matter. */
  ghost predicate Surveyed(p: Problem, xy: map<Node, Point>, rids: seq<ReqId>, points: seq<Point>) {
    && |rids| == |points| && Distinct(rids)
    && (forall i :: 0 <= i < |rids| ==> SurveyedAt(p, xy, rids[i], points[i]))
  }

  ghost predicate SurveyedAt(p: Problem, xy: map<Node, Point>, r: ReqId, mid: Point) {
    && r in Located(p, xy)
    && 2.0 * mid.x == xy[p.options[r][0].u].x + xy[p.options[r][0].v].x
    && 2.0 * mid.y == xy[p.options[r][0].u].y + xy[p.options[r][0].v].y
  }

  method CollectMidpoints(p: Problem, xy: map<Node, Point>) returns (rids: seq<ReqId>, points: seq<Point>)
    requires p.Valid()
    ensures Surveyed(p, xy, rids, points) && Elements(rids) == Located(p, xy)
  {
    rids, points := [], [];
    for i := 0 to |p.order|
      invariant Surveyed(p, xy, rids, points)
      invariant Elements(rids) == Located(p, xy) * Seen(p, i)
    {
      SeenStep(p, i);
      var r := p.order[i];
      var best := BestOption(p.net, p.options[r]);
      SameMidpoint(p, xy, r, best);
      var mid := EdgeMidpoint(best, xy);
      if mid.Some? {
        SurveyedStep(p, xy, rids, points, r, mid.value);
        rids, points := rids + [r], points + [mid.value];
      }
    }
    SeenAll(p);
  }

  lemma SurveyedStep(p: Problem, xy: map<Node, Point>, rids: seq<ReqId>, points: seq<Point>, r: ReqId, mid: Point)
    requires Surveyed(p, xy, rids, points) && r !in Elements(rids) && SurveyedAt(p, xy, r, mid)
    ensures Surveyed(p, xy, rids + [r], points + [mid])
    ensures Elements(rids + [r]) == Elements(rids) + {r}
  {
    assert forall i :: 0 <= i < |rids| ==> rids[i] in Elements(rids);
  }

  lemma SameMidpoint(p: Problem, xy: map<Node, Point>, r: ReqId, e: EdgeRef)
    requires p.Valid() && r in p.options && e in p.options[r]
    ensures p.options[r] != [] && EdgeMidpoint(e, xy) == EdgeMidpoint(p.options[r][0], xy)
    ensures r in Located(p, xy) <==> EdgeMidpoint(e, xy).Some?
  {
    assert SameStreet(p.options[r][0], e);
  }

  /** Points compare by x, then by y. */
  ghost predicate AtMost(a: Point, b: Point) {
    a.x < b.x || (a.x == b.x && a.y <= b.y)
  }

  /** Points listed in order, by index. */
  ghost predicate InOrder(points: seq<Point>, order: seq<int>) {
    && (forall i :: 0 <= i < |order| ==> 0 <= order[i] < |points|)
    && (forall i, j :: 0 <= i < j < |order| ==> order[i] != order[j] && AtMost(points[order[i]], points[order[j]]))
  }

  /** An index whose point comes no later than the others. */
  method LeastPoint(points: seq<Point>, left: set<int>) returns (least: int)
    requires left != {} && forall x :: x in left ==> 0 <= x < |points|
    ensures least in left && forall x :: x in left ==> AtMost(points[least], points[x])
  {
    least := Pick(left);
    var rest := left - {least};
    while rest != {}
      invariant rest <= left && least in left
      invariant forall x :: x in left && x !in rest ==> AtMost(points[least], points[x])
      decreases rest
    {
      var x := Pick(rest);
      rest := rest - {x};
      if points[x].x < points[least].x || (points[x].x == points[least].x && points[x].y < points[least].y) {
        least := x;
      }
    }
  }

  method SortPoints(points: seq<Point>) returns (order: seq<int>)
    ensures InOrder(points, order) && |order| == |points|
    ensures forall x :: 0 <= x < |points| ==> x in order
  {
    order := [];
    var left: set<int> := {};
    for x := 0 to |points|
      invariant |left| == x && forall y :: y in left <==> 0 <= y < x
    {
      left := left + {x};
    }
    while left != {}
      invariant forall x :: x in left ==> 0 <= x < |points| && x !in order
      invariant forall x :: 0 <= x < |points| ==> x in left || x in order
      invariant InOrder(points, order) && |order| + |left| == |points|
      invariant forall i, x :: 0 <= i < |order| && x in left ==> AtMost(points[order[i]], points[x])
      decreases left
    {
      var x := LeastPoint(points, left);
      left := left - {x};
      assert x !in order;
      order := order + [x];
    }
  }

  lemma ChunksFit(m: nat, n: nat, chunk: nat)
    requires n >= 2 && chunk == if m / n > 1 then m / n else 1
    ensures m >= n - 1 <==> (n - 1) * chunk <= m
  {
    assert (n - 1) * chunk == (n - 1) * (chunk - 1) + (n - 1);
    assert n * (m / n) <= m;
    assert n * chunk == (n - 1) * chunk + chunk;
  }

  lemma ChunkOrder(a: nat, b: nat, chunk: nat)
    requires a <= b
    ensures a * chunk <= b * chunk
  {
  }

  /** The size of all chunks but the last. */
  ghost function ChunkSize(m: nat, n: nat): nat
    requires n > 0
  {
    if m / n > 1 then m / n else 1
  }

  /** The chunk of the `i`-th point in order: the last one takes what is left. */
  ghost function ChunkOf(i: nat, chunk: nat, n: nat): int
    requires chunk > 0
  {
    if i / chunk < n - 1 then i / chunk else n - 1
  }

  lemma ChunkIs(i: nat, c: nat, chunk: nat, n: nat)
    requires chunk > 0 && c < n && c * chunk <= i && (c < n - 1 ==> i < (c + 1) * chunk)
    ensures ChunkOf(i, chunk, n) == c
  {
    Quotient(i, c, chunk);
  }

  lemma Quotient(i: nat, c: nat, chunk: nat)
    requires chunk > 0 && c * chunk <= i
    ensures i / chunk >= c && (i < (c + 1) * chunk ==> i / chunk == c)
  {
    var q := i / chunk;
    assert q * chunk <= i < q * chunk + chunk && (q + 1) * chunk == q * chunk + chunk;
    if q < c {
      ChunkOrder(q + 1, c, chunk);
    }
    if q > c && i < (c + 1) * chunk {
      ChunkOrder(c + 1, q, chunk);
    }
  }

  lemma ChunksAscend(i: nat, j: nat, chunk: nat, n: nat)
    requires chunk > 0 && n > 0 && i <= j
    ensures 0 <= ChunkOf(i, chunk, n) <= ChunkOf(j, chunk, n) < n
  {
    var q := i / chunk;
    assert q * chunk <= i;
    Quotient(j, q, chunk);
  }

  /** The sorted points have been cut into chunks of equal size, and the labels tell the chunks. */
  ghost predicate Chunked(points: seq<Point>, labels: seq<int>, n: nat)
    requires n > 0
  {
    exists order :: ChunkedBy(points, labels, n, order)
  }

  ghost predicate ChunkedBy(points: seq<Point>, labels: seq<int>, n: nat, order: seq<int>)
    requires n > 0
  {
    && InOrder(points, order) && |order| == |points| && (forall x :: 0 <= x < |points| ==> x in order)
    && Painted(order, labels, |order|, ChunkSize(|points|, n), n)
  }

  /**
   Labels equal chunks of the sorted points; fails exactly when there are fewer points than all
   chunks but the last need.
   */
  method ChunkLabels(points: seq<Point>, nZones: nat) returns (r: Option<seq<int>>)
    requires points != [] && nZones >= 2
    ensures r.None? <==> |points| < nZones - 1
    ensures r.Some? ==> |r.value| == |points| && Chunked(points, r.value, nZones)
  {
    var order := SortPoints(points);
    var m := |order|;
    var chunk := if m / nZones > 1 then m / nZones else 1;
    ChunksFit(m, nZones, chunk);
    var labels := seq(m, _ => 0);
    var start := 0;
    for c := 0 to nZones
      invariant start <= m && (c == nZones ==> start == m) && (c < nZones ==> start == c * chunk)
      invariant Painted(order, labels, start, chunk, nZones) && (c == nZones ==> (nZones - 1) * chunk <= m)
    {
      var end := if c == nZones - 1 then m else (c + 1) * chunk;
      ChunkOrder(c, c + 1, chunk);
      var painted := Paint(order, labels, start, end, c, chunk, nZones);
      if painted.None? {
        ChunkOrder(c + 1, nZones - 1, chunk);
        return None;
      }
      labels, start := painted.value, end;
    }
    assert ChunkedBy(points, labels, nZones, order);
    r := Some(labels);
  }

  /** The first `n` of the listed positions are labelled with their chunks. */
  ghost predicate Painted(order: seq<int>, labels: seq<int>, n: int, chunk: nat, nZones: nat) {
    && 0 <= n <= |order| == |labels| && (forall i :: 0 <= i < |order| ==> 0 <= order[i] < |labels|) && chunk > 0
    && (forall i :: 0 <= i < n ==> labels[order[i]] == ChunkOf(i, chunk, nZones))
  }

  /** Labels the positions from `start` to `end`, unless they run out. */
  method Paint(order: seq<int>, labels0: seq<int>, start: int, end: int, c: nat, ghost chunk: nat, ghost nZones: nat)
    returns (r: Option<seq<int>>)
    requires Painted(order, labels0, start, chunk, nZones) && c * chunk == start <= end && c < nZones
    requires c < nZones - 1 ==> end == (c + 1) * chunk
    requires forall i, j :: 0 <= i < j < |order| ==> order[i] != order[j]
    ensures r.None? <==> end > |order|
    ensures r.Some? ==> Painted(order, r.value, end, chunk, nZones)
  {
    var labels := labels0;
    for i := start to end
      invariant i <= |order| && Painted(order, labels, i, chunk, nZones)
    {
      if i >= |order| {
        return None;
      }
      ChunkIs(i, c, chunk, nZones);
      labels := labels[order[i] := c];
    }
    r := Some(labels);
  }

  /** So a point with a smaller label is no larger. */
  lemma LabelsFollowPoints(points: seq<Point>, labels: seq<int>, n: nat)
    requires n > 0 && |labels| == |points| && Chunked(points, labels, n)
    ensures forall a :: 0 <= a < |points| ==> 0 <= labels[a] < n
    ensures forall a, b :: 0 <= a < |points| && 0 <= b < |points| && labels[a] < labels[b] ==> AtMost(points[a], points[b])
  {
    var order :| ChunkedBy(points, labels, n, order);
    var chunk := ChunkSize(|points|, n);
    forall a | 0 <= a < |points|
      ensures 0 <= labels[a] < n
    {
      assert a in order;
      var i :| 0 <= i < |order| && order[i] == a;
      ChunksAscend(i, i, chunk, n);
    }
    forall a, b | 0 <= a < |points| && 0 <= b < |points| && labels[a] < labels[b]
      ensures AtMost(points[a], points[b])
    {
      assert a in order && b in order;
      var i :| 0 <= i < |order| && order[i] == a;
      var j :| 0 <= j < |order| && order[j] == b;
      if j <= i {
        ChunksAscend(j, i, chunk, n);
      }
    }
  }

  /** The first `i` requirements are in the zones of their labels, and no other is anywhere. */
  ghost predicate FollowsLabels(rids: seq<ReqId>, labels: seq<int>, i: nat, zoneOf: map<ReqId, int>) {
    && i <= |rids| == |labels| && zoneOf.Keys == Elements(rids[..i])
    && (forall k :: 0 <= k < i ==> rids[k] in zoneOf && zoneOf[rids[k]] == labels[k])
  }

  lemma FollowsStep(rids: seq<ReqId>, labels: seq<int>, i: nat, zoneOf: map<ReqId, int>)
    requires FollowsLabels(rids, labels, i, zoneOf) && i < |rids| && Distinct(rids)
    ensures FollowsLabels(rids, labels, i + 1, Assigned(zoneOf, {rids[i]}, labels[i])) && rids[i] !in zoneOf
  {
    assert rids[i] !in Elements(rids[..i]);
    assert Elements(rids[..i + 1]) == Elements(rids[..i]) + {rids[i]};
    forall k | 0 <= k < i
      ensures rids[k] != rids[i]
    {
    }
  }

  /** One zone per label. */
  method BuildZones(p: Problem, rids: seq<ReqId>, labels: seq<int>) returns (zones: map<int, Zone>, ghost zoneOf: map<ReqId, int>)
    requires |rids| == |labels| && Distinct(rids) && forall r :: r in rids ==> r in p.options
    ensures Holds(p, zoneOf, zones) && FollowsLabels(rids, labels, |rids|, zoneOf) && Occupied(zones)
    ensures forall i :: 0 <= i < |rids| ==> labels[i] in zones && rids[i] in zones[labels[i]].reqs
  {
    zones, zoneOf := map[], map[];
    BuildStart(p, rids, labels);
    for i := 0 to |rids|
      invariant Building(p, rids, labels, i, zoneOf, zones)
    {
      var r, zid := rids[i], labels[i];
      BuildStep(p, rids, labels, i, zoneOf, zones);
      zones := zones[zid := Extend(p, ZoneAt(zones, zid), {r})];
      zoneOf := Assigned(zoneOf, {r}, zid);
    }
    BuildEnd(p, rids, labels, zoneOf, zones);
    InLabelledZones(p, rids, labels, zoneOf, zones);
  }

  /** The first `i` requirements are in their zones. */
  ghost predicate Building(p: Problem, rids: seq<ReqId>, labels: seq<int>, i: nat, zoneOf: map<ReqId, int>, zones: map<int, Zone>) {
    forall k {:trigger Recall(Zoning, k)} :: Recall(Zoning, k) ==>
      Holds(p, zoneOf, zones) && FollowsLabels(rids, labels, i, zoneOf) && Occupied(zones)
  }

  lemma BuildStart(p: Problem, rids: seq<ReqId>, labels: seq<int>)
    requires |rids| == |labels|
    ensures Building(p, rids, labels, 0, map[], map[])
  {
  }

  lemma BuildEnd(p: Problem, rids: seq<ReqId>, labels: seq<int>, zoneOf: map<ReqId, int>, zones: map<int, Zone>)
    requires Building(p, rids, labels, |rids|, zoneOf, zones)
    ensures Holds(p, zoneOf, zones) && FollowsLabels(rids, labels, |rids|, zoneOf) && Occupied(zones)
  {
    assert Recall(Zoning, 0);
  }

  lemma BuildStep(p: Problem, rids: seq<ReqId>, labels: seq<int>, i: nat, zoneOf: map<ReqId, int>, zones: map<int, Zone>)
    requires Building(p, rids, labels, i, zoneOf, zones) && i < |rids| == |labels| && Distinct(rids) && rids[i] in p.options
    ensures {rids[i]} <= p.options.Keys
    ensures Building(p, rids, labels, i + 1, Assigned(zoneOf, {rids[i]}, labels[i]),
                     zones[labels[i] := Extend(p, ZoneAt(zones, labels[i]), {rids[i]})])
  {
    assert Recall(Zoning, 0);
    FollowsStep(rids, labels, i, zoneOf);
    AddToZone(p, zoneOf, zones, labels[i], rids[i]);
  }

  lemma AddToZone(p: Problem, zoneOf: map<ReqId, int>, zones: map<int, Zone>, zid: int, r: ReqId)
    requires Holds(p, zoneOf, zones) && Occupied(zones) && r !in zoneOf && r in p.options
    ensures Holds(p, Assigned(zoneOf, {r}, zid), zones[zid := Extend(p, ZoneAt(zones, zid), {r})])
    ensures Occupied(zones[zid := Extend(p, ZoneAt(zones, zid), {r})])
  {
    ExtendHolds(p, zoneOf, zones, zid, {r});
    assert r in Extend(p, ZoneAt(zones, zid), {r}).reqs.Keys;
  }

  lemma InLabelledZones(p: Problem, rids: seq<ReqId>, labels: seq<int>, zoneOf: map<ReqId, int>, zones: map<int, Zone>)
    requires Holds(p, zoneOf, zones) && FollowsLabels(rids, labels, |rids|, zoneOf)
    ensures forall i :: 0 <= i < |rids| ==> labels[i] in zones && rids[i] in zones[labels[i]].reqs
  {
    forall i | 0 <= i < |rids|
      ensures labels[i] in zones && rids[i] in zones[labels[i]].reqs
    {
      HeldAt(p, zoneOf, zones, zoneOf[rids[i]]);
    }
  }

  // ----- Splitting along road components ------------------------------------------------------

  ghost predicate ComponentsKnown(p: Problem, reqComp: map<ReqId, int>) {
    forall r :: r in p.options ==> r in reqComp && reqComp[r] == p.Comp(r)
  }

  method BestOptions(p: Problem) returns (best: map<ReqId, EdgeRef>)
    requires p.Listed() && forall r :: r in p.options ==> p.options[r] != []
    ensures best.Keys == p.options.Keys && forall r :: r in best ==> best[r] in p.options[r]
  {
    best := map[];
    for i := 0 to |p.order|
      invariant best.Keys == Seen(p, i)
      invariant forall r :: r in best ==> r in p.options && best[r] in p.options[r]
    {
      SeenStep(p, i);
      var e := BestOption(p.net, p.options[p.order[i]]);
      best := best[p.order[i] := e];
    }
    SeenAll(p);
  }

  method RequirementComponents(p: Problem) returns (reqComp: map<ReqId, int>)
    requires p.Valid()
    ensures ComponentsKnown(p, reqComp)
  {
    var best := BestOptions(p);
    var ends := (set r | r in best :: best[r].u) + (set r | r in best :: best[r].v);
    var labels := LabelNodes(p.net, ends);
    reqComp := map r | r in best :: if best[r].u in labels then labels[best[r].u] else -1;
    forall r | r in p.options
      ensures r in reqComp && reqComp[r] == p.Comp(r)
    {
      assert r in best && best[r].u in ends;
      StartComp(p, r, best[r].u);
    }
  }

  ghost function Group(p: Problem, rids: set<ReqId>, c: int): set<ReqId> {
    set r | r in rids && p.Comp(r) == c
  }

  /** The given requirements grouped by component, without empty groups. */
  ghost predicate Grouped(p: Problem, rids: set<ReqId>, groups: map<int, set<ReqId>>) {
    && (forall r :: r in rids ==> p.Comp(r) in groups)
    && (forall c :: c in groups ==> groups[c] == Group(p, rids, c) && groups[c] != {})
  }

  method ComponentGroups(p: Problem, rids: set<ReqId>, reqComp: map<ReqId, int>) returns (groups: map<int, set<ReqId>>)
    requires ComponentsKnown(p, reqComp) && rids <= p.options.Keys
    ensures Grouped(p, rids, groups)
  {
    groups := map[];
    var left := rids;
    while left != {}
      invariant left <= rids && Grouped(p, rids - left, groups)
      decreases left
    {
      var r := Pick(left);
      var c := reqComp[r];
      GroupAdd(p, rids - left, groups, r);
      assert rids - (left - {r}) == rids - left + {r};
      left := left - {r};
      groups := groups[c := SetAt(groups, c) + {r}];
    }
    assert rids - left == rids;
  }

  lemma GroupAdd(p: Problem, rids: set<ReqId>, groups: map<int, set<ReqId>>, r: ReqId)
    requires Grouped(p, rids, groups)
    ensures Grouped(p, rids + {r}, groups[p.Comp(r) := SetAt(groups, p.Comp(r)) + {r}])
  {
    var c := p.Comp(r);
    assert SetAt(groups, c) == Group(p, rids, c);
    assert Group(p, rids + {r}, c) == Group(p, rids, c) + {r};
    forall d | d in groups && d != c
      ensures groups[d] == Group(p, rids + {r}, d)
    {
      assert Group(p, rids + {r}, d) == Group(p, rids, d);
    }
  }

  /** A largest group. */
  method LargestGroup(groups: map<int, set<ReqId>>) returns (c: int)
    requires groups.Keys != {}
    ensures c in groups && forall d :: d in groups ==> |groups[d]| <= |groups[c]|
  {
    c := Pick(groups.Keys);
    var left := groups.Keys - {c};
    while left != {}
      invariant left <= groups.Keys && c in groups
      invariant forall d :: d in groups && d !in left ==> |groups[d]| <= |groups[c]|
      decreases left
    {
      var d := Pick(left);
      left := left - {d};
      if |groups[d]| > |groups[c]| {
        c := d;
      }
    }
  }

  /** Only `zid` changed, apart from new zones, and these all lie in one component each. */
  ghost predicate SplitAt(p: Problem, zid: int, before: map<int, Zone>, after: map<int, Zone>) {
    && before.Keys <= after.Keys
    && (forall k :: k in before && k != zid ==> after[k] == before[k])
    && (forall k :: k in after && (k == zid || k !in before) ==> OneComponent(p, after[k]) && after[k].reqs.Keys != {})
  }

  /** The requirements of the groups `left`. */
  ghost function Pending(p: Problem, rids: set<ReqId>, left: set<int>): set<ReqId> {
    set r | r in rids && p.Comp(r) in left
  }

  /** Keeps the largest group of a zone and moves every other group to a zone of its own. */
  method SplitZone(p: Problem, zones0: map<int, Zone>, zid: int, groups: map<int, set<ReqId>>, next0: int,
                   ghost zoneOf0: map<ReqId, int>)
    returns (zones: map<int, Zone>, next: int, ghost zoneOf: map<ReqId, int>)
    requires Holds(p, zoneOf0, zones0) && zid in zones0 && zoneOf0.Keys <= p.options.Keys
    requires Grouped(p, zones0[zid].reqs.Keys, groups) && groups.Keys != {}
    requires forall k :: k in zones0 ==> k < next0
    ensures Holds(p, zoneOf, zones) && zoneOf.Keys == zoneOf0.Keys
    ensures SplitAt(p, zid, zones0, zones) && forall k :: k in zones ==> k < next
    ensures forall c :: c in groups ==> |groups[c]| <= |zones[zid].reqs.Keys|
    ensures forall c :: c in groups ==> HeldWhole(zones, groups[c])
  {
    var kept := LargestGroup(groups);
    var left := groups.Keys - {kept};
    KeepGroup(p, zoneOf0, zones0, zid, groups, kept, next0);
    zoneOf := zoneOf0 - Pending(p, zones0[zid].reqs.Keys, left);
    zones, next := zones0[zid := Extend(p, Emptied(zones0[zid]), groups[kept])], next0;
    KeptSettled(p, groups, kept, zones0, zid, next0);
    while left != {}
      invariant left <= groups.Keys && Splitting(p, zid, zones0, zoneOf0, left, zones, zoneOf, next, groups[kept])
      invariant Settled(groups, left, zones, next)
      decreases left
    {
      var c := Pick(left);
      NewGroup(p, zid, zones0, zoneOf0, groups, left, zones, zoneOf, next, c, groups[kept]);
      NewSettled(p, groups, left, zones, next, c);
      left := left - {c};
      zones := zones[next := Extend(p, NewZone(next), groups[c])];
      zoneOf := Assigned(zoneOf, groups[c], next);
      next := next + 1;
    }
    AllSplit(p, zid, zones0, zoneOf0, zones, zoneOf, next, groups[kept]);
    AllSettled(groups, zones, next);
  }

  /** One of the zones has exactly these requirements. */
  ghost predicate HeldWhole(zones: map<int, Zone>, rids: set<ReqId>) {
    exists k :: k in zones && zones[k].reqs.Keys == rids
  }

  /** Every group outside `left` is whole in one zone. */
  ghost predicate Settled(groups: map<int, set<ReqId>>, left: set<int>, zones: map<int, Zone>, next: int) {
    forall k {:trigger Recall(Zoning, k)} :: Recall(Zoning, k) ==>
      (forall z :: z in zones ==> z < next) && forall c :: c in groups && c !in left ==> HeldWhole(zones, groups[c])
  }

  lemma KeptSettled(p: Problem, groups: map<int, set<ReqId>>, kept: int, zones: map<int, Zone>, zid: int, next: int)
    requires kept in groups && zid in zones && groups[kept] <= p.options.Keys && forall z :: z in zones ==> z < next
    ensures Settled(groups, groups.Keys - {kept}, zones[zid := Extend(p, Emptied(zones[zid]), groups[kept])], next)
  {
    var after := zones[zid := Extend(p, Emptied(zones[zid]), groups[kept])];
    assert after[zid].reqs.Keys == groups[kept];
  }

  lemma NewSettled(p: Problem, groups: map<int, set<ReqId>>, left: set<int>, zones: map<int, Zone>, next: int, c: int)
    requires Settled(groups, left, zones, next) && c in groups && groups[c] <= p.options.Keys
    ensures Settled(groups, left - {c}, zones[next := Extend(p, NewZone(next), groups[c])], next + 1)
  {
    assert Recall(Zoning, 0);
    var after := zones[next := Extend(p, NewZone(next), groups[c])];
    assert after[next].reqs.Keys == groups[c];
    forall d | d in groups && d !in left
      ensures HeldWhole(after, groups[d])
    {
      var k :| k in zones && zones[k].reqs.Keys == groups[d];
      assert after[k].reqs.Keys == groups[d];
    }
  }

  lemma AllSettled(groups: map<int, set<ReqId>>, zones: map<int, Zone>, next: int)
    requires Settled(groups, {}, zones, next)
    ensures forall c :: c in groups ==> HeldWhole(zones, groups[c])
  {
    assert Recall(Zoning, 0);
  }

  /** The groups `left` still have to be given a zone. */
  ghost predicate SplittingFacts(p: Problem, zid: int, zones0: map<int, Zone>, zoneOf0: map<ReqId, int>, left: set<int>,
                                 zones: map<int, Zone>, zoneOf: map<ReqId, int>, next: int, kept: set<ReqId>)
  {
    && zid in zones0 && Holds(p, zoneOf, zones)
    && zoneOf.Keys == zoneOf0.Keys - Pending(p, zones0[zid].reqs.Keys, left)
    && SplitAt(p, zid, zones0, zones) && zid in zones && zones[zid].reqs.Keys == kept && (forall k :: k in zones ==> k < next)
  }

  ghost predicate Splitting(p: Problem, zid: int, zones0: map<int, Zone>, zoneOf0: map<ReqId, int>, left: set<int>,
                            zones: map<int, Zone>, zoneOf: map<ReqId, int>, next: int, kept: set<ReqId>)
  {
    forall k {:trigger Recall(Zoning, k)} :: Recall(Zoning, k) ==> SplittingFacts(p, zid, zones0, zoneOf0, left, zones, zoneOf, next, kept)
  }

  lemma AllSplit(p: Problem, zid: int, zones0: map<int, Zone>, zoneOf0: map<ReqId, int>,
                 zones: map<int, Zone>, zoneOf: map<ReqId, int>, next: int, kept: set<ReqId>)
    requires Splitting(p, zid, zones0, zoneOf0, {}, zones, zoneOf, next, kept)
    ensures Holds(p, zoneOf, zones) && zoneOf.Keys == zoneOf0.Keys
    ensures SplitAt(p, zid, zones0, zones) && forall k :: k in zones ==> k < next
    ensures zid in zones && zones[zid].reqs.Keys == kept
  {
    assert Recall(Zoning, 0);
    assert Pending(p, zones0[zid].reqs.Keys, {}) == {};
  }

  lemma GroupTaken(p: Problem, all: set<ReqId>, rids: set<ReqId>, left: set<int>, c: int)
    requires c in left && rids <= all
    ensures Group(p, rids, c) <= Pending(p, rids, left)
    ensures all - Pending(p, rids, left - {c}) == (all - Pending(p, rids, left)) + Group(p, rids, c)
  {
  }

  lemma KeepGroup(p: Problem, zoneOf: map<ReqId, int>, zones: map<int, Zone>, zid: int, groups: map<int, set<ReqId>>, c: int,
                  next: int)
    requires Holds(p, zoneOf, zones) && zid in zones && zoneOf.Keys <= p.options.Keys
    requires Grouped(p, zones[zid].reqs.Keys, groups) && c in groups
    requires forall k :: k in zones ==> k < next
    ensures groups[c] <= p.options.Keys
    ensures Splitting(p, zid, zones, zoneOf, groups.Keys - {c}, zones[zid := Extend(p, Emptied(zones[zid]), groups[c])],
                      zoneOf - Pending(p, zones[zid].reqs.Keys, groups.Keys - {c}), next, groups[c])
  {
    GroupFits(p, zoneOf, zones, zid, groups, c);
    ShrinkHolds(p, zoneOf, zones, zid, groups[c]);
    OtherGroups(p, zones[zid].reqs.Keys, groups, c);
    KeptSplits(p, zones, zid, groups[c], c);
  }

  lemma OtherGroups(p: Problem, rids: set<ReqId>, groups: map<int, set<ReqId>>, c: int)
    requires Grouped(p, rids, groups) && c in groups
    ensures rids - groups[c] == Pending(p, rids, groups.Keys - {c})
  {
  }

  lemma KeptSplits(p: Problem, zones: map<int, Zone>, zid: int, rids: set<ReqId>, c: int)
    requires zid in zones && rids <= p.options.Keys && rids != {} && forall r :: r in rids ==> p.Comp(r) == c
    ensures SplitAt(p, zid, zones, zones[zid := Extend(p, Emptied(zones[zid]), rids)])
  {
    assert Within(p, Extend(p, Emptied(zones[zid]), rids), c);
  }

  lemma NewGroup(p: Problem, zid: int, zones0: map<int, Zone>, zoneOf0: map<ReqId, int>, groups: map<int, set<ReqId>>,
                 left: set<int>, zones: map<int, Zone>, zoneOf: map<ReqId, int>, next: int, c: int, kept: set<ReqId>)
    requires Splitting(p, zid, zones0, zoneOf0, left, zones, zoneOf, next, kept) && c in left && left <= groups.Keys
    requires Holds(p, zoneOf0, zones0) && zid in zones0 && zoneOf0.Keys <= p.options.Keys
    requires Grouped(p, zones0[zid].reqs.Keys, groups)
    ensures groups[c] <= p.options.Keys
    ensures Splitting(p, zid, zones0, zoneOf0, left - {c}, zones[next := Extend(p, NewZone(next), groups[c])],
                      Assigned(zoneOf, groups[c], next), next + 1, kept)
  {
    NewGroupFits(p, zid, zones0, zoneOf0, groups, left, zones, zoneOf, next, c, kept);
    NewGroupHolds(p, zid, zones0, zoneOf0, left, zones, zoneOf, next, groups[c], c, kept);
  }

  lemma NewGroupHolds(p: Problem, zid: int, zones0: map<int, Zone>, zoneOf0: map<ReqId, int>, left: set<int>,
                      zones: map<int, Zone>, zoneOf: map<ReqId, int>, next: int, rids: set<ReqId>, c: int, kept: set<ReqId>)
    requires Splitting(p, zid, zones0, zoneOf0, left, zones, zoneOf, next, kept) && zid in zones0
    requires rids <= p.options.Keys && rids !! zoneOf.Keys && rids != {} && forall r :: r in rids ==> p.Comp(r) == c
    requires zoneOf0.Keys - Pending(p, zones0[zid].reqs.Keys, left - {c}) == zoneOf.Keys + rids
    ensures Splitting(p, zid, zones0, zoneOf0, left - {c}, zones[next := Extend(p, NewZone(next), rids)],
                      Assigned(zoneOf, rids, next), next + 1, kept)
  {
    assert SplittingFacts(p, zid, zones0, zoneOf0, left, zones, zoneOf, next, kept) by {
      assert Recall(Zoning, 0);
    }
    assert next !in zones && zid != next;
    ExtendHolds(p, zoneOf, zones, next, rids);
    NewZoneSplits(p, zid, zones0, zones, next, rids, c);
  }

  lemma NewGroupFits(p: Problem, zid: int, zones0: map<int, Zone>, zoneOf0: map<ReqId, int>, groups: map<int, set<ReqId>>,
                     left: set<int>, zones: map<int, Zone>, zoneOf: map<ReqId, int>, next: int, c: int, kept: set<ReqId>)
    requires Splitting(p, zid, zones0, zoneOf0, left, zones, zoneOf, next, kept) && c in left && left <= groups.Keys
    requires Holds(p, zoneOf0, zones0) && zid in zones0 && zoneOf0.Keys <= p.options.Keys
    requires Grouped(p, zones0[zid].reqs.Keys, groups)
    ensures groups[c] <= p.options.Keys && groups[c] !! zoneOf.Keys
    ensures zoneOf0.Keys - Pending(p, zones0[zid].reqs.Keys, left - {c}) == zoneOf.Keys + groups[c]
    ensures forall r :: r in groups[c] ==> p.Comp(r) == c
  {
    assert Recall(Zoning, 0);
    GroupFits(p, zoneOf0, zones0, zid, groups, c);
    GroupTaken(p, zoneOf0.Keys, zones0[zid].reqs.Keys, left, c);
  }

  lemma NewZoneSplits(p: Problem, zid: int, zones0: map<int, Zone>, zones: map<int, Zone>, next: int, rids: set<ReqId>, c: int)
    requires SplitAt(p, zid, zones0, zones) && next !in zones && rids <= p.options.Keys && rids != {}
    requires forall r :: r in rids ==> p.Comp(r) == c
    ensures SplitAt(p, zid, zones0, zones[next := Extend(p, NewZone(next), rids)])
  {
    assert Within(p, Extend(p, NewZone(next), rids), c);
  }

  lemma GroupFits(p: Problem, zoneOf: map<ReqId, int>, zones: map<int, Zone>, zid: int, groups: map<int, set<ReqId>>, c: int)
    requires Holds(p, zoneOf, zones) && zid in zones && zoneOf.Keys <= p.options.Keys
    requires Grouped(p, zones[zid].reqs.Keys, groups) && c in groups
    ensures groups[c] <= zones[zid].reqs.Keys <= zoneOf.Keys && groups[c] <= p.options.Keys
  {
    assert HoldsAt(p, zoneOf, zid, zones[zid]);
  }

  method SplitZones(p: Problem, reqComp: map<ReqId, int>, zones0: map<int, Zone>, next0: int, ghost zoneOf0: map<ReqId, int>)
    returns (zones: map<int, Zone>, ghost zoneOf: map<ReqId, int>)
    requires Holds(p, zoneOf0, zones0) && zoneOf0.Keys <= p.options.Keys && ComponentsKnown(p, reqComp)
    requires forall k :: k in zones0 ==> k < next0
    requires Occupied(zones0)
    ensures Holds(p, zoneOf, zones) && Occupied(zones) && Parted(p, zoneOf0, zoneOf)
    ensures forall k :: k in zones ==> OneComponent(p, zones[k])
  {
    zones, zoneOf := zones0, zoneOf0;
    var next, left := next0, zones0.Keys;
    PartingStart(p, zoneOf0, zones0, next0);
    while left != {}
      invariant left <= zones.Keys && Holds(p, zoneOf, zones) && zoneOf.Keys == zoneOf0.Keys
      invariant Parting(p, zoneOf0, zoneOf, left) && PartingZones(p, zones, left, next)
      decreases left
    {
      var zid := Pick(left);
      zones, next, zoneOf := SplitAlong(p, reqComp, zones, zid, next, zoneOf, zoneOf0, left);
      left := left - {zid};
    }
    PartingDone(p, zoneOf0, zoneOf);
    PartingZonesDone(p, zones, next);
  }

  /** The zones outside `left` lie in one component each. */
  ghost predicate PartingZones(p: Problem, zones: map<int, Zone>, left: set<int>, next: int) {
    forall i {:trigger Recall(Zoning, i)} :: Recall(Zoning, i) ==>
      && Occupied(zones) && (forall k :: k in zones ==> k < next)
      && (forall k :: k in zones && k !in left ==> OneComponent(p, zones[k]))
  }

  lemma PartingZonesDone(p: Problem, zones: map<int, Zone>, next: int)
    requires PartingZones(p, zones, {}, next)
    ensures Occupied(zones) && forall k :: k in zones ==> OneComponent(p, zones[k])
  {
    assert Recall(Zoning, 0);
  }

  /** Splits one zone, unless it lies in one component. */
  method SplitAlong(p: Problem, reqComp: map<ReqId, int>, zones0: map<int, Zone>, zid: int, next0: int,
                    ghost zoneOf0: map<ReqId, int>, ghost lab: map<ReqId, int>, ghost left: set<int>)
    returns (zones: map<int, Zone>, next: int, ghost zoneOf: map<ReqId, int>)
    requires zid in left && left <= zones0.Keys && Holds(p, zoneOf0, zones0) && zoneOf0.Keys == lab.Keys <= p.options.Keys
    requires Parting(p, lab, zoneOf0, left) && PartingZones(p, zones0, left, next0) && ComponentsKnown(p, reqComp)
    ensures zones0.Keys <= zones.Keys && Holds(p, zoneOf, zones) && zoneOf.Keys == lab.Keys
    ensures Parting(p, lab, zoneOf, left - {zid}) && PartingZones(p, zones, left - {zid}, next)
  {
    HeldAt(p, zoneOf0, zones0, zid);
    var groups := ComponentGroups(p, zones0[zid].reqs.Keys, reqComp);
    if |groups.Keys| <= 1 {
      zones, next, zoneOf := zones0, next0, zoneOf0;
      FewGroups(p, zones0[zid], groups);
      Unparted(p, lab, zoneOf0, zones0, left, zid, next0);
    } else {
      BelowNext(p, zones0, left, next0);
      zones, next, zoneOf := SplitZone(p, zones0, zid, groups, next0, zoneOf0);
      SplitDivides(p, zoneOf0, zones0, zoneOf, zones, zid, groups);
      PartingStep(p, lab, zoneOf0, zoneOf, zones0.Keys, left, zid);
      SplitParts(p, zones0, zones, left, zid, next0, next);
    }
  }

  lemma BelowNext(p: Problem, zones: map<int, Zone>, left: set<int>, next: int)
    requires PartingZones(p, zones, left, next)
    ensures forall k :: k in zones ==> k < next
  {
    assert Recall(Zoning, 0);
  }

  lemma SplitParts(p: Problem, before: map<int, Zone>, after: map<int, Zone>, left: set<int>, zid: int, next0: int, next: int)
    requires PartingZones(p, before, left, next0) && SplitAt(p, zid, before, after) && forall k :: k in after ==> k < next
    ensures PartingZones(p, after, left - {zid}, next)
  {
    assert Recall(Zoning, 0);
  }

  /** All requirements of chunk `k` lie in one component. */
  ghost predicate Unbroken(p: Problem, lab: map<ReqId, int>, k: int) {
    forall x, y :: x in lab && y in lab && lab[x] == k && lab[y] == k ==> p.Comp(x) == p.Comp(y)
  }

  /**
   Two requirements share a zone exactly if they share chunk and component; a chunk that lies in one
   component keeps its number.
   */
  ghost predicate Parted(p: Problem, lab: map<ReqId, int>, zoneOf: map<ReqId, int>) {
    && zoneOf.Keys == lab.Keys
    && (forall x, y :: x in lab && y in lab ==> (zoneOf[x] == zoneOf[y] <==> lab[x] == lab[y] && p.Comp(x) == p.Comp(y)))
    && (forall x :: x in lab && Unbroken(p, lab, lab[x]) ==> zoneOf[x] == lab[x])
  }

  /** The same for the chunks outside `left`; the others are untouched. */
  ghost predicate PartingFacts(p: Problem, lab: map<ReqId, int>, zoneOf: map<ReqId, int>, left: set<int>) {
    && zoneOf.Keys == lab.Keys
    && (forall x :: x in lab && (lab[x] in left || zoneOf[x] in left) ==> zoneOf[x] == lab[x])
    && (forall x, y :: x in lab && y in lab && lab[x] !in left ==>
          (zoneOf[x] == zoneOf[y] <==> lab[x] == lab[y] && p.Comp(x) == p.Comp(y)))
    && (forall x :: x in lab && Unbroken(p, lab, lab[x]) ==> zoneOf[x] == lab[x])
  }

  ghost predicate Parting(p: Problem, lab: map<ReqId, int>, zoneOf: map<ReqId, int>, left: set<int>) {
    forall k {:trigger Recall(Zoning, k)} :: Recall(Zoning, k) ==> PartingFacts(p, lab, zoneOf, left)
  }

  lemma PartingStart(p: Problem, lab: map<ReqId, int>, zones: map<int, Zone>, next: int)
    requires Holds(p, lab, zones) && Occupied(zones) && forall k :: k in zones ==> k < next
    ensures Parting(p, lab, lab, zones.Keys) && PartingZones(p, zones, zones.Keys, next)
  {
  }

  lemma PartingDone(p: Problem, lab: map<ReqId, int>, zoneOf: map<ReqId, int>)
    requires Parting(p, lab, zoneOf, {})
    ensures Parted(p, lab, zoneOf)
  {
    assert Recall(Zoning, 0);
  }

  lemma Unparted(p: Problem, lab: map<ReqId, int>, zoneOf: map<ReqId, int>, zones: map<int, Zone>, left: set<int>, zid: int,
                 next: int)
    requires Parting(p, lab, zoneOf, left) && Holds(p, zoneOf, zones) && zid in left && zid in zones && OneComponent(p, zones[zid])
    requires PartingZones(p, zones, left, next)
    ensures Parting(p, lab, zoneOf, left - {zid}) && PartingZones(p, zones, left - {zid}, next)
  {
    HeldAt(p, zoneOf, zones, zid);
    var c :| Within(p, zones[zid], c);
    PartedAlready(p, lab, zoneOf, left, zid, c);
    WasOneComponent(p, zones, left, zid, next);
  }

  lemma WasOneComponent(p: Problem, zones: map<int, Zone>, left: set<int>, zid: int, next: int)
    requires PartingZones(p, zones, left, next) && zid in zones && OneComponent(p, zones[zid])
    ensures PartingZones(p, zones, left - {zid}, next)
  {
    assert Recall(Zoning, 0);
  }

  lemma PartedAlready(p: Problem, lab: map<ReqId, int>, zoneOf: map<ReqId, int>, left: set<int>, zid: int, c: int)
    requires Parting(p, lab, zoneOf, left) && zid in left && forall x :: x in zoneOf && zoneOf[x] == zid ==> p.Comp(x) == c
    ensures Parting(p, lab, zoneOf, left - {zid})
  {
    assert Recall(Zoning, 0);
    assert forall x :: x in lab && lab[x] == zid ==> zoneOf[x] == zid;
  }

  /** The requirements of zone `zid` are told apart by component, in zones not used before or in `zid`; nothing else moves. */
  ghost predicate Divides(p: Problem, ids: set<int>, before: map<ReqId, int>, after: map<ReqId, int>, zid: int) {
    && after.Keys == before.Keys
    && (forall x :: x in before && before[x] != zid ==> after[x] == before[x])
    && (forall x :: x in before && before[x] == zid ==> after[x] == zid || after[x] !in ids)
    && (forall x, y :: x in before && y in before && before[x] == zid ==>
          (after[x] == after[y] <==> before[y] == zid && p.Comp(x) == p.Comp(y)))
    && (exists x :: x in before && before[x] == zid && after[x] == zid)
  }

  lemma SplitDivides(p: Problem, zoneOf0: map<ReqId, int>, zones0: map<int, Zone>, zoneOf: map<ReqId, int>,
                     zones: map<int, Zone>, zid: int, groups: map<int, set<ReqId>>)
    requires Holds(p, zoneOf0, zones0) && Holds(p, zoneOf, zones) && zoneOf.Keys == zoneOf0.Keys && zid in zones0
    requires SplitAt(p, zid, zones0, zones) && Grouped(p, zones0[zid].reqs.Keys, groups)
    requires forall c :: c in groups ==> HeldWhole(zones, groups[c])
    ensures Divides(p, zones0.Keys, zoneOf0, zoneOf, zid)
  {
    HeldAt(p, zoneOf0, zones0, zid);
    forall x | x in zoneOf0 && zoneOf0[x] != zid
      ensures zoneOf[x] == zoneOf0[x]
    {
      StaysPut(p, zoneOf0, zones0, zoneOf, zones, zid, x);
    }
    forall x | x in zoneOf0 && zoneOf0[x] == zid
      ensures zoneOf[x] == zid || zoneOf[x] !in zones0
    {
      MovesAway(p, zoneOf0, zones0, zoneOf, zones, zid, x);
    }
    forall x, y | x in zoneOf0 && y in zoneOf0 && zoneOf0[x] == zid
      ensures zoneOf[x] == zoneOf[y] <==> zoneOf0[y] == zid && p.Comp(x) == p.Comp(y)
    {
      var k :| k in zones && zones[k].reqs.Keys == groups[p.Comp(x)];
      HeldAt(p, zoneOf, zones, k);
      assert x in groups[p.Comp(x)] && (y in groups[p.Comp(x)] <==> zoneOf0[y] == zid && p.Comp(x) == p.Comp(y));
    }
    HeldAt(p, zoneOf, zones, zid);
    var x :| x in zones[zid].reqs.Keys;
    assert zoneOf[x] == zid && zoneOf0[x] == zid;
  }

  lemma StaysPut(p: Problem, zoneOf0: map<ReqId, int>, zones0: map<int, Zone>, zoneOf: map<ReqId, int>,
                 zones: map<int, Zone>, zid: int, x: ReqId)
    requires Holds(p, zoneOf0, zones0) && Holds(p, zoneOf, zones) && SplitAt(p, zid, zones0, zones)
    requires x in zoneOf0 && zoneOf0[x] != zid
    ensures x in zoneOf && zoneOf[x] == zoneOf0[x]
  {
    HeldAt(p, zoneOf0, zones0, zoneOf0[x]);
    HeldAt(p, zoneOf, zones, zoneOf0[x]);
  }

  lemma MovesAway(p: Problem, zoneOf0: map<ReqId, int>, zones0: map<int, Zone>, zoneOf: map<ReqId, int>,
                  zones: map<int, Zone>, zid: int, x: ReqId)
    requires Holds(p, zoneOf0, zones0) && Holds(p, zoneOf, zones) && SplitAt(p, zid, zones0, zones)
    requires x in zoneOf0 && x in zoneOf && zoneOf0[x] == zid
    ensures zoneOf[x] == zid || zoneOf[x] !in zones0
  {
    if zoneOf[x] != zid && zoneOf[x] in zones0 {
      HeldAt(p, zoneOf0, zones0, zoneOf[x]);
      HeldAt(p, zoneOf, zones, zoneOf[x]);
      assert false;
    }
  }

  lemma PartingStep(p: Problem, lab: map<ReqId, int>, before: map<ReqId, int>, after: map<ReqId, int>, ids: set<int>,
                    left: set<int>, zid: int)
    requires Parting(p, lab, before, left) && Divides(p, ids, before, after, zid) && zid in left && left <= ids
    ensures Parting(p, lab, after, left - {zid})
  {
    assert Recall(Zoning, 0);
    var kept :| kept in before && before[kept] == zid && after[kept] == zid;
    forall x | x in lab && lab[x] == zid && Unbroken(p, lab, zid)
      ensures after[x] == zid
    {
      assert p.Comp(x) == p.Comp(kept);
    }
    forall x, y | x in lab && y in lab && lab[x] !in left - {zid}
      ensures after[x] == after[y] <==> lab[x] == lab[y] && p.Comp(x) == p.Comp(y)
    {
      assert after[y] == after[x] <==> after[x] == after[y];
    }
  }

  lemma FewGroups(p: Problem, z: Zone, groups: map<int, set<ReqId>>)
    requires Grouped(p, z.reqs.Keys, groups) && |groups.Keys| <= 1
    ensures OneComponent(p, z)
  {
    if z.reqs.Keys == {} {
      assert Within(p, z, 0);
    } else {
      var r :| r in z.reqs.Keys;
      var c := p.Comp(r);
      assert groups.Keys == {c} by {
        assert c in groups.Keys;
        assert |groups.Keys - {c}| == 0;
      }
      assert Within(p, z, c);
    }
  }

  // ----- Merging small zones ------------------------------------------------------------------

  /** The listed zones exist, are not empty and lie in component `c`. */
  ghost predicate SmallIn(p: Problem, zones: map<int, Zone>, ids: set<int>, c: int) {
    forall k :: k in ids ==> k in zones && zones[k].reqs.Keys != {} && Within(p, zones[k], c)
  }

  ghost predicate AllSmallFacts(p: Problem, zones: map<int, Zone>, small: map<int, set<int>>) {
    forall c :: c in small ==> SmallIn(p, zones, small[c], c)
  }

  ghost predicate AllSmall(p: Problem, zones: map<int, Zone>, small: map<int, set<int>>) {
    forall k {:trigger Recall(Zoning, k)} :: Recall(Zoning, k) ==> AllSmallFacts(p, zones, small)
  }

  /** A zone below the merge threshold, in component `c`. */
  ghost predicate SmallHere(p: Problem, z: Zone, threshold: int, c: int) {
    z.reqs.Keys != {} && |z.reqs.Keys| < threshold && Within(p, z, c)
  }

  /** No component has two zones below the threshold. */
  ghost predicate Tidy(p: Problem, zones: map<int, Zone>, threshold: int) {
    forall c :: TidyAt(p, zones, threshold, c)
  }

  ghost predicate TidyList(p: Problem, zones: seq<Zone>, threshold: int) {
    forall i, j, c :: 0 <= i < j < |zones| ==>
      !(SmallHere(p, zones[i], threshold, c) && SmallHere(p, zones[j], threshold, c))
  }

  lemma TidyListed(p: Problem, zones: map<int, Zone>, ids: seq<int>, threshold: int)
    requires Tidy(p, zones, threshold) && Ascending(ids) && forall i :: 0 <= i < |ids| ==> ids[i] in zones
    ensures TidyList(p, InOrderOf(zones, ids), threshold)
  {
    forall i, j, c | 0 <= i < j < |ids|
      ensures !(SmallHere(p, zones[ids[i]], threshold, c) && SmallHere(p, zones[ids[j]], threshold, c))
    {
      assert TidyAt(p, zones, threshold, c);
    }
  }

  lemma TidyPlaced(p: Problem, zones: map<int, Zone>, placed: map<int, Zone>, threshold: int)
    requires Tidy(p, zones, threshold) && placed.Keys == zones.Keys
    requires forall k :: k in placed ==> SameButPlace(placed[k], zones[k])
    ensures Tidy(p, placed, threshold)
  {
    forall c
      ensures TidyAt(p, placed, threshold, c)
    {
      assert TidyAt(p, zones, threshold, c);
      forall k | k in placed
        ensures SmallHere(p, placed[k], threshold, c) ==> SmallHere(p, zones[k], threshold, c)
      {
      }
    }
  }

  /** Of the zones outside `left`, all small ones are listed under their component. */
  ghost predicate ListsSmallFacts(p: Problem, zones: map<int, Zone>, threshold: int, small: map<int, set<int>>, left: set<int>) {
    forall k, c :: k in zones && k !in left && SmallHere(p, zones[k], threshold, c) ==> c in small && k in small[c]
  }

  ghost predicate ListsSmall(p: Problem, zones: map<int, Zone>, threshold: int, small: map<int, set<int>>, left: set<int>) {
    forall k {:trigger Recall(Zoning, k)} :: Recall(Zoning, k) ==> ListsSmallFacts(p, zones, threshold, small, left)
  }

  /** Only zones below the threshold are listed. */
  ghost predicate OnlySmall(zones: map<int, Zone>, threshold: int, small: map<int, set<int>>) {
    forall i {:trigger Recall(Zoning, i)} :: Recall(Zoning, i) ==>
      forall c, k :: c in small && k in small[c] ==> k in zones && |zones[k].reqs.Keys| < threshold
  }

  lemma NotSmall(p: Problem, zones: map<int, Zone>, threshold: int, small: map<int, set<int>>, left: set<int>, k: int)
    requires ListsSmall(p, zones, threshold, small, left) && k in zones
    requires zones[k].reqs.Keys == {} || |zones[k].reqs.Keys| >= threshold
    ensures ListsSmall(p, zones, threshold, small, left - {k})
  {
    assert Recall(Zoning, 0);
  }

  lemma OnlyComponent(p: Problem, z: Zone, c: int, d: int)
    requires z.reqs.Keys != {} && Within(p, z, c) && Within(p, z, d)
    ensures c == d
  {
    var r :| r in z.reqs.Keys;
    assert p.Comp(r) == c;
  }

  lemma ListSmall(p: Problem, zones: map<int, Zone>, threshold: int, small: map<int, set<int>>, left: set<int>, k: int, c: int)
    requires ListsSmall(p, zones, threshold, small, left) && AllSmall(p, zones, small) && k in zones
    requires zones[k].reqs.Keys != {} && Within(p, zones[k], c) && |zones[k].reqs.Keys| < threshold
    requires OnlySmall(zones, threshold, small)
    ensures ListsSmall(p, zones, threshold, small[c := SetAt(small, c) + {k}], left - {k})
    ensures AllSmall(p, zones, small[c := SetAt(small, c) + {k}])
    ensures OnlySmall(zones, threshold, small[c := SetAt(small, c) + {k}])
  {
    ListMore(p, zones, threshold, small, left, k, c);
    assert AllSmall(p, zones, small[c := SetAt(small, c) + {k}]) by {
      assert Recall(Zoning, 0);
    }
    assert OnlySmall(zones, threshold, small[c := SetAt(small, c) + {k}]) by {
      assert Recall(Zoning, 0);
    }
  }

  lemma ListMore(p: Problem, zones: map<int, Zone>, threshold: int, small: map<int, set<int>>, left: set<int>, k: int, c: int)
    requires ListsSmall(p, zones, threshold, small, left) && k in zones && zones[k].reqs.Keys != {} && Within(p, zones[k], c)
    ensures ListsSmall(p, zones, threshold, small[c := SetAt(small, c) + {k}], left - {k})
  {
    assert Recall(Zoning, 0);
    forall d | SmallHere(p, zones[k], threshold, d)
      ensures d == c
    {
      OnlyComponent(p, zones[k], c, d);
    }
  }

  method SmallZones(p: Problem, reqComp: map<ReqId, int>, zones: map<int, Zone>, threshold: int, ghost zoneOf: map<ReqId, int>)
    returns (small: map<int, set<int>>)
    requires Holds(p, zoneOf, zones) && zoneOf.Keys <= p.options.Keys && ComponentsKnown(p, reqComp)
    requires forall k :: k in zones ==> OneComponent(p, zones[k])
    ensures AllSmall(p, zones, small) && ListsSmall(p, zones, threshold, small, {}) && OnlySmall(zones, threshold, small)
  {
    small := map[];
    var left := zones.Keys;
    while left != {}
      invariant left <= zones.Keys && AllSmall(p, zones, small) && ListsSmall(p, zones, threshold, small, left)
      invariant OnlySmall(zones, threshold, small)
      decreases left
    {
      var k := Pick(left);
      if |zones[k].reqs.Keys| < threshold {
        assert HoldsAt(p, zoneOf, k, zones[k]);
        var groups := ComponentGroups(p, zones[k].reqs.Keys, reqComp);
        if groups.Keys == {} {
          NotSmall(p, zones, threshold, small, left, k);
        } else {
          var c := LargestGroup(groups);
          DominantIsOnly(p, zones[k], groups, c);
          ListSmall(p, zones, threshold, small, left, k, c);
          small := small[c := SetAt(small, c) + {k}];
        }
      } else {
        NotSmall(p, zones, threshold, small, left, k);
      }
      left := left - {k};
    }
  }

  /** In a zone of one component, the dominant component is that one. */
  lemma DominantIsOnly(p: Problem, z: Zone, groups: map<int, set<ReqId>>, c: int)
    requires Grouped(p, z.reqs.Keys, groups) && OneComponent(p, z) && c in groups
    ensures Within(p, z, c) && z.reqs.Keys != {}
  {
    var r :| r in groups[c];
    assert r in Group(p, z.reqs.Keys, c);
  }

  /** The components outside `left` are tidy, the others still list their small zones. */
  ghost predicate MergingFacts(p: Problem, zones: map<int, Zone>, threshold: int, small: map<int, set<int>>, left: set<int>) {
    && (forall c :: c in left ==> c in small && SmallIn(p, zones, small[c], c))
    && (forall k, c :: k in zones && c in left && SmallHere(p, zones[k], threshold, c) ==> k in small[c])
    && (forall c :: c !in left ==> TidyAt(p, zones, threshold, c))
  }

  ghost predicate TidyAt(p: Problem, zones: map<int, Zone>, threshold: int, c: int) {
    forall a, b :: a in zones && b in zones && SmallHere(p, zones[a], threshold, c) && SmallHere(p, zones[b], threshold, c)
      ==> a == b
  }

  ghost predicate Merging(p: Problem, zones: map<int, Zone>, threshold: int, small: map<int, set<int>>, left: set<int>) {
    forall k {:trigger Recall(Zoning, k)} :: Recall(Zoning, k) ==> MergingFacts(p, zones, threshold, small, left)
  }

  lemma MergingStart(p: Problem, zones: map<int, Zone>, threshold: int, small: map<int, set<int>>)
    requires AllSmall(p, zones, small) && ListsSmall(p, zones, threshold, small, {})
    ensures Merging(p, zones, threshold, small, small.Keys)
  {
    assert Recall(Zoning, 0);
  }

  lemma MergingDone(p: Problem, zones: map<int, Zone>, threshold: int, small: map<int, set<int>>)
    requires Merging(p, zones, threshold, small, {})
    ensures Tidy(p, zones, threshold)
  {
    assert Recall(Zoning, 0);
    assert forall c :: TidyAt(p, zones, threshold, c);
  }

  lemma MergingAt(p: Problem, zones: map<int, Zone>, threshold: int, small: map<int, set<int>>, left: set<int>, c: int)
    requires Merging(p, zones, threshold, small, left) && c in left
    ensures c in small && SmallIn(p, zones, small[c], c)
  {
    assert Recall(Zoning, 0);
  }

  method MergeZones(p: Problem, small: map<int, set<int>>, threshold: int, zones0: map<int, Zone>, ghost zoneOf0: map<ReqId, int>)
    returns (zones: map<int, Zone>, ghost zoneOf: map<ReqId, int>)
    requires Holds(p, zoneOf0, zones0) && AllSmall(p, zones0, small) && ListsSmall(p, zones0, threshold, small, {})
    requires OnlySmall(zones0, threshold, small) && Occupied(zones0) && forall k :: k in zones0 ==> OneComponent(p, zones0[k])
    ensures Holds(p, zoneOf, zones) && Occupied(zones) && Mended(p, zoneOf0, zoneOf, threshold)
    ensures forall k :: k in zones ==> OneComponent(p, zones[k])
    ensures Tidy(p, zones, threshold)
  {
    zones, zoneOf := zones0, zoneOf0;
    var left := small.Keys;
    MergingStart(p, zones0, threshold, small);
    MendingStart(p, small, zoneOf0);
    while left != {}
      invariant left <= small.Keys && Holds(p, zoneOf, zones) && Occupied(zones)
      invariant forall k :: k in zones ==> OneComponent(p, zones[k])
      invariant Merging(p, zones, threshold, small, left) && Mending(p, small, left, zoneOf0, zoneOf)
      decreases left
    {
      var c := Pick(left);
      zones, zoneOf := MergeAlong(p, small, threshold, zones, c, zoneOf, zoneOf0, left);
      left := left - {c};
    }
    MergingDone(p, zones, threshold, small);
    MendingDone(p, zoneOf0, zones0, zoneOf, small, threshold);
  }

  /** Merges the small zones of one component, if there are two or more. */
  method MergeAlong(p: Problem, small: map<int, set<int>>, ghost threshold: int, zones1: map<int, Zone>, c: int,
                    ghost zoneOf1: map<ReqId, int>, ghost zoneOf0: map<ReqId, int>, ghost left: set<int>)
    returns (zones: map<int, Zone>, ghost zoneOf: map<ReqId, int>)
    requires c in left && left <= small.Keys && Holds(p, zoneOf1, zones1) && Occupied(zones1)
    requires forall k :: k in zones1 ==> OneComponent(p, zones1[k])
    requires Merging(p, zones1, threshold, small, left) && Mending(p, small, left, zoneOf0, zoneOf1)
    ensures Holds(p, zoneOf, zones) && Occupied(zones) && forall k :: k in zones ==> OneComponent(p, zones[k])
    ensures Merging(p, zones, threshold, small, left - {c}) && Mending(p, small, left - {c}, zoneOf0, zoneOf)
  {
    MergingAt(p, zones1, threshold, small, left, c);
    ghost var target := 0;
    if |small[c]| >= 2 {
      zones, zoneOf, target := MergeGroup(p, small[c], c, zones1, zoneOf1);
      StillOccupied(p, zones1, zones, small[c], c, target);
      GroupMerged(p, zones1, zones, threshold, small, left, c, target);
      Collected(p, zoneOf1, zones1, zoneOf, zones, small[c], target);
      MendingStep(p, small, left, zoneOf0, zoneOf1, zones1, zoneOf, c, target);
    } else {
      zones, zoneOf := zones1, zoneOf1;
      AtMostOne(p, zones, threshold, small, left, c);
      MendingKeep(p, small, left, zoneOf0, zoneOf1, c);
    }
  }

  lemma StillOccupied(p: Problem, before: map<int, Zone>, after: map<int, Zone>, ids: set<int>, c: int, target: int)
    requires Occupied(before) && Condensed(before, after, ids, target) && SmallIn(p, after, {target}, c)
    ensures Occupied(after)
  {
    assert target in {target};
  }

  ghost predicate BelowThreshold(zoneOf: map<ReqId, int>, threshold: int, x: ReqId)
    requires x in zoneOf
  {
    |Members(zoneOf, zoneOf[x])| < threshold
  }

  /**
   Two requirements share a zone exactly if they shared one before, or if their zones lay in one
   component and were both below the threshold; other zones keep their number.
   */
  ghost predicate Mended(p: Problem, before: map<ReqId, int>, after: map<ReqId, int>, threshold: int) {
    && after.Keys == before.Keys
    && (forall x, y :: x in before && y in before ==>
          (after[x] == after[y] <==> before[x] == before[y] || MendsAt(p, before, threshold, x, y)))
    && (forall x :: x in before && !BelowThreshold(before, threshold, x) ==> after[x] == before[x])
  }

  ghost predicate MendsAt(p: Problem, zoneOf: map<ReqId, int>, threshold: int, x: ReqId, y: ReqId)
    requires x in zoneOf && y in zoneOf
  {
    p.Comp(x) == p.Comp(y) && BelowThreshold(zoneOf, threshold, x) && BelowThreshold(zoneOf, threshold, y)
  }

  /** The zone of the requirement is listed as a small one. */
  ghost predicate InSmall(p: Problem, small: map<int, set<int>>, zoneOf: map<ReqId, int>, x: ReqId) {
    x in zoneOf && p.Comp(x) in small && zoneOf[x] in small[p.Comp(x)]
  }

  /** The requirements of the listed zones are together, component by component; the components `left` are untouched. */
  ghost predicate MendingFacts(p: Problem, small: map<int, set<int>>, left: set<int>, before: map<ReqId, int>, after: map<ReqId, int>)
  {
    && after.Keys == before.Keys
    && (forall x :: x in before && !(InSmall(p, small, before, x) && p.Comp(x) !in left) ==> after[x] == before[x])
    && (forall x :: InSmall(p, small, before, x) ==> InSmall(p, small, after, x))
    && (forall x, y :: InSmall(p, small, before, x) && InSmall(p, small, before, y) && p.Comp(x) == p.Comp(y) && p.Comp(x) !in left
          ==> after[x] == after[y])
  }

  ghost predicate Mending(p: Problem, small: map<int, set<int>>, left: set<int>, before: map<ReqId, int>, after: map<ReqId, int>) {
    forall k {:trigger Recall(Zoning, k)} :: Recall(Zoning, k) ==> MendingFacts(p, small, left, before, after)
  }

  /** Merging moves the requirements of the merged zones to the target, and no other. */
  lemma Collected(p: Problem, zoneOf0: map<ReqId, int>, zones0: map<int, Zone>, zoneOf: map<ReqId, int>,
                  zones: map<int, Zone>, ids: set<int>, target: int)
    requires Holds(p, zoneOf0, zones0) && Holds(p, zoneOf, zones) && zoneOf.Keys == zoneOf0.Keys
    requires Condensed(zones0, zones, ids, target)
    ensures forall x :: x in zoneOf0 ==> zoneOf[x] == if zoneOf0[x] in ids then target else zoneOf0[x]
  {
    forall x | x in zoneOf0
      ensures zoneOf[x] == if zoneOf0[x] in ids then target else zoneOf0[x]
    {
      HeldAt(p, zoneOf0, zones0, zoneOf0[x]);
      HeldAt(p, zoneOf, zones, zoneOf[x]);
      if zoneOf0[x] !in ids {
        HeldAt(p, zoneOf, zones, zoneOf0[x]);
      } else if zoneOf[x] !in ids {
        HeldAt(p, zoneOf0, zones0, zoneOf[x]);
        assert false;
      }
    }
  }

  lemma MendingStart(p: Problem, small: map<int, set<int>>, zoneOf: map<ReqId, int>)
    ensures Mending(p, small, small.Keys, zoneOf, zoneOf)
  {
  }

  lemma MendingStep(p: Problem, small: map<int, set<int>>, left: set<int>, zoneOf0: map<ReqId, int>, zoneOf1: map<ReqId, int>,
                    zones1: map<int, Zone>, zoneOf: map<ReqId, int>, c: int, target: int)
    requires Mending(p, small, left, zoneOf0, zoneOf1) && c in left && c in small && target in small[c]
    requires Holds(p, zoneOf1, zones1) && SmallIn(p, zones1, small[c], c) && zoneOf.Keys == zoneOf1.Keys
    requires forall x :: x in zoneOf1 ==> zoneOf[x] == if zoneOf1[x] in small[c] then target else zoneOf1[x]
    ensures Mending(p, small, left - {c}, zoneOf0, zoneOf)
  {
    assert Recall(Zoning, 0);
    forall x | x in zoneOf1 && zoneOf1[x] in small[c]
      ensures p.Comp(x) == c
    {
      HeldAt(p, zoneOf1, zones1, zoneOf1[x]);
    }
  }

  lemma MendingKeep(p: Problem, small: map<int, set<int>>, left: set<int>, zoneOf0: map<ReqId, int>, zoneOf: map<ReqId, int>, c: int)
    requires Mending(p, small, left, zoneOf0, zoneOf) && c in left && c in small && |small[c]| < 2
    ensures Mending(p, small, left - {c}, zoneOf0, zoneOf)
  {
    assert Recall(Zoning, 0);
    forall a, b | a in small[c] && b in small[c]
      ensures a == b
    {
      OnlyOne(small[c], a, b);
    }
  }

  /** A zone is listed under its component exactly if it is below the threshold. */
  lemma SmallIffBelow(p: Problem, zoneOf: map<ReqId, int>, zones: map<int, Zone>, small: map<int, set<int>>, threshold: int, x: ReqId)
    requires Holds(p, zoneOf, zones) && AllSmall(p, zones, small) && ListsSmall(p, zones, threshold, small, {})
    requires OnlySmall(zones, threshold, small) && x in zoneOf && forall k :: k in zones ==> OneComponent(p, zones[k])
    ensures InSmall(p, small, zoneOf, x) <==> BelowThreshold(zoneOf, threshold, x)
    ensures forall y :: y in zoneOf && zoneOf[y] == zoneOf[x] ==> p.Comp(y) == p.Comp(x)
  {
    var k := zoneOf[x];
    assert zones[k].reqs.Keys == Members(zoneOf, k) by {
      assert HoldsAt(p, zoneOf, k, zones[k]);
    }
    assert x in Members(zoneOf, k);
    var c :| Within(p, zones[k], c);
    assert forall y :: y in zoneOf && zoneOf[y] == k ==> y in Members(zoneOf, k) && p.Comp(y) == c;
    SmallListed(p, zones, small, threshold, k, c);
  }

  lemma SmallListed(p: Problem, zones: map<int, Zone>, small: map<int, set<int>>, threshold: int, k: int, c: int)
    requires ListsSmall(p, zones, threshold, small, {}) && OnlySmall(zones, threshold, small)
    requires k in zones && zones[k].reqs.Keys != {} && Within(p, zones[k], c)
    ensures c in small && k in small[c] <==> |zones[k].reqs.Keys| < threshold
  {
    assert Recall(Zoning, 0);
    assert |zones[k].reqs.Keys| < threshold ==> SmallHere(p, zones[k], threshold, c);
  }

  lemma SmallComponent(p: Problem, zoneOf: map<ReqId, int>, zones: map<int, Zone>, small: map<int, set<int>>, c: int, k: int, y: ReqId)
    requires Holds(p, zoneOf, zones) && AllSmall(p, zones, small) && c in small && k in small[c]
    ensures y in zoneOf && zoneOf[y] == k ==> p.Comp(y) == c
    ensures forall d :: d in small && k in small[d] ==> c == d
  {
    assert Recall(Zoning, 0);
    assert SmallIn(p, zones, small[c], c);
    HeldAt(p, zoneOf, zones, k);
    forall d | d in small && k in small[d]
      ensures c == d
    {
      assert SmallIn(p, zones, small[d], d);
      OnlyComponent(p, zones[k], c, d);
    }
  }

  lemma MendingDone(p: Problem, zoneOf0: map<ReqId, int>, zones0: map<int, Zone>, zoneOf: map<ReqId, int>,
                    small: map<int, set<int>>, threshold: int)
    requires Holds(p, zoneOf0, zones0) && AllSmall(p, zones0, small) && ListsSmall(p, zones0, threshold, small, {})
    requires OnlySmall(zones0, threshold, small) && forall k :: k in zones0 ==> OneComponent(p, zones0[k])
    requires Mending(p, small, {}, zoneOf0, zoneOf)
    ensures Mended(p, zoneOf0, zoneOf, threshold)
  {
    MendingKeys(p, small, {}, zoneOf0, zoneOf);
    forall x, y | x in zoneOf0 && y in zoneOf0
      ensures zoneOf[x] == zoneOf[y] <==> zoneOf0[x] == zoneOf0[y] || MendsAt(p, zoneOf0, threshold, x, y)
      ensures !BelowThreshold(zoneOf0, threshold, x) ==> zoneOf[x] == zoneOf0[x]
    {
      SmallIffBelow(p, zoneOf0, zones0, small, threshold, x);
      SmallIffBelow(p, zoneOf0, zones0, small, threshold, y);
      if InSmall(p, small, zoneOf0, x) {
        SmallMoves(p, zoneOf0, zones0, zoneOf, small, x, y);
      } else {
        LargeStays(p, small, zoneOf0, zoneOf, x);
        if InSmall(p, small, zoneOf0, y) {
          SmallMoves(p, zoneOf0, zones0, zoneOf, small, y, x);
        } else {
          LargeStays(p, small, zoneOf0, zoneOf, y);
        }
      }
    }
  }

  lemma MendingKeys(p: Problem, small: map<int, set<int>>, left: set<int>, zoneOf0: map<ReqId, int>, zoneOf: map<ReqId, int>)
    requires Mending(p, small, left, zoneOf0, zoneOf)
    ensures zoneOf.Keys == zoneOf0.Keys
  {
    assert Recall(Zoning, 0);
  }

  lemma LargeStays(p: Problem, small: map<int, set<int>>, zoneOf0: map<ReqId, int>, zoneOf: map<ReqId, int>, x: ReqId)
    requires Mending(p, small, {}, zoneOf0, zoneOf) && x in zoneOf0 && !InSmall(p, small, zoneOf0, x)
    ensures x in zoneOf && zoneOf[x] == zoneOf0[x]
  {
    assert Recall(Zoning, 0);
  }

  lemma SmallMoves(p: Problem, zoneOf0: map<ReqId, int>, zones0: map<int, Zone>, zoneOf: map<ReqId, int>,
                   small: map<int, set<int>>, x: ReqId, y: ReqId)
    requires Holds(p, zoneOf0, zones0) && AllSmall(p, zones0, small) && Mending(p, small, {}, zoneOf0, zoneOf)
    requires x in zoneOf0 && y in zoneOf0 && InSmall(p, small, zoneOf0, x)
    requires zoneOf0[x] == zoneOf0[y] ==> p.Comp(x) == p.Comp(y)
    ensures x in zoneOf && y in zoneOf
    ensures zoneOf[x] == zoneOf[y] <==> p.Comp(x) == p.Comp(y) && InSmall(p, small, zoneOf0, y)
    ensures zoneOf0[x] == zoneOf0[y] ==> InSmall(p, small, zoneOf0, y)
  {
    assert Recall(Zoning, 0);
    SmallComponent(p, zoneOf0, zones0, small, p.Comp(x), zoneOf[x], y);
  }

  lemma OnlyOne<T>(s: set<T>, a: T, b: T)
    requires a in s && b in s && |s| < 2
    ensures a == b
  {
    var both := {a, b};
    if a != b {
      assert |both| == 2;
      SubsetCount(both, s);
    }
  }

  lemma AtMostOne(p: Problem, zones: map<int, Zone>, threshold: int, small: map<int, set<int>>, left: set<int>, c: int)
    requires Merging(p, zones, threshold, small, left) && c in left && c in small && |small[c]| < 2
    ensures Merging(p, zones, threshold, small, left - {c})
  {
    assert Recall(Zoning, 0);
    forall a, b | a in small[c] && b in small[c]
      ensures a == b
    {
      OnlyOne(small[c], a, b);
    }
  }

  lemma GroupMerged(p: Problem, before: map<int, Zone>, after: map<int, Zone>, threshold: int, small: map<int, set<int>>,
                    left: set<int>, c: int, target: int)
    requires Merging(p, before, threshold, small, left) && c in left && c in small
    requires Condensed(before, after, small[c], target) && SmallIn(p, after, {target}, c)
    ensures Merging(p, after, threshold, small, left - {c})
  {
    assert Recall(Zoning, 0);
    forall d | d in left && d != c
      ensures SmallIn(p, after, small[d], d)
    {
      Apart(p, before, small[c], c, small[d], d);
    }
    assert target in {target};
    forall d | SmallHere(p, after[target], threshold, d)
      ensures d == c
    {
      OnlyComponent(p, after[target], c, d);
    }
  }

  /** Zones of different components are different zones. */
  lemma Apart(p: Problem, zones: map<int, Zone>, a: set<int>, c: int, b: set<int>, d: int)
    requires SmallIn(p, zones, a, c) && SmallIn(p, zones, b, d) && c != d
    ensures a !! b
  {
    forall k | k in a
      ensures k !in b
    {
      var r :| r in zones[k].reqs.Keys;
      assert p.Comp(r) == c;
    }
  }

  /** Merges the small zones of one component into one of them. */
  method MergeGroup(p: Problem, ids: set<int>, c: int, zones0: map<int, Zone>, ghost zoneOf0: map<ReqId, int>)
    returns (zones: map<int, Zone>, ghost zoneOf: map<ReqId, int>, target: int)
    requires Holds(p, zoneOf0, zones0) && SmallIn(p, zones0, ids, c) && ids != {}
    requires forall k :: k in zones0 ==> OneComponent(p, zones0[k])
    ensures Holds(p, zoneOf, zones) && zoneOf.Keys == zoneOf0.Keys
    ensures forall k :: k in zones ==> OneComponent(p, zones[k])
    ensures Condensed(zones0, zones, ids, target) && SmallIn(p, zones, {target}, c)
  {
    zones, zoneOf := zones0, zoneOf0;
    target := Pick(ids);
    var left := ids - {target};
    CondenseStart(p, zoneOf0, zones0, ids, c, target);
    while left != {}
      invariant left <= ids - {target} && Condensing(p, zoneOf0, zones0, ids, c, target, left, zoneOf, zones)
      decreases left
    {
      var k := Pick(left);
      CondenseStep(p, zoneOf0, zones0, ids, c, target, left, zoneOf, zones, k);
      left := left - {k};
      zoneOf := Moved(zoneOf, target, k);
      zones := (zones - {k})[target := Union(zones[target], zones[k])];
    }
    CondenseEnd(p, zoneOf0, zones0, ids, c, target, zoneOf, zones);
  }

  /** The zones `left` have still to be merged into `target`. */
  ghost predicate CondensingFacts(p: Problem, zoneOf0: map<ReqId, int>, zones0: map<int, Zone>, ids: set<int>, c: int,
                                  target: int, left: set<int>, zoneOf: map<ReqId, int>, zones: map<int, Zone>)
  {
    && Holds(p, zoneOf, zones) && zoneOf.Keys == zoneOf0.Keys && (forall k :: k in zones ==> OneComponent(p, zones[k]))
    && target in ids && left <= ids - {target}
    && Untouched(zones0, zones, ids, left + {target}) && SmallIn(p, zones, left + {target}, c)
  }

  ghost predicate Condensing(p: Problem, zoneOf0: map<ReqId, int>, zones0: map<int, Zone>, ids: set<int>, c: int,
                             target: int, left: set<int>, zoneOf: map<ReqId, int>, zones: map<int, Zone>)
  {
    forall k {:trigger Recall(Zoning, k)} :: Recall(Zoning, k) ==>
      CondensingFacts(p, zoneOf0, zones0, ids, c, target, left, zoneOf, zones)
  }

  lemma CondenseStart(p: Problem, zoneOf: map<ReqId, int>, zones: map<int, Zone>, ids: set<int>, c: int, target: int)
    requires Holds(p, zoneOf, zones) && SmallIn(p, zones, ids, c) && target in ids
    requires forall k :: k in zones ==> OneComponent(p, zones[k])
    ensures Condensing(p, zoneOf, zones, ids, c, target, ids - {target}, zoneOf, zones)
  {
    assert ids - {target} + {target} == ids;
  }

  lemma CondenseStep(p: Problem, zoneOf0: map<ReqId, int>, zones0: map<int, Zone>, ids: set<int>, c: int, target: int,
                     left: set<int>, zoneOf: map<ReqId, int>, zones: map<int, Zone>, k: int)
    requires Condensing(p, zoneOf0, zones0, ids, c, target, left, zoneOf, zones) && k in left
    ensures target in zones && k in zones
    ensures Condensing(p, zoneOf0, zones0, ids, c, target, left - {k}, Moved(zoneOf, target, k),
                       (zones - {k})[target := Union(zones[target], zones[k])])
  {
    assert Recall(Zoning, 0);
    TakeOut(ids, left, target, k);
    CondenseMerge(p, zones0, zones, ids, left - {k}, c, target, k);
    MergeHolds(p, zoneOf, zones, target, k);
  }

  lemma TakeOut<T>(ids: set<T>, left: set<T>, target: T, k: T)
    requires left <= ids - {target} && k in left
    ensures left + {target} == (left - {k}) + {target, k} && left - {k} <= ids - {target} && k in ids && k != target
  {
  }

  lemma CondenseMerge(p: Problem, zones0: map<int, Zone>, zones: map<int, Zone>, ids: set<int>, left: set<int>, c: int,
                      target: int, k: int)
    requires Untouched(zones0, zones, ids, left + {target, k}) && SmallIn(p, zones, left + {target, k}, c)
    requires forall z :: z in zones ==> OneComponent(p, zones[z])
    requires target in ids && k in ids && target != k && k !in left
    ensures target in zones && k in zones
    ensures var after := (zones - {k})[target := Union(zones[target], zones[k])];
            && Untouched(zones0, after, ids, left + {target}) && SmallIn(p, after, left + {target}, c)
            && forall z :: z in after ==> OneComponent(p, after[z])
  {
    MergeWithin(p, zones, left, c, target, k);
    MergeElsewhere(zones0, zones, ids, left, target, k);
  }

  lemma CondenseEnd(p: Problem, zoneOf0: map<ReqId, int>, zones0: map<int, Zone>, ids: set<int>, c: int, target: int,
                    zoneOf: map<ReqId, int>, zones: map<int, Zone>)
    requires Condensing(p, zoneOf0, zones0, ids, c, target, {}, zoneOf, zones)
    ensures Holds(p, zoneOf, zones) && zoneOf.Keys == zoneOf0.Keys && forall k :: k in zones ==> OneComponent(p, zones[k])
    ensures Condensed(zones0, zones, ids, target) && SmallIn(p, zones, {target}, c)
  {
    assert Recall(Zoning, 0);
    assert {} + {target} == {target};
  }

  /** The zones outside `ids` are as they were; of those in `ids` only `left` are left. */
  ghost predicate Untouched(before: map<int, Zone>, after: map<int, Zone>, ids: set<int>, left: set<int>) {
    && (forall k :: k in before && k !in ids ==> k in after && after[k] == before[k])
    && (forall k :: k in after ==> k in before && (k in ids ==> k in left))
  }

  /** Of the zones `ids` only `target` is left, all others are as they were. */
  ghost predicate Condensed(before: map<int, Zone>, after: map<int, Zone>, ids: set<int>, target: int) {
    target in ids && Untouched(before, after, ids, {target})
  }

  lemma MergeElsewhere(zones0: map<int, Zone>, zones: map<int, Zone>, ids: set<int>, left: set<int>, a: int, b: int)
    requires Untouched(zones0, zones, ids, left + {a, b}) && a in ids && b in ids && a in zones && b in zones && a != b
    ensures Untouched(zones0, (zones - {b})[a := Union(zones[a], zones[b])], ids, left + {a})
  {
  }

  lemma MergeWithin(p: Problem, zones: map<int, Zone>, ids: set<int>, c: int, a: int, b: int)
    requires SmallIn(p, zones, ids + {a, b}, c) && a != b && b !in ids
    requires forall k :: k in zones ==> OneComponent(p, zones[k])
    ensures a in zones && b in zones
    ensures var after := (zones - {b})[a := Union(zones[a], zones[b])];
            SmallIn(p, after, ids + {a}, c) && forall k :: k in after ==> OneComponent(p, after[k])
  {
    assert a in ids + {a, b} && b in ids + {a, b};
    var merged := Union(zones[a], zones[b]);
    assert Within(p, merged, c) && merged.reqs.Keys != {} by {
      assert merged.reqs.Keys == zones[a].reqs.Keys + zones[b].reqs.Keys;
    }
  }

  // ----- Centroids ----------------------------------------------------------------------------

  /** The sum of the midpoints of the listed requirements. */
  ghost function Total(list: seq<ReqId>, points: map<ReqId, Point>): Point
    requires forall r :: r in list ==> r in points
  {
    if list == [] then Point(0.0, 0.0)
    else
      assert list[|list| - 1] in list;
      var t, q := Total(list[..|list| - 1], points), points[list[|list| - 1]];
      Point(t.x + q.x, t.y + q.y)
  }

  lemma TotalStep(list: seq<ReqId>, r: ReqId, points: map<ReqId, Point>)
    requires (forall x :: x in list ==> x in points) && r in points
    ensures forall x :: x in list + [r] ==> x in points
    ensures Total(list + [r], points) == Point(Total(list, points).x + points[r].x, Total(list, points).y + points[r].y)
    ensures Elements(list + [r]) == Elements(list) + {r}
  {
    assert (list + [r])[..|list|] == list;
  }

  /** The centroid is the mean of the midpoints in the zone, listed one way or another. */
  ghost predicate MeanOf(z: Zone, points: map<ReqId, Point>, list: seq<ReqId>) {
    && Distinct(list) && Elements(list) == z.reqs.Keys * points.Keys
    && (forall r :: r in list ==> r in points)
    && (list != [] ==> z.cx == Total(list, points).x / |list| as real && z.cy == Total(list, points).y / |list| as real)
  }

  ghost predicate Centred(z: Zone, points: map<ReqId, Point>) {
    exists list :: MeanOf(z, points, list)
  }

  predicate SameButPlace(a: Zone, b: Zone) {
    a.id == b.id && a.reqs == b.reqs && a.segs == b.segs
  }

  method PlaceZone(z: Zone, points: map<ReqId, Point>) returns (r: Zone)
    ensures SameButPlace(r, z) && Centred(r, points)
  {
    var left, n, x, y := z.reqs.Keys * points.Keys, 0, 0.0, 0.0;
    ghost var list := [];
    while left != {}
      invariant left <= z.reqs.Keys * points.Keys && Summed(z.reqs.Keys * points.Keys - left, points, list, n, x, y)
      decreases left
    {
      var r := Pick(left);
      SumStep(z.reqs.Keys * points.Keys, left, points, list, n, x, y, r);
      left, n, x, y := left - {r}, n + 1, x + points[r].x, y + points[r].y;
      list := list + [r];
    }
    r := z;
    if n > 0 {
      r := z.(cx := x / n as real, cy := y / n as real);
    }
    SumEnd(r, points, list, n, x, y);
  }

  /** The requirements `done` are listed, and the coordinates of their midpoints added up. */
  ghost predicate Summed(done: set<ReqId>, points: map<ReqId, Point>, list: seq<ReqId>, n: nat, x: real, y: real) {
    forall k {:trigger Recall(Zoning, k)} :: Recall(Zoning, k) ==>
      && Distinct(list) && |list| == n && Elements(list) == done && (forall r :: r in list ==> r in points)
      && Point(x, y) == Total(list, points)
  }

  lemma SumStep(all: set<ReqId>, left: set<ReqId>, points: map<ReqId, Point>, list: seq<ReqId>, n: nat, x: real, y: real, r: ReqId)
    requires Summed(all - left, points, list, n, x, y) && r in left && left <= all && r in points
    ensures Summed(all - (left - {r}), points, list + [r], n + 1, x + points[r].x, y + points[r].y)
  {
    assert Recall(Zoning, 0);
    assert r !in Elements(list);
    TotalStep(list, r, points);
    assert all - (left - {r}) == all - left + {r};
  }

  lemma SumEnd(z: Zone, points: map<ReqId, Point>, list: seq<ReqId>, n: nat, x: real, y: real)
    requires Summed(z.reqs.Keys * points.Keys - {}, points, list, n, x, y)
    requires n > 0 ==> z.cx == x / n as real && z.cy == y / n as real
    ensures Centred(z, points)
  {
    assert Recall(Zoning, 0);
    assert MeanOf(z, points, list);
  }

  method PlaceZones(zones: map<int, Zone>, points: map<ReqId, Point>) returns (placed: map<int, Zone>)
    ensures placed.Keys == zones.Keys
    ensures forall k :: k in placed ==> SameButPlace(placed[k], zones[k]) && Centred(placed[k], points)
  {
    placed := map[];
    var left := zones.Keys;
    while left != {}
      invariant left <= zones.Keys && placed.Keys == zones.Keys - left
      invariant forall k :: k in placed ==> SameButPlace(placed[k], zones[k]) && Centred(placed[k], points)
      decreases left
    {
      var k := Pick(left);
      left := left - {k};
      var z := PlaceZone(zones[k], points);
      placed := placed[k := z];
    }
  }

  lemma PlacedHolds(p: Problem, zoneOf: map<ReqId, int>, zones: map<int, Zone>, placed: map<int, Zone>)
    requires Holds(p, zoneOf, zones) && placed.Keys == zones.Keys
    requires forall k :: k in placed ==> SameButPlace(placed[k], zones[k])
    ensures Holds(p, zoneOf, placed)
    ensures (forall k :: k in zones ==> OneComponent(p, zones[k])) ==> forall k :: k in placed ==> OneComponent(p, placed[k])
  {
    forall k | k in placed
      ensures HoldsAt(p, zoneOf, k, placed[k])
      ensures OneComponent(p, zones[k]) ==> OneComponent(p, placed[k])
    {
      assert HoldsAt(p, zoneOf, k, zones[k]);
      if OneComponent(p, zones[k]) {
        var c :| Within(p, zones[k], c);
        assert Within(p, placed[k], c);
      }
    }
  }

  // ----- The decomposition --------------------------------------------------------------------

  /** Requirements without midpoints go to some zone. */
  method AssignRest(p: Problem, zones0: map<int, Zone>, ghost points: map<ReqId, Point>, ghost zoneOf0: map<ReqId, int>)
    returns (zones: map<int, Zone>, ghost zoneOf: map<ReqId, int>)
    requires Holds(p, zoneOf0, zones0) && zoneOf0.Keys <= p.options.Keys && zoneOf0.Keys != {}
    requires points.Keys == zoneOf0.Keys && forall k :: k in zones0 ==> Centred(zones0[k], points)
    ensures Holds(p, zoneOf, zones) && zoneOf.Keys == p.options.Keys && AddsRest(p, zoneOf0, zoneOf) && zones.Keys == zones0.Keys
    ensures forall k :: k in zones ==> Centred(zones[k], points)
    ensures zoneOf0.Keys == p.options.Keys ==> zones == zones0
  {
    var present := set k, r | k in zones0 && r in zones0[k].reqs :: r;
    HeldTogether(p, zoneOf0, zones0, present);
    var missing := p.options.Keys - present;
    if missing == {} {
      zones, zoneOf := zones0, zoneOf0;
      NoRest(p, zoneOf0);
    } else {
      var first := Pick(zones0.Keys);
      RestAssigned(p, zoneOf0, zones0, first, present, missing);
      SameKeys(zones0, first, Extend(p, zones0[first], missing));
      StillCentred(p, zones0, first, missing, points);
      zones := zones0[first := Extend(p, zones0[first], missing)];
      zoneOf := Assigned(zoneOf0, missing, first);
      SomeMissing(p.options.Keys, zoneOf0.Keys);
    }
  }

  lemma SameKeys<K, V>(m: map<K, V>, k: K, v: V)
    requires k in m
    ensures m[k := v].Keys == m.Keys
  {
  }

  lemma NoRest(p: Problem, zoneOf: map<ReqId, int>)
    requires zoneOf.Keys <= p.options.Keys && p.options.Keys - zoneOf.Keys == {}
    ensures zoneOf.Keys == p.options.Keys && AddsRest(p, zoneOf, zoneOf)
  {
    NothingMissing(p.options.Keys, zoneOf.Keys);
  }

  lemma SomeMissing<T>(all: set<T>, some: set<T>)
    requires all - some != {}
    ensures all != some
  {
  }

  lemma NothingMissing<T>(all: set<T>, some: set<T>)
    requires some <= all && all - some == {}
    ensures all == some
  {
    forall x | x in all
      ensures x in some
    {
      assert x !in all - some;
    }
  }

  lemma RestAssigned(p: Problem, zoneOf: map<ReqId, int>, zones: map<int, Zone>, first: int, present: set<ReqId>,
                     missing: set<ReqId>)
    requires Holds(p, zoneOf, zones) && first in zones.Keys && zoneOf.Keys <= p.options.Keys
    requires present == zoneOf.Keys && missing == p.options.Keys - present
    ensures Holds(p, Assigned(zoneOf, missing, first), zones[first := Extend(p, zones[first], missing)])
    ensures AddsRest(p, zoneOf, Assigned(zoneOf, missing, first)) && Assigned(zoneOf, missing, first).Keys == p.options.Keys
  {
    Complement(p.options.Keys, present);
    ExtendHolds(p, zoneOf, zones, first, missing);
    RestAdded(p, zoneOf, first, missing);
  }

  lemma Complement<T>(all: set<T>, some: set<T>)
    requires some <= all
    ensures some + (all - some) == all && all - some !! some && all - some <= all
  {
  }

  lemma RestAdded(p: Problem, zoneOf: map<ReqId, int>, k: int, missing: set<ReqId>)
    requires missing !! zoneOf.Keys && zoneOf.Keys + missing == p.options.Keys
    ensures AddsRest(p, zoneOf, Assigned(zoneOf, missing, k)) && Assigned(zoneOf, missing, k).Keys == p.options.Keys
  {
    assert Assigned(zoneOf, missing, k).Keys == zoneOf.Keys + missing;
  }

  /** Everything else is in one zone, and nothing has moved. */
  ghost predicate AddsRest(p: Problem, before: map<ReqId, int>, after: map<ReqId, int>) {
    forall k {:trigger Recall(Zoning, k)} :: Recall(Zoning, k) ==> AddsRestFacts(p, before, after)
  }

  ghost predicate AddsRestFacts(p: Problem, before: map<ReqId, int>, after: map<ReqId, int>) {
    && after.Keys == p.options.Keys
    && (forall r :: r in before ==> r in after && after[r] == before[r])
    && (forall x, y :: x in after && y in after && x !in before && y !in before ==> after[x] == after[y])
  }

  /** Requirements without midpoints do not move the centroid. */
  lemma StillCentred(p: Problem, zones: map<int, Zone>, k: int, rids: set<ReqId>, points: map<ReqId, Point>)
    requires k in zones && rids <= p.options.Keys && rids !! points.Keys && forall j :: j in zones ==> Centred(zones[j], points)
    ensures var after := zones[k := Extend(p, zones[k], rids)]; forall j :: j in after ==> Centred(after[j], points)
  {
    var list :| MeanOf(zones[k], points, list);
    var after := Extend(p, zones[k], rids);
    assert after.reqs.Keys == zones[k].reqs.Keys + rids;
    assert MeanOf(after, points, list);
  }

  lemma HeldTogether(p: Problem, zoneOf: map<ReqId, int>, zones: map<int, Zone>, present: set<ReqId>)
    requires Holds(p, zoneOf, zones) && present == set k, r | k in zones && r in zones[k].reqs :: r
    ensures present == zoneOf.Keys && (zoneOf.Keys != {} ==> zones.Keys != {})
  {
    forall k | k in zones
      ensures zones[k].reqs.Keys <= zoneOf.Keys
    {
      assert HoldsAt(p, zoneOf, k, zones[k]);
    }
    forall r | r in zoneOf
      ensures r in present && zones.Keys != {}
    {
      assert HoldsAt(p, zoneOf, zoneOf[r], zones[zoneOf[r]]);
      assert r in zones[zoneOf[r]].reqs && zoneOf[r] in zones.Keys;
    }
  }

  function InOrderOf(zones: map<int, Zone>, ids: seq<int>): seq<Zone>
    requires forall i :: 0 <= i < |ids| ==> ids[i] in zones
  {
    seq(|ids|, i requires 0 <= i < |ids| => zones[ids[i]])
  }

  lemma HoldsPartitions(p: Problem, zoneOf: map<ReqId, int>, zones: map<int, Zone>, ids: seq<int>)
    requires Holds(p, zoneOf, zones) && zoneOf.Keys == p.options.Keys && Ascending(ids) && Elements(ids) == zones.Keys
    ensures forall i :: 0 <= i < |ids| ==> ids[i] in zones
    ensures Partitions(p, InOrderOf(zones, ids))
  {
    assert forall i :: 0 <= i < |ids| ==> ids[i] in Elements(ids);
    var list := InOrderOf(zones, ids);
    forall i | 0 <= i < |list|
      ensures HoldsAt(p, zoneOf, ids[i], list[i])
    {
      assert ids[i] in zones;
    }
    forall r | r in p.options
      ensures exists i :: 0 <= i < |list| && r in list[i].reqs
    {
      assert r in zoneOf && zoneOf[r] in Elements(ids);
      var i :| 0 <= i < |ids| && ids[i] == zoneOf[r];
      assert HoldsAt(p, zoneOf, ids[i], list[i]);
      assert r in list[i].reqs;
    }
  }

  /** As many zones as the size asks for, and at least two. */
  ghost function ZoneCount(n: nat, maxZoneSize: int): nat
  {
    var k := if maxZoneSize > 0 then (n + maxZoneSize - 1) / maxZoneSize else 0;
    if k < 2 then 2 else k
  }

  /** One zone with everything. */
  function WholeZone(p: Problem): Zone {
    Zone(0, p.options, Counts(p), 0.0, 0.0)
  }

  lemma WholePartitions(p: Problem)
    ensures Partitions(p, [WholeZone(p)])
  {
    var zones := [WholeZone(p)];
    assert zones[0].reqs == p.options;
  }

  /** The midpoint of each surveyed requirement. */
  method MidpointTable(rids: seq<ReqId>, points: seq<Point>) returns (table: map<ReqId, Point>)
    requires |rids| == |points| && Distinct(rids)
    ensures forall i :: 0 <= i < |rids| ==> rids[i] in table && table[rids[i]] == points[i]
    ensures table.Keys == Elements(rids)
  {
    table := map[];
    for i := 0 to |rids|
      invariant forall k :: 0 <= k < i ==> rids[k] in table && table[rids[k]] == points[k]
      invariant forall r :: r in table ==> r in rids
    {
      table := table[rids[i] := points[i]];
    }
  }

  /** The midpoint of every located requirement. */
  ghost function Midpoints(p: Problem, xy: map<Node, Point>): map<ReqId, Point> {
    map r | r in Located(p, xy) ::
      Point((xy[p.options[r][0].u].x + xy[p.options[r][0].v].x) / 2.0, (xy[p.options[r][0].u].y + xy[p.options[r][0].v].y) / 2.0)
  }

  lemma TableIsMidpoints(p: Problem, xy: map<Node, Point>, rids: seq<ReqId>, points: seq<Point>, table: map<ReqId, Point>)
    requires Surveyed(p, xy, rids, points) && Elements(rids) == Located(p, xy) == table.Keys
    requires forall i :: 0 <= i < |rids| ==> rids[i] in table && table[rids[i]] == points[i]
    ensures table == Midpoints(p, xy)
  {
    forall r | r in table
      ensures r in Midpoints(p, xy) && table[r] == Midpoints(p, xy)[r]
    {
      assert r in Elements(rids);
      var i :| 0 <= i < |rids| && rids[i] == r;
      assert SurveyedAt(p, xy, rids[i], points[i]);
    }
  }

  /**
   The listed zones, by ascending number, and what they hold: of the labelled requirements each zone
   has those that belong together and at least one, and the others are all in one zone.
   */
  ghost predicate Follows(p: Problem, lab: map<ReqId, int>, threshold: int, zones: seq<Zone>) {
    forall k {:trigger Recall(Zoning, k)} :: Recall(Zoning, k) ==> FollowsFacts(p, lab, threshold, zones)
  }

  ghost predicate FollowsFacts(p: Problem, lab: map<ReqId, int>, threshold: int, zones: seq<Zone>) {
    && (forall i, j :: 0 <= i < j < |zones| ==> zones[i].id < zones[j].id)
    && (forall i :: 0 <= i < |zones| ==> HasLabelled(lab, zones[i]))
    && (forall i, x :: 0 <= i < |zones| && x in zones[i].reqs ==> HoldsCompanions(p, lab, threshold, zones[i], x))
  }

  ghost predicate HasLabelled(lab: map<ReqId, int>, z: Zone) {
    exists x :: x in z.reqs && x in lab
  }

  ghost predicate HoldsCompanions(p: Problem, lab: map<ReqId, int>, threshold: int, z: Zone, x: ReqId) {
    if x in lab
    then
      && (forall y :: y in lab ==> (y in z.reqs <==> Together(p, lab, threshold, x, y)))
      && (InWholeChunk(p, lab, threshold, x) ==> z.id == lab[x])
    else forall y :: y in p.options && y !in lab ==> y in z.reqs
  }

  /** From labelled requirements to the final zones. */
  method AssembleZones(p: Problem, ghost xy: map<Node, Point>, reqComp: map<ReqId, int>, rids: seq<ReqId>, points: seq<Point>,
                       labels: seq<int>, threshold: int)
    returns (zones: seq<Zone>, ghost lab: map<ReqId, int>)
    requires ComponentsKnown(p, reqComp) && |rids| == |labels| && rids != []
    requires Surveyed(p, xy, rids, points) && Elements(rids) == Located(p, xy)
    ensures Partitions(p, zones)
    ensures FollowsLabels(rids, labels, |rids|, lab) && lab.Keys == Located(p, xy) && Follows(p, lab, threshold, zones)
    ensures AllCentred(zones, Midpoints(p, xy))
    ensures Located(p, xy) == p.options.Keys ==> TidyList(p, zones, threshold) && AllOneComponent(p, zones)
  {
    var table; ghost var zoneOf, shaped;
    SurveyedKnown(p, xy, rids, points);
    table, lab := BuildZones(p, rids, labels);
    Everyone(p, rids, labels, lab);
    table, shaped := Reshape(p, reqComp, table, lab, threshold);
    Inhabited(p, shaped, table);
    var midpoints := MidpointTable(rids, points);
    TableIsMidpoints(p, xy, rids, points, midpoints);
    table, zoneOf := Finish(p, table, midpoints, shaped, threshold);
    zones := ListZones(p, lab, shaped, zoneOf, table, threshold, midpoints);
  }

  /** Sorts the zones by number. */
  method ListZones(p: Problem, ghost lab: map<ReqId, int>, ghost shaped: map<ReqId, int>, ghost zoneOf: map<ReqId, int>,
                   table: map<int, Zone>, ghost threshold: int, ghost points: map<ReqId, Point>)
    returns (zones: seq<Zone>)
    requires Holds(p, zoneOf, table) && Shaped(p, lab, threshold, shaped) && AddsRest(p, shaped, zoneOf)
    requires zoneOf.Keys == p.options.Keys && Populated(shaped, table.Keys) && forall k :: k in table ==> Centred(table[k], points)
    ensures Partitions(p, zones) && Follows(p, lab, threshold, zones)
    ensures AllCentred(zones, points) && (Tidy(p, table, threshold) ==> TidyList(p, zones, threshold))
    ensures (forall k :: k in table ==> OneComponent(p, table[k])) ==> AllOneComponent(p, zones)
  {
    var ids := Sorted(table.Keys);
    HoldsPartitions(p, zoneOf, table, ids);
    zones := InOrderOf(table, ids);
    ListFollows(p, lab, shaped, zoneOf, table, ids, threshold);
    ListKeeps(p, table, ids, threshold, points);
  }

  lemma ListKeeps(p: Problem, table: map<int, Zone>, ids: seq<int>, threshold: int, points: map<ReqId, Point>)
    requires Ascending(ids) && forall i :: 0 <= i < |ids| ==> ids[i] in table
    ensures (forall k :: k in table ==> Centred(table[k], points)) ==> AllCentred(InOrderOf(table, ids), points)
    ensures Tidy(p, table, threshold) ==> TidyList(p, InOrderOf(table, ids), threshold)
    ensures (forall k :: k in table ==> OneComponent(p, table[k])) ==> AllOneComponent(p, InOrderOf(table, ids))
  {
    if Tidy(p, table, threshold) {
      TidyListed(p, table, ids, threshold);
    }
  }

  ghost predicate AllCentred(zones: seq<Zone>, points: map<ReqId, Point>) {
    forall i :: 0 <= i < |zones| ==> Centred(zones[i], points)
  }

  ghost predicate AllOneComponent(p: Problem, zones: seq<Zone>) {
    forall i :: 0 <= i < |zones| ==> OneComponent(p, zones[i])
  }

  /** Every number is that of a zone with a requirement. */
  ghost predicate Populated(zoneOf: map<ReqId, int>, ids: set<int>) {
    forall i {:trigger Recall(Zoning, i)} :: Recall(Zoning, i) ==> forall k :: k in ids ==> exists r :: r in zoneOf && zoneOf[r] == k
  }

  lemma Inhabited(p: Problem, zoneOf: map<ReqId, int>, zones: map<int, Zone>)
    requires Holds(p, zoneOf, zones) && Occupied(zones)
    ensures Populated(zoneOf, zones.Keys)
  {
    forall k | k in zones.Keys
      ensures exists r :: r in zoneOf && zoneOf[r] == k
    {
      HeldAt(p, zoneOf, zones, k);
      var r :| r in zones[k].reqs.Keys;
    }
  }

  lemma ListFollows(p: Problem, lab: map<ReqId, int>, shaped: map<ReqId, int>, zoneOf: map<ReqId, int>, table: map<int, Zone>,
                    ids: seq<int>, threshold: int)
    requires Holds(p, zoneOf, table) && Shaped(p, lab, threshold, shaped) && AddsRest(p, shaped, zoneOf)
    requires Populated(shaped, table.Keys) && Ascending(ids) && forall i :: 0 <= i < |ids| ==> ids[i] in table
    ensures Follows(p, lab, threshold, InOrderOf(table, ids))
  {
    forall k | k in table
      ensures table[k].id == k && HasLabelled(lab, table[k])
    {
      ShapedHere(p, lab, shaped, zoneOf, table, threshold, k);
    }
    forall k, x | k in table && x in table[k].reqs
      ensures HoldsCompanions(p, lab, threshold, table[k], x)
    {
      CompanionsAt(p, lab, shaped, zoneOf, table, k, threshold, x);
    }
    FollowsListed(p, lab, threshold, table, ids);
  }

  lemma FollowsListed(p: Problem, lab: map<ReqId, int>, threshold: int, table: map<int, Zone>, ids: seq<int>)
    requires Ascending(ids) && forall i :: 0 <= i < |ids| ==> ids[i] in table
    requires forall k :: k in table ==> table[k].id == k && HasLabelled(lab, table[k])
    requires forall k, x :: k in table && x in table[k].reqs ==> HoldsCompanions(p, lab, threshold, table[k], x)
    ensures Follows(p, lab, threshold, InOrderOf(table, ids))
  {
    var zones := InOrderOf(table, ids);
    forall i | 0 <= i < |zones|
      ensures zones[i].id == ids[i] && HasLabelled(lab, zones[i])
    {
      assert zones[i] == table[ids[i]];
    }
    forall i, x | 0 <= i < |zones| && x in zones[i].reqs
      ensures HoldsCompanions(p, lab, threshold, zones[i], x)
    {
      assert zones[i] == table[ids[i]];
    }
  }

  lemma CompanionsAt(p: Problem, lab: map<ReqId, int>, shaped: map<ReqId, int>, zoneOf: map<ReqId, int>, table: map<int, Zone>,
                     k: int, threshold: int, x: ReqId)
    requires Holds(p, zoneOf, table) && Shaped(p, lab, threshold, shaped) && AddsRest(p, shaped, zoneOf)
    requires k in table && x in table[k].reqs
    ensures HoldsCompanions(p, lab, threshold, table[k], x)
  {
    assert HoldsAt(p, zoneOf, k, table[k]);
    HeldAt(p, zoneOf, table, k);
    CompanionsHere(p, lab, shaped, zoneOf, table[k], threshold, x);
  }

  lemma ShapedHere(p: Problem, lab: map<ReqId, int>, shaped: map<ReqId, int>, zoneOf: map<ReqId, int>, table: map<int, Zone>,
                   threshold: int, k: int)
    requires Holds(p, zoneOf, table) && Shaped(p, lab, threshold, shaped) && AddsRest(p, shaped, zoneOf)
    requires Populated(shaped, table.Keys) && k in table
    ensures table[k].id == k && HasLabelled(lab, table[k])
  {
    assert Recall(Zoning, 0);
    assert HoldsAt(p, zoneOf, k, table[k]);
    HeldAt(p, zoneOf, table, k);
    assert k in table.Keys;
    var r :| r in shaped && shaped[r] == k;
    assert r in table[k].reqs && r in lab;
  }

  lemma CompanionsHere(p: Problem, lab: map<ReqId, int>, shaped: map<ReqId, int>, zoneOf: map<ReqId, int>, z: Zone,
                       threshold: int, x: ReqId)
    requires Shaped(p, lab, threshold, shaped) && AddsRest(p, shaped, zoneOf) && x in z.reqs
    requires forall r :: r in z.reqs <==> r in zoneOf && zoneOf[r] == z.id
    ensures HoldsCompanions(p, lab, threshold, z, x)
  {
    assert Recall(Zoning, 0);
  }

  lemma SurveyedKnown(p: Problem, xy: map<Node, Point>, rids: seq<ReqId>, points: seq<Point>)
    requires Surveyed(p, xy, rids, points)
    ensures forall r :: r in rids ==> r in p.options
  {
    forall r | r in rids
      ensures r in p.options
    {
      var i :| 0 <= i < |rids| && rids[i] == r;
      assert SurveyedAt(p, xy, rids[i], points[i]);
    }
  }

  lemma Everyone(p: Problem, rids: seq<ReqId>, labels: seq<int>, zoneOf: map<ReqId, int>)
    requires FollowsLabels(rids, labels, |rids|, zoneOf) && rids != [] && forall r :: r in rids ==> r in p.options
    ensures zoneOf.Keys == Elements(rids) && zoneOf.Keys <= p.options.Keys && zoneOf.Keys != {}
  {
    assert rids[..|rids|] == rids;
    assert rids[0] in zoneOf.Keys;
  }

  /** Splits along components, then merges what became too small. */
  method Reshape(p: Problem, reqComp: map<ReqId, int>, zones0: map<int, Zone>, ghost lab: map<ReqId, int>, threshold: int)
    returns (zones: map<int, Zone>, ghost zoneOf: map<ReqId, int>)
    requires Holds(p, lab, zones0) && Occupied(zones0) && lab.Keys <= p.options.Keys && ComponentsKnown(p, reqComp)
    ensures Holds(p, zoneOf, zones) && Occupied(zones) && zoneOf.Keys == lab.Keys && Shaped(p, lab, threshold, zoneOf)
    ensures forall k :: k in zones ==> OneComponent(p, zones[k])
    ensures Tidy(p, zones, threshold)
  {
    var next := NextId(zones0.Keys);
    ghost var parted;
    zones, parted := SplitZones(p, reqComp, zones0, next, lab);
    var small := SmallZones(p, reqComp, zones, threshold, parted);
    zones, zoneOf := MergeZones(p, small, threshold, zones, parted);
    PartedAndMended(p, lab, parted, zoneOf, threshold);
  }

  /** The requirements of the chunk of `r` that lie in its component. */
  ghost function Piece(p: Problem, lab: map<ReqId, int>, r: ReqId): set<ReqId>
    requires r in lab
  {
    set x | x in lab && lab[x] == lab[r] && p.Comp(x) == p.Comp(r)
  }

  /** In one component, and in one chunk or both in pieces of chunks below the threshold. */
  ghost predicate Together(p: Problem, lab: map<ReqId, int>, threshold: int, x: ReqId, y: ReqId)
    requires x in lab && y in lab
  {
    && p.Comp(x) == p.Comp(y)
    && (lab[x] == lab[y] || (|Piece(p, lab, x)| < threshold && |Piece(p, lab, y)| < threshold))
  }

  /** A requirement whose whole chunk lies in its component and is not below the threshold. */
  ghost predicate InWholeChunk(p: Problem, lab: map<ReqId, int>, threshold: int, x: ReqId)
    requires x in lab
  {
    Unbroken(p, lab, lab[x]) && |Piece(p, lab, x)| >= threshold
  }

  /** The zones are told by chunks and components alone; whole chunks keep their numbers. */
  ghost predicate Shaped(p: Problem, lab: map<ReqId, int>, threshold: int, zoneOf: map<ReqId, int>) {
    forall k {:trigger Recall(Zoning, k)} :: Recall(Zoning, k) ==> ShapedFacts(p, lab, threshold, zoneOf)
  }

  ghost predicate ShapedFacts(p: Problem, lab: map<ReqId, int>, threshold: int, zoneOf: map<ReqId, int>) {
    && zoneOf.Keys == lab.Keys
    && (forall x, y :: x in lab && y in lab ==> (zoneOf[x] == zoneOf[y] <==> Together(p, lab, threshold, x, y)))
    && (forall x :: x in lab && InWholeChunk(p, lab, threshold, x) ==> zoneOf[x] == lab[x])
  }

  lemma PartedAndMended(p: Problem, lab: map<ReqId, int>, parted: map<ReqId, int>, zoneOf: map<ReqId, int>, threshold: int)
    requires Parted(p, lab, parted) && Mended(p, parted, zoneOf, threshold)
    ensures Shaped(p, lab, threshold, zoneOf)
  {
    forall x | x in lab
      ensures InWholeChunk(p, lab, threshold, x) ==> zoneOf[x] == lab[x]
    {
      KeepsNumber(p, lab, parted, zoneOf, threshold, x);
    }
    forall x, y | x in lab && y in lab
      ensures zoneOf[x] == zoneOf[y] <==> Together(p, lab, threshold, x, y)
    {
      PairShaped(p, lab, parted, zoneOf, threshold, x, y);
    }
  }

  lemma KeepsNumber(p: Problem, lab: map<ReqId, int>, parted: map<ReqId, int>, zoneOf: map<ReqId, int>, threshold: int, x: ReqId)
    requires Parted(p, lab, parted) && Mended(p, parted, zoneOf, threshold) && x in lab
    ensures x in zoneOf && (InWholeChunk(p, lab, threshold, x) ==> zoneOf[x] == lab[x])
  {
    assert BelowThreshold(parted, threshold, x) == (|Piece(p, lab, x)| < threshold) by {
      PieceIsZone(p, lab, parted, x);
    }
  }

  lemma PairShaped(p: Problem, lab: map<ReqId, int>, parted: map<ReqId, int>, zoneOf: map<ReqId, int>, threshold: int, x: ReqId, y: ReqId)
    requires Parted(p, lab, parted) && Mended(p, parted, zoneOf, threshold) && x in lab && y in lab
    ensures x in zoneOf && y in zoneOf && (zoneOf[x] == zoneOf[y] <==> Together(p, lab, threshold, x, y))
  {
    assert BelowThreshold(parted, threshold, x) == (|Piece(p, lab, x)| < threshold) by {
      PieceIsZone(p, lab, parted, x);
    }
    assert BelowThreshold(parted, threshold, y) == (|Piece(p, lab, y)| < threshold) by {
      PieceIsZone(p, lab, parted, y);
    }
    assert zoneOf[x] == zoneOf[y] <==> parted[x] == parted[y] || MendsAt(p, parted, threshold, x, y);
  }

  lemma PieceIsZone(p: Problem, lab: map<ReqId, int>, parted: map<ReqId, int>, x: ReqId)
    requires Parted(p, lab, parted) && x in lab
    ensures Piece(p, lab, x) == Members(parted, parted[x])
  {
  }

  method NextId(ids: set<int>) returns (next: int)
    ensures forall k :: k in ids ==> k < next
  {
    next := 0;
    var left := ids;
    while left != {}
      invariant left <= ids && forall k :: k in ids && k !in left ==> k < next
      decreases left
    {
      var k := Pick(left);
      left := left - {k};
      if k >= next {
        next := k + 1;
      }
    }
  }

  method Finish(p: Problem, zones0: map<int, Zone>, points: map<ReqId, Point>, ghost zoneOf0: map<ReqId, int>, ghost threshold: int)
    returns (zones: map<int, Zone>, ghost zoneOf: map<ReqId, int>)
    requires Holds(p, zoneOf0, zones0) && zoneOf0.Keys <= p.options.Keys && zoneOf0.Keys != {}
    requires Tidy(p, zones0, threshold) && forall k :: k in zones0 ==> OneComponent(p, zones0[k])
    requires points.Keys == zoneOf0.Keys
    ensures Holds(p, zoneOf, zones) && zoneOf.Keys == p.options.Keys && AddsRest(p, zoneOf0, zoneOf) && zones.Keys == zones0.Keys
    ensures forall k :: k in zones ==> Centred(zones[k], points)
    ensures zoneOf0.Keys == p.options.Keys ==>
              Tidy(p, zones, threshold) && forall k :: k in zones ==> OneComponent(p, zones[k])
  {
    var placed := PlaceZones(zones0, points);
    PlacedHolds(p, zoneOf0, zones0, placed);
    TidyPlaced(p, zones0, placed, threshold);
    zones, zoneOf := AssignRest(p, placed, points, zoneOf0);
  }

  /** `sorted` lists the located requirements by midpoint, by x and then by y. */
  ghost predicate SortedByMidpoint(p: Problem, xy: map<Node, Point>, sorted: seq<ReqId>) {
    && Distinct(sorted) && Elements(sorted) == Located(p, xy) && (forall i :: 0 <= i < |sorted| ==> sorted[i] in Located(p, xy))
    && (forall i, j :: 0 <= i < j < |sorted| ==> AtMost(Midpoints(p, xy)[sorted[i]], Midpoints(p, xy)[sorted[j]]))
  }

  /** The list is cut into `n` chunks of equal size, the last one with the rest. */
  ghost predicate CutInto(sorted: seq<ReqId>, lab: map<ReqId, int>, n: nat)
    requires n > 0
  {
    && lab.Keys == Elements(sorted)
    && (forall i :: 0 <= i < |sorted| ==> sorted[i] in lab && lab[sorted[i]] == ChunkOf(i, ChunkSize(|sorted|, n), n))
  }

  /** The zones come from cutting the located requirements, sorted by midpoint, into `n` chunks. */
  ghost predicate DividedByMidpoint(p: Problem, xy: map<Node, Point>, n: nat, threshold: int, zones: seq<Zone>)
    requires n > 0
  {
    exists sorted, lab :: SortedByMidpoint(p, xy, sorted) && CutInto(sorted, lab, n) && Follows(p, lab, threshold, zones)
  }

  lemma LabelsCut(p: Problem, xy: map<Node, Point>, rids: seq<ReqId>, points: seq<Point>, labels: seq<int>, n: nat,
                  lab: map<ReqId, int>) returns (sorted: seq<ReqId>)
    requires n > 0 && Surveyed(p, xy, rids, points) && Elements(rids) == Located(p, xy)
    requires |labels| == |points| && Chunked(points, labels, n) && FollowsLabels(rids, labels, |rids|, lab)
    ensures SortedByMidpoint(p, xy, sorted) && CutInto(sorted, lab, n)
  {
    var order :| ChunkedBy(points, labels, n, order);
    sorted := seq(|order|, i requires 0 <= i < |order| => rids[order[i]]);
    Relisted(rids, order, sorted);
    MidpointsAt(p, xy, rids, points);
    SortedCut(rids, labels, n, lab, order, sorted);
  }

  lemma SortedCut(rids: seq<ReqId>, labels: seq<int>, n: nat, lab: map<ReqId, int>, order: seq<int>, sorted: seq<ReqId>)
    requires n > 0 && FollowsLabels(rids, labels, |rids|, lab) && |sorted| == |order| == |rids| && Elements(sorted) == Elements(rids)
    requires Painted(order, labels, |order|, ChunkSize(|rids|, n), n)
    requires forall i :: 0 <= i < |order| ==> sorted[i] == rids[order[i]]
    ensures CutInto(sorted, lab, n)
  {
    assert rids[..|rids|] == rids;
  }

  lemma MidpointsAt(p: Problem, xy: map<Node, Point>, rids: seq<ReqId>, points: seq<Point>)
    requires Surveyed(p, xy, rids, points)
    ensures forall i :: 0 <= i < |rids| ==> rids[i] in Located(p, xy) && Midpoints(p, xy)[rids[i]] == points[i]
  {
    forall i | 0 <= i < |rids|
      ensures rids[i] in Located(p, xy) && Midpoints(p, xy)[rids[i]] == points[i]
    {
      assert SurveyedAt(p, xy, rids[i], points[i]);
    }
  }

  lemma Relisted<T>(list: seq<T>, order: seq<int>, sorted: seq<T>)
    requires |order| == |list| == |sorted| && Distinct(order) && Distinct(list) && forall x :: 0 <= x < |list| ==> x in order
    requires forall i :: 0 <= i < |order| ==> 0 <= order[i] < |list| && sorted[i] == list[order[i]]
    ensures Distinct(sorted) && Elements(sorted) == Elements(list)
  {
    forall x | x in list
      ensures x in sorted
    {
      var k :| 0 <= k < |list| && list[k] == x;
      assert k in order;
      var i :| 0 <= i < |order| && order[i] == k;
      assert sorted[i] == x;
    }
  }

  method DecomposeIntoZones(p: Problem, xy: map<Node, Point>, maxZoneSize: int) returns (r: Option<seq<Zone>>)
    requires p.Valid()
    ensures r.None? <==> |p.order| > maxZoneSize &&
                         (maxZoneSize == 0 || 0 < |Located(p, xy)| < ZoneCount(|p.order|, maxZoneSize) - 1)
    ensures r.Some? ==> Partitions(p, r.value)
    ensures r.Some? && (|p.order| <= maxZoneSize || |Located(p, xy)| == 0) ==> |r.value| == 1
    ensures r.Some? && |p.order| > maxZoneSize && |Located(p, xy)| > 0 ==>
              && DividedByMidpoint(p, xy, ZoneCount(|p.order|, maxZoneSize), Larger(10, maxZoneSize / 4), r.value)
              && AllCentred(r.value, Midpoints(p, xy))
    ensures r.Some? && |p.order| > maxZoneSize && Located(p, xy) == p.options.Keys ==>
              AllOneComponent(p, r.value) && TidyList(p, r.value, Larger(10, maxZoneSize / 4))
  {
    WholePartitions(p);
    if |p.order| <= maxZoneSize {
      return Some([WholeZone(p)]);
    }
    if maxZoneSize == 0 {
      return None;  // the division by the zone size fails
    }
    var rids, points := CollectMidpoints(p, xy);
    SurveyCount(p, xy, rids);
    if points == [] {
      assert p.order == [] ==> Within(p, WholeZone(p), 0);
      return Some([WholeZone(p)]);
    }
    var nZones, threshold := ZoneNumbers(|p.order|, maxZoneSize);
    r := DivideZones(p, xy, rids, points, nZones, threshold);
  }

  /** How many chunks to cut, and below which size zones are merged. */
  method ZoneNumbers(n: nat, maxZoneSize: int) returns (nZones: nat, threshold: int)
    requires maxZoneSize != 0
    ensures nZones == ZoneCount(n, maxZoneSize) && threshold == Larger(10, maxZoneSize / 4)
  {
    var quotient := if maxZoneSize > 0 then (n + maxZoneSize - 1) / maxZoneSize else 0;
    nZones := if quotient > 2 then quotient else 2;
    threshold := if maxZoneSize / 4 > 10 then maxZoneSize / 4 else 10;
  }

  /** Cuts the surveyed requirements into chunks and makes zones of them. */
  method DivideZones(p: Problem, ghost xy: map<Node, Point>, rids: seq<ReqId>, points: seq<Point>, nZones: nat, threshold: int)
    returns (r: Option<seq<Zone>>)
    requires p.Valid() && Surveyed(p, xy, rids, points) && Elements(rids) == Located(p, xy) && points != [] && nZones >= 2
    ensures r.None? <==> |points| < nZones - 1
    ensures r.Some? ==> Partitions(p, r.value) && DividedByMidpoint(p, xy, nZones, threshold, r.value)
    ensures r.Some? ==> AllCentred(r.value, Midpoints(p, xy))
    ensures r.Some? && Located(p, xy) == p.options.Keys ==> TidyList(p, r.value, threshold) && AllOneComponent(p, r.value)
  {
    var labels := ChunkLabels(points, nZones);
    if labels.None? {
      return None;
    }
    var reqComp := RequirementComponents(p);
    var zones; ghost var lab;
    zones, lab := AssembleZones(p, xy, reqComp, rids, points, labels.value, threshold);
    ghost var sorted := LabelsCut(p, xy, rids, points, labels.value, nZones, lab);
    r := Some(zones);
  }

  ghost function Larger(a: int, b: int): int {
    if a < b then b else a
  }

  lemma SurveyCount(p: Problem, xy: map<Node, Point>, rids: seq<ReqId>)
    requires p.Listed() && Distinct(rids) && Elements(rids) == Located(p, xy)
    ensures |rids| == |Located(p, xy)| && forall r :: r in rids ==> r in p.options
    ensures p.order == [] ==> forall r :: r !in p.options
    ensures rids == [] && p.order != [] ==> Located(p, xy) != p.options.Keys
  {
    DistinctCount(rids);
    assert forall r :: r in rids ==> r in Elements(rids);
    if p.order != [] {
      assert p.order[0] in p.order && p.order[0] in p.options.Keys;
    }
  }

  // ----- A connected area ---------------------------------------------------------------------

  /** The number of zones is the least that fits the size, or two. */
  lemma ZonesNeeded(n: nat, maxZoneSize: int)
    ensures ZoneCount(n, maxZoneSize) >= 2 && (maxZoneSize <= 0 ==> ZoneCount(n, maxZoneSize) == 2)
    ensures maxZoneSize > 0 ==> ZoneCount(n, maxZoneSize) * maxZoneSize >= n
    ensures maxZoneSize > 0 ==> ZoneCount(n, maxZoneSize) == 2 || (ZoneCount(n, maxZoneSize) - 1) * maxZoneSize < n
  {
    if maxZoneSize > 0 {
      var k := (n + maxZoneSize - 1) / maxZoneSize;
      assert k * maxZoneSize <= n + maxZoneSize - 1 < k * maxZoneSize + maxZoneSize;
      assert (k - 1) * maxZoneSize == k * maxZoneSize - maxZoneSize;
      if k < 2 {
        ChunkOrder(k, 2, maxZoneSize);
      }
    }
  }

  /** From zone size 20 on, the chunks of a divided area are never below the merge threshold. */
  lemma ChunksReachThreshold(n: nat, maxZoneSize: int)
    requires maxZoneSize >= 20 && n > maxZoneSize
    ensures n / ZoneCount(n, maxZoneSize) >= Larger(10, maxZoneSize / 4)
  {
    ZonesNeeded(n, maxZoneSize);
    var k, t := ZoneCount(n, maxZoneSize), Larger(10, maxZoneSize / 4);
    assert k * maxZoneSize < 2 * n by {
      assert (k - 1) * maxZoneSize == k * maxZoneSize - maxZoneSize;
    }
    TwiceFits(k, t, maxZoneSize);
    assert t * k <= n;
    Quotient(n, t, k);
  }

  lemma TwiceFits(k: nat, t: nat, size: nat)
    requires 2 * t <= size
    ensures 2 * (t * k) <= k * size
  {
    ChunkOrder(2 * t, size, k);
  }

  /** Of the sorted requirements, zone `k` has those of the `k`-th of `n` equal runs, the last with the rest. */
  ghost predicate HoldsRun(sorted: seq<ReqId>, n: nat, k: nat, z: Zone)
    requires n > 0
  {
    && z.id == k
    && forall i :: 0 <= i < |sorted| ==> (sorted[i] in z.reqs <==> InRun(i, |sorted| / n, n, k))
  }

  ghost predicate InRun(i: nat, size: nat, n: nat, k: nat) {
    k * size <= i && (k < n - 1 ==> i < (k + 1) * size)
  }

  ghost predicate EvenlyDivided(p: Problem, xy: map<Node, Point>, n: nat, zones: seq<Zone>)
    requires n > 0
  {
    exists sorted :: SortedByMidpoint(p, xy, sorted) && DividedInRuns(sorted, n, zones)
  }

  ghost predicate DividedInRuns(sorted: seq<ReqId>, n: nat, zones: seq<Zone>)
    requires n > 0
  {
    |zones| == n && forall k :: 0 <= k < n ==> HoldsRun(sorted, n, k, zones[k])
  }

  ghost predicate LocatedInOne(p: Problem, xy: map<Node, Point>) {
    forall x, y :: x in Located(p, xy) && y in Located(p, xy) ==> p.Comp(x) == p.Comp(y)
  }

  /**
   If all located requirements lie in one component and the chunks are not below the merge
   threshold, there are exactly as many zones as chunks, and each holds its run of the sorted
   midpoints.
   */
  lemma EvenZones(p: Problem, xy: map<Node, Point>, n: nat, threshold: int, zones: seq<Zone>)
    requires n > 0 && threshold > 0 && Partitions(p, zones) && DividedByMidpoint(p, xy, n, threshold, zones)
    requires LocatedInOne(p, xy) && |Located(p, xy)| / n >= threshold
    ensures EvenlyDivided(p, xy, n, zones)
  {
    var sorted, lab :| SortedByMidpoint(p, xy, sorted) && CutInto(sorted, lab, n) && Follows(p, lab, threshold, zones);
    DistinctCount(sorted);
    var size := |sorted| / n;
    LabelledByRuns(sorted, lab, n, size);
    ChunksAreWhole(p, sorted, lab, n, size, threshold);
    ZonesAreLabels(p, lab, threshold, zones, n);
    LabelsAreRuns(p, sorted, lab, n, size, zones);
  }

  /** All labels are those of the runs, and every run has its full size. */
  ghost predicate ByRuns(sorted: seq<ReqId>, lab: map<ReqId, int>, n: nat, size: nat) {
    && Distinct(sorted) && lab.Keys == Elements(sorted) && n * size <= |sorted| && size > 0
    && (forall i :: 0 <= i < |sorted| ==> LabelledAt(sorted, lab, n, size, i))
  }

  ghost predicate LabelledAt(sorted: seq<ReqId>, lab: map<ReqId, int>, n: nat, size: nat, i: nat)
    requires i < |sorted|
  {
    sorted[i] in lab && 0 <= lab[sorted[i]] < n && forall k: nat :: k < n ==> (lab[sorted[i]] == k <==> InRun(i, size, n, k))
  }

  lemma LabelledByRuns(sorted: seq<ReqId>, lab: map<ReqId, int>, n: nat, size: nat)
    requires n > 0 && Distinct(sorted) && CutInto(sorted, lab, n) && size == |sorted| / n && size > 0
    ensures ByRuns(sorted, lab, n, size)
  {
    assert n * size <= |sorted|;
    forall i | 0 <= i < |sorted|
      ensures LabelledAt(sorted, lab, n, size, i)
    {
      assert lab[sorted[i]] == ChunkOf(i, size, n);
      forall k: nat | k < n
        ensures ChunkOf(i, size, n) == k <==> InRun(i, size, n, k)
      {
        RunIsChunk(i, size, n, k);
      }
      ChunksAscend(i, i, size, n);
    }
  }

  lemma RunIsChunk(i: nat, size: nat, n: nat, k: nat)
    requires size > 0 && k < n
    ensures ChunkOf(i, size, n) == k <==> InRun(i, size, n, k)
  {
    if InRun(i, size, n, k) {
      ChunkIs(i, k, size, n);
    }
    if ChunkOf(i, size, n) == k {
      var q := i / size;
      assert q * size <= i < q * size + size && (q + 1) * size == q * size + size;
      ChunkOrder(k, q, size);
    }
  }

  /** The requirements of a run, all labelled with it. */
  lemma RunCounts(sorted: seq<ReqId>, lab: map<ReqId, int>, n: nat, size: nat, k: nat)
    requires ByRuns(sorted, lab, n, size) && k < n
    ensures |Members(lab, k)| >= size && 0 <= k * size < |sorted| && InRun(k * size, size, n, k)
  {
    ChunkOrder(k + 1, n, size);
    assert (k + 1) * size == k * size + size;
    forall i | k * size <= i < (k + 1) * size
      ensures sorted[i] in Members(lab, k)
    {
      assert LabelledAt(sorted, lab, n, size, i) && InRun(i, size, n, k);
    }
    SliceFits(sorted, k * size, (k + 1) * size, Members(lab, k));
  }

  /** A set with all elements of a slice is no smaller than the slice. */
  lemma SliceFits<T>(s: seq<T>, a: nat, b: nat, z: set<T>)
    requires Distinct(s) && a <= b <= |s| && forall i :: a <= i < b ==> s[i] in z
    ensures |z| >= b - a
  {
    var run := s[a..b];
    DistinctCount(run);
    assert forall x :: x in Elements(run) ==> x in z;
    SubsetCount(Elements(run), z);
  }

  /** A set with exactly the elements of a slice. */
  lemma SliceCount<T>(s: seq<T>, a: nat, b: nat, z: set<T>)
    requires Distinct(s) && a <= b <= |s| && z <= Elements(s) && forall i :: 0 <= i < |s| ==> (s[i] in z <==> a <= i < b)
    ensures |z| == b - a
  {
    var run := s[a..b];
    DistinctCount(run);
    forall x | x in z
      ensures x in run
    {
      assert x in Elements(s);
      var i :| 0 <= i < |s| && s[i] == x;
      assert run[i - a] == x;
    }
    assert Elements(run) == z;
  }

  ghost predicate Used(lab: map<ReqId, int>, k: int) {
    exists x :: x in lab && lab[x] == k
  }

  lemma ChunksAreWhole(p: Problem, sorted: seq<ReqId>, lab: map<ReqId, int>, n: nat, size: nat, threshold: int)
    requires ByRuns(sorted, lab, n, size) && size >= threshold && forall x, y :: x in lab && y in lab ==> p.Comp(x) == p.Comp(y)
    ensures forall x :: x in lab ==> 0 <= lab[x] < n && InWholeChunk(p, lab, threshold, x)
    ensures forall k :: 0 <= k < n ==> Used(lab, k)
  {
    forall x | x in lab
      ensures 0 <= lab[x] < n && InWholeChunk(p, lab, threshold, x)
    {
      assert x in Elements(sorted);
      var i :| 0 <= i < |sorted| && sorted[i] == x;
      assert LabelledAt(sorted, lab, n, size, i);
      RunCounts(sorted, lab, n, size, lab[x]);
      assert Piece(p, lab, x) == Members(lab, lab[x]);
    }
    forall k | 0 <= k < n
      ensures Used(lab, k)
    {
      RunCounts(sorted, lab, n, size, k);
      assert LabelledAt(sorted, lab, n, size, k * size);
      assert lab[sorted[k * size]] == k;
    }
  }

  /** Whole chunks alone: there is one zone for each label, in order. */
  lemma ZonesAreLabels(p: Problem, lab: map<ReqId, int>, threshold: int, zones: seq<Zone>, n: nat)
    requires Partitions(p, zones) && Follows(p, lab, threshold, zones) && lab.Keys <= p.options.Keys
    requires forall x :: x in lab ==> 0 <= lab[x] < n && InWholeChunk(p, lab, threshold, x)
    requires forall k :: 0 <= k < n ==> Used(lab, k)
    ensures |zones| == n
    ensures forall k :: 0 <= k < n ==> zones[k].id == k && forall x :: x in lab ==> (x in zones[k].reqs <==> lab[x] == k)
  {
    forall i | 0 <= i < |zones|
      ensures 0 <= zones[i].id < n && forall x :: x in lab ==> (x in zones[i].reqs <==> lab[x] == zones[i].id)
    {
      ZoneIsLabel(p, lab, threshold, zones, n, i);
    }
    IdsAscend(p, lab, threshold, zones);
    forall k | 0 <= k < n
      ensures HasNumber(zones, k)
    {
      var i := LabelHasZone(p, lab, zones, k);
    }
    ZonesInOrder(zones, n);
  }

  ghost predicate HasNumber(zones: seq<Zone>, k: int) {
    exists i :: 0 <= i < |zones| && zones[i].id == k
  }

  /** Zones with all numbers below `n`, in order. */
  lemma ZonesInOrder(zones: seq<Zone>, n: nat)
    requires forall i, j :: 0 <= i < j < |zones| ==> zones[i].id < zones[j].id
    requires (forall i :: 0 <= i < |zones| ==> 0 <= zones[i].id < n) && forall k :: 0 <= k < n ==> HasNumber(zones, k)
    ensures |zones| == n && forall k :: 0 <= k < n ==> zones[k].id == k
  {
    var ids := seq(|zones|, i requires 0 <= i < |zones| => zones[i].id);
    var all := seq(n, i => i);
    forall i | 0 <= i < |ids|
      ensures ids[i] in all
    {
      assert all[zones[i].id] == ids[i];
    }
    forall k | 0 <= k < n
      ensures all[k] in ids
    {
      assert HasNumber(zones, k);
      var i :| 0 <= i < |zones| && zones[i].id == k;
      assert ids[i] == k;
    }
    SameElements(ids, all);
    AscendingUnique(ids, all);
    forall k | 0 <= k < n
      ensures zones[k].id == k
    {
      assert ids[k] == all[k];
    }
  }

  lemma SameElements<T>(a: seq<T>, b: seq<T>)
    requires (forall i :: 0 <= i < |a| ==> a[i] in b) && forall i :: 0 <= i < |b| ==> b[i] in a
    ensures Elements(a) == Elements(b)
  {
  }

  lemma IdsAscend(p: Problem, lab: map<ReqId, int>, threshold: int, zones: seq<Zone>)
    requires Follows(p, lab, threshold, zones)
    ensures forall i, j :: 0 <= i < j < |zones| ==> zones[i].id < zones[j].id
  {
    assert Recall(Zoning, 0);
  }

  lemma ZoneIsLabel(p: Problem, lab: map<ReqId, int>, threshold: int, zones: seq<Zone>, n: nat, i: nat)
    requires Follows(p, lab, threshold, zones) && i < |zones|
    requires forall x :: x in lab ==> 0 <= lab[x] < n && InWholeChunk(p, lab, threshold, x)
    ensures 0 <= zones[i].id < n && forall x :: x in lab ==> (x in zones[i].reqs <==> lab[x] == zones[i].id)
  {
    assert Recall(Zoning, 0);
    assert HasLabelled(lab, zones[i]);
    var x :| x in zones[i].reqs && x in lab;
    assert HoldsCompanions(p, lab, threshold, zones[i], x);
    forall y | y in lab
      ensures y in zones[i].reqs <==> lab[y] == zones[i].id
    {
      assert y in zones[i].reqs <==> Together(p, lab, threshold, x, y);
    }
  }

  lemma LabelHasZone(p: Problem, lab: map<ReqId, int>, zones: seq<Zone>, k: int) returns (i: nat)
    requires Partitions(p, zones) && lab.Keys <= p.options.Keys && Used(lab, k)
    requires forall i, x :: 0 <= i < |zones| && x in lab ==> (x in zones[i].reqs <==> lab[x] == zones[i].id)
    ensures i < |zones| && zones[i].id == k
  {
    var x :| x in lab && lab[x] == k;
    assert x in p.options;
    i :| 0 <= i < |zones| && x in zones[i].reqs;
  }

  lemma LabelsAreRuns(p: Problem, sorted: seq<ReqId>, lab: map<ReqId, int>, n: nat, size: nat, zones: seq<Zone>)
    requires n > 0 && ByRuns(sorted, lab, n, size) && size == |sorted| / n && |zones| == n
    requires forall k :: 0 <= k < n ==> zones[k].id == k && forall x :: x in lab ==> (x in zones[k].reqs <==> lab[x] == k)
    ensures DividedInRuns(sorted, n, zones)
  {
    forall k, i | 0 <= k < n && 0 <= i < |sorted|
      ensures sorted[i] in zones[k].reqs <==> InRun(i, size, n, k)
    {
      assert LabelledAt(sorted, lab, n, size, i);
    }
  }

  /**
   A connected area with all coordinates and a zone size of 20 or more is divided into exactly
   `max(2, ceil(n / size))` zones, all of the same size but the last.
   */
  lemma ConnectedArea(p: Problem, xy: map<Node, Point>, maxZoneSize: int, zones: seq<Zone>)
    requires p.Listed() && Located(p, xy) == p.options.Keys && LocatedInOne(p, xy) && 20 <= maxZoneSize < |p.order|
    requires Partitions(p, zones)
    requires DividedByMidpoint(p, xy, ZoneCount(|p.order|, maxZoneSize), Larger(10, maxZoneSize / 4), zones)
    ensures EvenlyDivided(p, xy, ZoneCount(|p.order|, maxZoneSize), zones)
    ensures SizedInRuns(zones, |p.order|, ZoneCount(|p.order|, maxZoneSize))
  {
    var n := ZoneCount(|p.order|, maxZoneSize);
    ChunksReachThreshold(|p.order|, maxZoneSize);
    OrderCounts(p);
    EvenZones(p, xy, n, Larger(10, maxZoneSize / 4), zones);
    RunSizes(p, xy, |p.order|, n, zones);
  }

  lemma RunSizes(p: Problem, xy: map<Node, Point>, m: nat, n: nat, zones: seq<Zone>)
    requires n > 0 && Partitions(p, zones) && EvenlyDivided(p, xy, n, zones)
    requires Located(p, xy) == p.options.Keys && |p.options.Keys| == m
    ensures SizedInRuns(zones, m, n)
  {
    var sorted :| SortedByMidpoint(p, xy, sorted) && DividedInRuns(sorted, n, zones);
    DistinctCount(sorted);
    forall k | 0 <= k < n
      ensures |zones[k].reqs.Keys| == RunLength(m, n, k)
    {
      assert Faithful(p, zones[k]);
      RunSize(sorted, n, k, zones[k]);
    }
  }

  lemma OrderCounts(p: Problem)
    requires p.Listed()
    ensures |p.options.Keys| == |p.order|
  {
    DistinctCount(p.order);
    assert Elements(p.order) == p.options.Keys;
  }

  /** The length of the `k`-th of `n` runs of `m` items. */
  ghost function RunLength(m: nat, n: nat, k: nat): int
    requires n > 0
  {
    if k < n - 1 then m / n else m - (n - 1) * (m / n)
  }

  ghost predicate SizedInRuns(zones: seq<Zone>, m: nat, n: nat)
    requires n > 0
  {
    |zones| == n && forall k :: 0 <= k < n ==> |zones[k].reqs.Keys| == RunLength(m, n, k)
  }

  /** Of `n` runs, as many as the limit asks for, only the last can exceed the limit, and by less than `n`. */
  lemma RunsFit(m: nat, n: nat, k: nat, limit: nat)
    requires k < n && m <= n * limit
    ensures k < n - 1 ==> RunLength(m, n, k) <= limit
    ensures RunLength(m, n, k) < limit + n
  {
    var size := m / n;
    assert size * n <= m < size * n + n && (n - 1) * size == size * n - size;
    assert (limit + 1) * n == n * limit + n;
    ChunkOrder(limit + 1, if size > limit then size else limit + 1, n);
  }

  /** And it can: 399 requirements and zone size 20 leave 38 for the last zone. */
  lemma LastRunExceeds()
    ensures RunLength(399, ZoneCount(399, 20), 19) == 38
  {
  }

  lemma RunSize(sorted: seq<ReqId>, n: nat, k: nat, z: Zone)
    requires n > 0 && k < n && Distinct(sorted) && HoldsRun(sorted, n, k, z) && z.reqs.Keys <= Elements(sorted)
    ensures |z.reqs.Keys| == RunLength(|sorted|, n, k)
  {
    var size := |sorted| / n;
    assert n * size <= |sorted|;
    ChunkOrder(k + 1, n, size);
    assert (k + 1) * size == k * size + size;
    var end := if k < n - 1 then (k + 1) * size else |sorted|;
    SliceCount(sorted, k * size, end, z.reqs.Keys);
  }

  // ----- Ordering -----------------------------------------------------------------------------

  ghost function SquaredDistance(z: Zone, at: Point): real {
    (z.cx - at.x) * (z.cx - at.x) + (z.cy - at.y) * (z.cy - at.y)
  }

  /** `ordered` lists the zones at the positions `perm`. */
  ghost predicate PermutedBy(zones: seq<Zone>, ordered: seq<Zone>, perm: seq<int>) {
    && |ordered| == |zones| == |perm|
    && (forall i :: 0 <= i < |perm| ==> 0 <= perm[i] < |zones| && ordered[i] == zones[perm[i]])
    && (forall i, j :: 0 <= i < j < |perm| ==> perm[i] != perm[j])
    && (forall k :: 0 <= k < |zones| ==> k in perm)
  }

  ghost predicate Permutes(zones: seq<Zone>, ordered: seq<Zone>) {
    exists perm :: PermutedBy(zones, ordered, perm)
  }

  /** A permutation of a partition is a partition. */
  lemma PermutedPartition(p: Problem, zones: seq<Zone>, ordered: seq<Zone>)
    requires Partitions(p, zones) && Permutes(zones, ordered)
    ensures Partitions(p, ordered)
  {
    var perm :| PermutedBy(zones, ordered, perm);
    forall r | r in p.options
      ensures exists i :: 0 <= i < |ordered| && r in ordered[i].reqs
    {
      var k :| 0 <= k < |zones| && r in zones[k].reqs;
      StillListed(zones, ordered, perm, k, r);
    }
    StillSeparate(zones, ordered, perm);
  }

  lemma StillListed(zones: seq<Zone>, ordered: seq<Zone>, perm: seq<int>, k: nat, r: ReqId)
    requires PermutedBy(zones, ordered, perm) && k < |zones| && r in zones[k].reqs
    ensures exists i :: 0 <= i < |ordered| && r in ordered[i].reqs
  {
    assert k in perm;
    var i :| 0 <= i < |perm| && perm[i] == k;
    assert r in ordered[i].reqs;
  }

  lemma StillSeparate(zones: seq<Zone>, ordered: seq<Zone>, perm: seq<int>)
    requires PermutedBy(zones, ordered, perm) && Separate(zones)
    ensures Separate(ordered)
  {
    forall i, j, r | 0 <= i < j < |ordered| && r in ordered[i].reqs
      ensures r !in ordered[j].reqs
    {
      assert perm[i] < perm[j] || perm[j] < perm[i];
    }
  }

  /** Where the ordering sets out from. */
  function Origin(zones: seq<Zone>, start: Option<Point>): Point {
    if start.Some? then start.value else if zones == [] then Point(0.0, 0.0) else Point(zones[0].cx, zones[0].cy)
  }

  /** Each zone is nearest, among those still to come, to the one before it. */
  ghost predicate NearestNext(ordered: seq<Zone>, origin: Point) {
    forall i, j :: 0 <= i < j < |ordered| ==>
      SquaredDistance(ordered[i], From(ordered, origin, i)) <= SquaredDistance(ordered[j], From(ordered, origin, i))
  }

  ghost function From(ordered: seq<Zone>, origin: Point, i: int): Point {
    if 0 < i <= |ordered| then Point(ordered[i - 1].cx, ordered[i - 1].cy) else origin
  }

  method NearestZone(zones: seq<Zone>, at: Point) returns (best: nat)
    requires zones != []
    ensures best < |zones|
    ensures forall i :: 0 <= i < |zones| ==> SquaredDistance(zones[best], at) <= SquaredDistance(zones[i], at)
  {
    best := 0;
    var least := 0.0;
    for i := 0 to |zones|
      invariant best < |zones| && (i > 0 ==> best < i && least == SquaredDistance(zones[best], at))
      invariant forall k :: 0 <= k < i ==> SquaredDistance(zones[best], at) <= SquaredDistance(zones[k], at)
    {
      var dx, dy := zones[i].cx - at.x, zones[i].cy - at.y;
      if i == 0 || dx * dx + dy * dy < least {
        best, least := i, dx * dx + dy * dy;
      }
    }
  }

  /** `perm` and `rest` tell apart the zones listed so far and those still to come. */
  ghost predicate Choosing(zones: seq<Zone>, ordered: seq<Zone>, perm: seq<int>, remaining: seq<Zone>, rest: seq<int>) {
    && |ordered| == |perm| && |remaining| == |rest| && |perm| + |rest| == |zones|
    && (forall i :: 0 <= i < |perm| ==> 0 <= perm[i] < |zones| && ordered[i] == zones[perm[i]] && perm[i] !in rest)
    && (forall i :: 0 <= i < |rest| ==> 0 <= rest[i] < |zones| && remaining[i] == zones[rest[i]])
    && Distinct(perm) && Distinct(rest)
    && (forall k :: 0 <= k < |zones| ==> k in perm || k in rest)
  }

  function Without<T>(s: seq<T>, k: nat): (r: seq<T>)
    requires k < |s|
    ensures |r| == |s| - 1 && forall i :: 0 <= i < |r| ==> r[i] == if i < k then s[i] else s[i + 1]
  {
    s[..k] + s[k + 1..]
  }

  lemma WithoutRest<T>(s: seq<T>, k: nat)
    requires k < |s| && Distinct(s)
    ensures Distinct(Without(s, k)) && s[k] !in Without(s, k)
    ensures forall x :: x in s <==> x == s[k] || x in Without(s, k)
  {
    var r := Without(s, k);
    forall x | x in s && x != s[k]
      ensures x in r
    {
      var i :| 0 <= i < |s| && s[i] == x;
      assert r[if i < k then i else i - 1] == x;
    }
    forall x | x in r
      ensures x in s
    {
      var i :| 0 <= i < |r| && r[i] == x;
      assert s[if i < k then i else i + 1] == x;
    }
  }

  lemma ChoosingStep(zones: seq<Zone>, ordered: seq<Zone>, perm: seq<int>, remaining: seq<Zone>, rest: seq<int>, best: nat)
    requires Choosing(zones, ordered, perm, remaining, rest) && best < |remaining|
    ensures Choosing(zones, ordered + [remaining[best]], perm + [rest[best]], Without(remaining, best), Without(rest, best))
  {
    WithoutRest(rest, best);
    var perm' := perm + [rest[best]];
    forall k | 0 <= k < |zones|
      ensures k in perm' || k in Without(rest, best)
    {
      assert k in perm || k in rest;
      assert k in perm ==> k in perm';
    }
    assert forall i :: 0 <= i < |perm| ==> perm'[i] == perm[i];
  }

  /** Nearest first so far, and no remaining zone would have come earlier. */
  ghost predicate Ahead(ordered: seq<Zone>, origin: Point, remaining: seq<Zone>) {
    && NearestNext(ordered, origin)
    && forall i, k :: 0 <= i < |ordered| && 0 <= k < |remaining| ==>
      SquaredDistance(ordered[i], From(ordered, origin, i)) <= SquaredDistance(remaining[k], From(ordered, origin, i))
  }

  lemma AheadStep(ordered: seq<Zone>, origin: Point, remaining: seq<Zone>, best: nat)
    requires Ahead(ordered, origin, remaining) && best < |remaining|
    requires forall i :: 0 <= i < |remaining| ==>
               SquaredDistance(remaining[best], From(ordered, origin, |ordered|))
               <= SquaredDistance(remaining[i], From(ordered, origin, |ordered|))
    ensures Ahead(ordered + [remaining[best]], origin, Without(remaining, best))
  {
    var after, left := ordered + [remaining[best]], Without(remaining, best);
    assert forall i :: 0 <= i <= |ordered| ==> From(after, origin, i) == From(ordered, origin, i);
  }

  method OrderZones(zones: seq<Zone>, start: Option<Point>) returns (ordered: seq<Zone>)
    ensures Permutes(zones, ordered)
    ensures start.Some? ==> NearestNext(ordered, start.value)
    ensures start.None? && zones != [] ==> NearestNext(ordered, Point(zones[0].cx, zones[0].cy))
  {
    if |zones| <= 1 {
      ordered := zones;
      ghost var perm := if zones == [] then [] else [0];
      assert PermutedBy(zones, ordered, perm);
      return;
    }
    ordered := [];
    var remaining, at := zones, Origin(zones, start);
    ghost var perm: seq<int>, rest: seq<int> := [], seq(|zones|, i => i);
    forall k | 0 <= k < |zones|
      ensures k in rest
    {
      assert rest[k] == k;
    }
    while remaining != []
      invariant Choosing(zones, ordered, perm, remaining, rest)
      invariant at == From(ordered, Origin(zones, start), |ordered|)
      invariant Ahead(ordered, Origin(zones, start), remaining)
      decreases |remaining|
    {
      var best := NearestZone(remaining, at);
      ChoosingStep(zones, ordered, perm, remaining, rest, best);
      AheadStep(ordered, Origin(zones, start), remaining, best);
      perm, rest := perm + [rest[best]], Without(rest, best);
      ordered, at := ordered + [remaining[best]], Point(remaining[best].cx, remaining[best].cy);
      remaining := Without(remaining, best);
    }
    assert PermutedBy(zones, ordered, perm);
  }
}
