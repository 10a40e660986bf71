/**
 The nearest-road filter of segment matching: going through the candidates from near to far,
 one is dropped if an accepted road at least two metres nearer covers the same stretch.
 */
module Dominance {
  import opened Sorting

  const PARALLEL_DOMINANCE_GAP_METERS := 2.0

  datatype Candidate = Candidate(id: string, distance: real, position: real, length: real)

  function Abs(x: real): real { if x < 0.0 then -x else x }

  function Max(x: real, y: real): real { if x < y then y else x }

  ghost predicate Dominates(a: Candidate, c: Candidate) {
    && c.distance >= a.distance + 2.0
    && (c.position - a.position <= c.length || c.position - a.position <= a.length)
    && (a.position - c.position <= c.length || a.position - c.position <= a.length)
  }

  // ----- Kernels ------------------------------------------------------------------------------

  /** `kernel` holds exactly the candidates that no member of it dominates. */
  ghost predicate IsKernel(all: set<Candidate>, kernel: set<Candidate>) {
    kernel <= all && forall c :: c in all ==> (c in kernel <==> !Dominated(kernel, c))
  }

  ghost predicate Dominated(some: set<Candidate>, c: Candidate) {
    exists a :: a in some && Dominates(a, c)
  }

  lemma {:induction false} Nearest(s: set<Candidate>) returns (c: Candidate)
    requires s != {}
    ensures c in s && forall d :: d in s ==> c.distance <= d.distance
    decreases s
  {
    c :| c in s;
    var rest := s - {c};
    if rest != {} {
      var d := Nearest(rest);
      if d.distance < c.distance {
        c := d;
      }
    }
  }

  /** Every set of candidates has at most one kernel, since a road is only dominated by nearer ones. */
  lemma KernelUnique(all: set<Candidate>, k: set<Candidate>, k': set<Candidate>)
    requires IsKernel(all, k) && IsKernel(all, k')
    ensures k == k'
  {
    var diff := (k - k') + (k' - k);
    if diff != {} {
      var c := Nearest(diff);
      if c in k {
        NearestAgrees(all, k, k', c);
      } else {
        NearestAgrees(all, k', k, c);
      }
    }
  }

  lemma NearestAgrees(all: set<Candidate>, k: set<Candidate>, k': set<Candidate>, c: Candidate)
    requires IsKernel(all, k) && IsKernel(all, k') && c in k
    requires forall d :: d in k' - k ==> c.distance <= d.distance
    ensures c in k'
  {
    assert forall a :: a in k' && Dominates(a, c) ==> a in k;
  }

  // ----- The filter ---------------------------------------------------------------------------

  ghost predicate NearToFar(s: seq<Candidate>) {
    forall i, j :: 0 <= i < j < |s| ==> s[i].distance <= s[j].distance
  }

  /** Inserts behind the entries that are no farther, so that equal distances keep their order. */
  method Insert(s: seq<Candidate>, c: Candidate) returns (r: seq<Candidate>)
    requires NearToFar(s)
    ensures NearToFar(r) && multiset(r) == multiset(s) + multiset{c}
  {
    var i := |s|;
    while i > 0 && s[i - 1].distance > c.distance
      invariant 0 <= i <= |s|
      invariant forall j :: i <= j < |s| ==> c.distance < s[j].distance
    {
      i := i - 1;
    }
    r := s[..i] + [c] + s[i..];
    InsertedBag(s, i, c);
    InsertedOrder(s, i, c);
  }

  lemma InsertedBag(s: seq<Candidate>, i: nat, c: Candidate)
    requires i <= |s|
    ensures multiset(s[..i] + [c] + s[i..]) == multiset(s) + multiset{c}
  {
    assert s == s[..i] + s[i..];
  }

  lemma InsertedOrder(s: seq<Candidate>, i: nat, c: Candidate)
    requires NearToFar(s) && i <= |s|
    requires i > 0 ==> s[i - 1].distance <= c.distance
    requires i < |s| ==> c.distance <= s[i].distance
    ensures NearToFar(s[..i] + [c] + s[i..])
  {
  }

  method SortByDistance(s: seq<Candidate>) returns (r: seq<Candidate>)
    ensures NearToFar(r) && multiset(r) == multiset(s)
  {
    r := [];
    for i := 0 to |s|
      invariant NearToFar(r) && multiset(r) == multiset(s[..i])
    {
      assert s[..i + 1] == s[..i] + [s[i]];
      r := Insert(r, s[i]);
    }
    assert s[..|s|] == s;
  }

  /** Whether one of the accepted candidates dominates `c`. */
  method IsDominated(accepted: seq<Candidate>, c: Candidate) returns (dominated: bool)
    ensures dominated <==> Dominated(Elements(accepted), c)
  {
    dominated := false;
    for i := 0 to |accepted|
      invariant !dominated && forall j :: 0 <= j < i ==> !Dominates(accepted[j], c)
    {
      var a := accepted[i];
      if c.distance - a.distance < PARALLEL_DOMINANCE_GAP_METERS {
        continue;
      }
      if Abs(c.position - a.position) > Max(c.length, a.length) {
        continue;
      }
      assert a in Elements(accepted) && Dominates(a, c);
      return true;
    }
  }

  method FilterDominated(candidates: seq<Candidate>) returns (ids: seq<string>, accepted: seq<Candidate>)
    ensures IsKernel(Elements(candidates), Elements(accepted)) && NearToFar(accepted)
    ensures ids == seq(|accepted|, i requires 0 <= i < |accepted| => accepted[i].id)
  {
    var sorted := SortByDistance(candidates);
    var kept: seq<Candidate> := [];
    for i := 0 to |sorted|
      invariant IsKernel(Elements(sorted[..i]), Elements(kept)) && NearToFar(kept)
      invariant i < |sorted| ==> forall k :: 0 <= k < |kept| ==> kept[k].distance <= sorted[i].distance
    {
      var dominated := IsDominated(kept, sorted[i]);
      KernelStep(sorted, i, kept, dominated);
      if !dominated {
        kept := kept + [sorted[i]];
      }
    }
    assert sorted[..|sorted|] == sorted;
    SameElements(candidates, sorted);
    accepted := kept;
    ids := seq(|kept|, i requires 0 <= i < |kept| => kept[i].id);
  }

  lemma SameElements<T>(a: seq<T>, b: seq<T>)
    requires multiset(a) == multiset(b)
    ensures Elements(a) == Elements(b)
  {
    assert forall x :: x in a <==> x in multiset(a);
    assert forall x :: x in b <==> x in multiset(b);
  }

  /** A farther candidate dominates none of those before it, so their fate is settled. */
  lemma KernelStep(sorted: seq<Candidate>, i: nat, kept: seq<Candidate>, dominated: bool)
    requires i < |sorted| && NearToFar(sorted) && IsKernel(Elements(sorted[..i]), Elements(kept))
    requires dominated <==> Dominated(Elements(kept), sorted[i])
    ensures IsKernel(Elements(sorted[..i + 1]), Elements(if dominated then kept else kept + [sorted[i]]))
  {
    var c := sorted[i];
    var k := Elements(kept);
    var kept' := if dominated then kept else kept + [c];
    assert Elements(sorted[..i + 1]) == Elements(sorted[..i]) + {c} by {
      assert sorted[..i + 1] == sorted[..i] + [c];
    }
    assert Elements(kept') == if dominated then k else k + {c};
    forall d | d in Elements(sorted[..i]) + {c}
      ensures !Dominates(c, d)
    {
    }
    forall d | d in Elements(sorted[..i]) + {c}
      ensures d in Elements(kept') <==> !Dominated(Elements(kept'), d)
    {
      assert Dominated(Elements(kept'), d) <==> Dominated(k, d);
    }
  }

  /** What is accepted does not depend on the order in which candidates were found. */
  lemma OrderDoesNotMatter(found: seq<Candidate>, found': seq<Candidate>, accepted: seq<Candidate>, accepted': seq<Candidate>)
    requires Elements(found) == Elements(found')
    requires IsKernel(Elements(found), Elements(accepted)) && IsKernel(Elements(found'), Elements(accepted'))
    ensures Elements(accepted) == Elements(accepted')
  {
    KernelUnique(Elements(found), Elements(accepted), Elements(accepted'));
  }
}
