/** Iterating over sets, Python's `sorted` applied to a set of integers, and counting. */
module Sorting {

  ghost predicate Ascending(s: seq<int>) {
    forall i, j :: 0 <= i < j < |s| ==> s[i] < s[j]
  }

  ghost predicate Distinct<T>(s: seq<T>) {
    forall i, j :: 0 <= i < j < |s| ==> s[i] != s[j]
  }

  ghost function Elements<T>(s: seq<T>): set<T> {
    set x | x in s
  }

  /** Some element; which one is left open, as the order of a Python set is. */
  method Pick<T>(s: set<T>) returns (x: T)
    requires s != {}
    ensures x in s
  {
    x :| x in s;
  }

  method LeastOf(s: set<int>) returns (least: int)
    requires s != {}
    ensures least in s && forall x :: x in s ==> least <= x
  {
    least := Pick(s);
    var left := s - {least};
    while left != {}
      invariant left <= s && least in s
      invariant forall x :: x in s && x !in left ==> least <= x
      decreases left
    {
      var x := Pick(left);
      left := left - {x};
      if x < least {
        least := x;
      }
    }
  }

  method Sorted(s: set<int>) returns (r: seq<int>)
    ensures Ascending(r) && Elements(r) == s
  {
    r := [];
    var left := s;
    while left != {}
      invariant left <= s && Ascending(r) && Elements(r) == s - left
      invariant forall i, x :: 0 <= i < |r| && x in left ==> r[i] < x
      decreases left
    {
      var x := LeastOf(left);
      assert Elements(r + [x]) == Elements(r) + {x};
      left := left - {x};
      r := r + [x];
    }
  }

  lemma {:induction false} DistinctCount<T>(s: seq<T>)
    requires Distinct(s)
    ensures |Elements(s)| == |s|
  {
    if s != [] {
      var rest := s[..|s| - 1];
      DistinctCount(rest);
      assert s == rest + [s[|s| - 1]];
      assert Elements(s) == Elements(rest) + {s[|s| - 1]};
    }
  }

  /** A subset is no larger, and smaller if it is a proper one. */
  lemma SubsetCount<T>(a: set<T>, b: set<T>)
    requires forall x :: x in a ==> x in b
    ensures |a| <= |b| && (a != b ==> |a| < |b|)
  {
    assert a <= b && b == a + (b - a);
  }

  lemma NoneIn<T>(empty: bool, s: set<T>)
    requires forall x :: x in s ==> !empty
    ensures empty ==> s == {}
  {
  }

  lemma NoElements<T>(s: seq<T>)
    ensures Elements(s) == {} <==> s == []
  {
    if s != [] {
      assert s[0] in Elements(s);
    }
  }

  /** An ascending list is determined by its elements. */
  lemma {:induction false} AscendingUnique(a: seq<int>, b: seq<int>)
    requires Ascending(a) && Ascending(b) && Elements(a) == Elements(b)
    ensures a == b
  {
    if a == [] || b == [] {
      NoElements(a);
      NoElements(b);
    } else {
      assert a[0] in Elements(a);
      assert b[0] in Elements(b);
      assert a[0] == b[0] by {
        var i :| 0 <= i < |b| && b[i] == a[0];
        var j :| 0 <= j < |a| && a[j] == b[0];
      }
      forall x
        ensures x in a[1..] <==> x in b[1..]
      {
        if x in a[1..] {
          var i :| 0 <= i < |a[1..]| && a[1..][i] == x;
          assert a[i + 1] == x && x != a[0] && x in Elements(b);
          var j :| 0 <= j < |b| && b[j] == x;
          assert b[1..][j - 1] == x;
        }
        if x in b[1..] {
          var i :| 0 <= i < |b[1..]| && b[1..][i] == x;
          assert b[i + 1] == x && x != b[0] && x in Elements(a);
          var j :| 0 <= j < |a| && a[j] == x;
          assert a[1..][j - 1] == x;
        }
      }
      AscendingUnique(a[1..], b[1..]);
    }
  }
}
