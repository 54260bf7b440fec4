/** Finite sets of integers in ascending order, as `std::set` and `std::map` iterate over them. */
module Ordered {

  lemma SomeElement(s: set<int>) returns (y: int)
    requires s != {}
    ensures y in s
  {
    assert (forall x :: x !in s) ==> s == {};
    y :| y in s;
  }

  lemma {:induction false} HasLeast(s: set<int>)
    requires s != {}
    ensures exists lo :: lo in s && forall x | x in s :: lo <= x
    decreases |s|
  {
    var y := SomeElement(s);
    var rest := s - {y};
    if rest == {} {
      assert s == {y};
    } else {
      HasLeast(rest);
      var lo :| lo in rest && forall x | x in rest :: lo <= x;
      assert forall x | x in s :: x == y || x in rest;
      var l := if lo <= y then lo else y;
      assert l in s && forall x | x in s :: l <= x;
    }
  }

  /** `*s.begin()`. */
  function Least(s: set<int>): (lo: int)
    requires s != {}
    ensures lo in s && forall x | x in s :: lo <= x
  {
    HasLeast(s);
    var lo :| lo in s && forall x | x in s :: lo <= x;
    lo
  }

  ghost predicate Ascending(q: seq<int>) {
    forall i, j | 0 <= i < j < |q| :: q[i] < q[j]
  }

  /** The elements of `s` in iteration order. */
  function Sorted(s: set<int>): (q: seq<int>)
    ensures Ascending(q)
    ensures forall x :: x in q <==> x in s
    ensures |q| == |s|
    decreases |s|
  {
    if s == {} then [] else [Least(s)] + Sorted(s - {Least(s)})
  }

  /** The integers `lo..hi-1`. */
  function Interval(lo: int, hi: int): (s: set<int>)
    ensures forall x :: x in s <==> lo <= x < hi
    decreases hi - lo
  {
    if lo < hi then Interval(lo, hi - 1) + {hi - 1} else {}
  }

  lemma {:induction false} IntervalSize(lo: int, hi: int)
    requires lo <= hi
    ensures |Interval(lo, hi)| == hi - lo
    decreases hi - lo
  {
    if lo < hi {
      IntervalSize(lo, hi - 1);
    }
  }

  lemma {:induction false} SubsetSize(a: set<int>, b: set<int>)
    requires a <= b
    ensures |a| <= |b|
    decreases |a|
  {
    if a != {} {
      var x := SomeElement(a);
      SubsetSize(a - {x}, b - {x});
    }
  }
}
