/** Sorting by a rank: the order in which the elements were collected leaves no trace. */
module Ordering {

  datatype Rank = Rank(major: int, minor: int)

  predicate Before(a: Rank, b: Rank) {
    a.major < b.major || (a.major == b.major && a.minor < b.minor)
  }

  predicate Sorted<T>(s: seq<T>, rank: T -> Rank) {
    forall i, j :: 0 <= i < j < |s| ==> Before(rank(s[i]), rank(s[j]))
  }

  /** No two elements have the same rank. */
  ghost predicate Ranks<T(!new)>(rank: T -> Rank, s: set<T>) {
    forall x, y :: x in s && y in s && rank(x) == rank(y) ==> x == y
  }

  ghost predicate Lists<T(!new)>(r: seq<T>, s: set<T>) {
    forall x :: x in r <==> x in s
  }

  function Prepend<T(!new)>(x: T, s: seq<T>, rank: T -> Rank): (r: seq<T>)
    requires Sorted(s, rank) && (|s| > 0 ==> Before(rank(x), rank(s[0])))
    ensures Sorted(r, rank) && |r| == |s| + 1 && r[0] == x
    ensures forall y :: y in r <==> y == x || y in s
  {
    [x] + s
  }

  /** x at its place in a sorted sequence. */
  function Place<T(!new)>(s: seq<T>, rank: T -> Rank, x: T): (r: seq<T>)
    requires Sorted(s, rank) && forall y :: y in s ==> rank(y) != rank(x)
    ensures Sorted(r, rank) && |r| == |s| + 1
    ensures forall y :: y in r <==> y in s || y == x
    ensures r[0] == x || (|s| > 0 && r[0] == s[0])
  {
    if |s| == 0 || Before(rank(x), rank(s[0])) then Prepend(x, s, rank)
    else
      assert forall y :: y in s <==> y == s[0] || y in s[1..];
      Prepend(s[0], Place(s[1..], rank, x), rank)
  }

  /** The elements of a set in the order of their ranks. */
  ghost function SortedBy<T(!new)>(s: set<T>, rank: T -> Rank): (r: seq<T>)
    requires Ranks(rank, s)
    ensures Sorted(r, rank) && Lists(r, s)
    ensures |r| == |s|
  {
    if s == {} then []
    else
      var x :| x in s;
      Place(SortedBy(s - {x}, rank), rank, x)
  }

  lemma NoneAlike<T(!new)>(a: seq<T>, b: seq<T>)
    requires forall x :: x in a <==> x in b
    ensures |a| == 0 <==> |b| == 0
  {
    if |a| > 0 {
      assert a[0] in b;
    }
    if |b| > 0 {
      assert b[0] in a;
    }
  }

  /** A set has one sorted listing only. */
  lemma {:induction false} SortedOnce<T(!new)>(a: seq<T>, b: seq<T>, rank: T -> Rank)
    requires Sorted(a, rank) && Sorted(b, rank)
    requires forall x :: x in a <==> x in b
    ensures a == b
  {
    if |a| == 0 {
      NoneAlike(a, b);
    } else {
      assert a[0] in b && b[0] in a;
      assert a[0] == b[0];
      assert forall x :: x in a[1..] <==> x in a && x != a[0];
      assert forall x :: x in b[1..] <==> x in b && x != b[0];
      SortedOnce(a[1..], b[1..], rank);
    }
  }

  /** Collects and sorts: takes the elements of a set in any order whatsoever. */
  method Sort<T(==, !new)>(s: set<T>, rank: T -> Rank) returns (r: seq<T>)
    requires Ranks(rank, s)
    ensures r == SortedBy(s, rank)
  {
    var todo := s;
    r := [];
    while todo != {}
      invariant todo <= s
      invariant Sorted(r, rank) && Lists(r, s - todo)
    {
      var x :| x in todo;
      r := Place(r, rank, x);
      todo := todo - {x};
    }
    SortedOnce(r, SortedBy(s, rank), rank);
  }
}
