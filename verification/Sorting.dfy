/**
 Sorting by a strict total order.

 The source hands a comparison to the library's sort, which promises no particular algorithm
 and no stability.  Where the comparison tells every two elements apart there is only one
 sorted arrangement, so what follows cannot depend on the algorithm.
 */
module Sorting {

  /** less tells any two elements apart, one way only and consistently. */
  ghost predicate Orders<T>(less: (T, T) -> bool, elements: set<T>) {
    && (forall x :: x in elements ==> !less(x, x))
    && (forall x, y :: x in elements && y in elements && x != y ==> less(x, y) || less(y, x))
    && (forall x, y, z :: x in elements && y in elements && z in elements && less(x, y) && less(y, z) ==> less(x, z))
  }

  /** Each element before all that follow it. */
  predicate Ascending<T>(s: seq<T>, less: (T, T) -> bool) {
    forall i, j :: 0 <= i < j < |s| ==> less(s[i], s[j])
  }

  function Elements<T>(s: seq<T>): set<T> {
    set x | x in s
  }

  /** Ascending sequences of the same elements are the same sequence. */
  lemma {:induction false} OneAscendingOrder<T>(a: seq<T>, b: seq<T>, less: (T, T) -> bool)
    requires Ascending(a, less) && Ascending(b, less) && Elements(a) == Elements(b) && Orders(less, Elements(a))
    ensures a == b
  {
    if a == [] {
      SomethingInIt(b);
    } else {
      assert a[0] in Elements(b);
      SmallestIsFirst(b, a[0], less);
      assert b[0] in Elements(a);
      SmallestIsFirst(a, b[0], less);
      TailElements(a, less);
      TailElements(b, less);
      OneAscendingOrder(a[1..], b[1..], less);
      assert a == [a[0]] + a[1..] && b == [b[0]] + b[1..];
    }
  }

  lemma SomethingInIt<T>(s: seq<T>)
    ensures s != [] ==> Elements(s) != {}
  {
    if s != [] {
      assert s[0] in Elements(s);
    }
  }

  lemma SmallestIsFirst<T>(s: seq<T>, x: T, less: (T, T) -> bool)
    requires Ascending(s, less) && x in s
    ensures x == s[0] || less(s[0], x)
  {
    var i :| 0 <= i < |s| && s[i] == x;
  }

  lemma TailElements<T>(s: seq<T>, less: (T, T) -> bool)
    requires s != [] && Ascending(s, less) && Orders(less, Elements(s))
    ensures Elements(s[1..]) == Elements(s) - {s[0]}
  {
    forall x ensures x in Elements(s[1..]) <==> x in Elements(s) - {s[0]} {
      if x in Elements(s) - {s[0]} {
        var i :| 0 <= i < |s| && s[i] == x;
        assert s[1..][i - 1] == x;
      }
      if x in s[1..] {
        var i :| 0 <= i < |s[1..]| && s[1..][i] == x;
        assert less(s[0], s[i + 1]) && s[0] in Elements(s);
      }
    }
  }

  lemma {:induction false} AscendingSize<T>(s: seq<T>, less: (T, T) -> bool)
    requires Ascending(s, less) && Orders(less, Elements(s))
    ensures |Elements(s)| == |s|
  {
    if s == [] {
      assert Elements(s) == {};
    } else {
      TailElements(s, less);
      AscendingSize(s[1..], less);
      assert s[0] in Elements(s);
    }
  }

  /** The elements of a finite set in their one ascending order. */
  method Sort<T(==)>(elements: set<T>, less: (T, T) -> bool) returns (sorted: seq<T>)
    requires Orders(less, elements)
    ensures Ascending(sorted, less) && Elements(sorted) == elements && |sorted| == |elements|
  {
    sorted := [];
    var todo := elements;
    while todo != {}
      invariant todo <= elements
      invariant Elements(sorted) == elements - todo && |sorted| == |elements| - |todo|
      invariant Ascending(sorted, less)
    {
      var x :| x in todo;
      sorted := Insert(sorted, x, less, elements);
      todo := todo - {x};
    }
  }

  method Insert<T(==)>(sorted: seq<T>, x: T, less: (T, T) -> bool, ghost all: set<T>) returns (longer: seq<T>)
    requires Orders(less, all) && x in all && x !in sorted && Elements(sorted) <= all && Ascending(sorted, less)
    ensures Ascending(longer, less) && Elements(longer) == Elements(sorted) + {x} && |longer| == |sorted| + 1
  {
    assert forall i :: 0 <= i < |sorted| ==> sorted[i] in Elements(sorted);
    var i := 0;
    while i < |sorted| && less(sorted[i], x)
      invariant i <= |sorted| && forall j :: 0 <= j < i ==> less(sorted[j], x)
    {
      i := i + 1;
    }
    longer := sorted[..i] + [x] + sorted[i..];
    forall j | i <= j < |sorted| ensures less(x, sorted[j]) {
      assert less(x, sorted[i]);
    }
    forall y ensures y in Elements(longer) <==> y in Elements(sorted) + {x} {
      assert y in sorted <==> y in sorted[..i] || y in sorted[i..];
    }
  }
}
