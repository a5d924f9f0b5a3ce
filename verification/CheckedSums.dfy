/**
 Amounts added one at a time in 64 bits, each addition checked.

 The total is exact when no check fails.  Which checks are made depends on the order the
 amounts come in, so a list can be refused in one order and totalled in another; the last
 theorem says for which lists that cannot happen.
 */
module CheckedSums {
  import opened Arith
  import opened Wrappers

  /** a + b, or none when 64 bits wrapped it. */
  function AddMicros(a: int, b: int): (r: Option<int>)
    requires FitsInt64(a) && FitsInt64(b)
    ensures r == if FitsInt64(a + b) then Some(a + b) else None
  {
    var c := Wrap(a + b);
    WrapShifts(a + b, 1);
    WrapShifts(a + b, -1);
    if (b > 0 && c < a) || (b < 0 && c > a) then None else Some(c)
  }

  function Total(s: seq<int>, n: nat): int
    requires n <= |s|
  {
    if n == 0 then 0 else Total(s, n - 1) + s[n - 1]
  }

  function AddAll(s: seq<int>, n: nat): (r: Option<int>)
    requires n <= |s| && AllFit(s)
    ensures r.Some? ==> r.value == Total(s, n) && FitsInt64(r.value)
  {
    if n == 0 then Some(0)
    else
      match AddAll(s, n - 1)
      case None => None
      case Some(t) => AddMicros(t, s[n - 1])
  }

  predicate OfSide(n: int, up: bool) {
    if up then n > 0 else n < 0
  }

  /** The amounts above zero added up, or those below. */
  function SideTotal(s: seq<int>, n: nat, up: bool): int
    requires n <= |s|
  {
    if n == 0 then 0 else SideTotal(s, n - 1, up) + (if OfSide(s[n - 1], up) then s[n - 1] else 0)
  }

  predicate AllFit(s: seq<int>) {
    forall i :: 0 <= i < |s| ==> FitsInt64(s[i])
  }

  lemma {:induction false} SidesBound(s: seq<int>, n: nat)
    requires n <= |s|
    ensures SideTotal(s, n, false) <= 0 <= SideTotal(s, n, true)
    ensures SideTotal(s, n, false) <= Total(s, n) <= SideTotal(s, n, true)
    ensures n > 0 ==> SideTotal(s, n, false) <= SideTotal(s, n - 1, false)
    ensures n > 0 ==> SideTotal(s, n - 1, true) <= SideTotal(s, n, true)
  {
    if n > 0 {
      SidesBound(s, n - 1);
    }
  }

  lemma {:induction false} SidesFit(s: seq<int>, n: nat)
    requires n <= |s| && AllFit(s)
    requires MIN_INT64 <= SideTotal(s, n, false) && SideTotal(s, n, true) <= MAX_INT64
    ensures AddAll(s, n).Some?
  {
    SidesBound(s, n);
    if n > 0 {
      SidesFit(s, n - 1);
    }
  }

  /** The amounts of one side, then the others. */
  function SideFirst(s: seq<int>, n: nat, up: bool): (seq<int>, seq<int>)
    requires n <= |s|
  {
    if n == 0 then ([], [])
    else
      var parts := SideFirst(s, n - 1, up);
      if OfSide(s[n - 1], up) then (parts.0 + [s[n - 1]], parts.1) else (parts.0, parts.1 + [s[n - 1]])
  }

  /** How often an amount comes among the first n. */
  function Times(s: seq<int>, n: nat, x: int): nat
    requires n <= |s|
  {
    if n == 0 then 0 else Times(s, n - 1, x) + (if s[n - 1] == x then 1 else 0)
  }

  lemma {:induction false} TimesIsTheCount(s: seq<int>, n: nat, x: int)
    requires n <= |s|
    ensures Times(s, n, x) == multiset(s[..n])[x]
  {
    if n > 0 {
      TimesIsTheCount(s, n - 1, x);
      OneMoreCounted(s[..n - 1], s[n - 1], x);
      assert s[..n] == s[..n - 1] + [s[n - 1]];
    }
  }

  lemma SideFirstPermutes(s: seq<int>, n: nat, up: bool)
    requires n <= |s|
    ensures var parts := SideFirst(s, n, up); multiset(parts.0) + multiset(parts.1) == multiset(s[..n])
  {
    var parts := SideFirst(s, n, up);
    forall x: int ensures (multiset(parts.0) + multiset(parts.1))[x] == multiset(s[..n])[x] {
      SideFirstCounts(s, n, up, x);
      TimesIsTheCount(s, n, x);
    }
  }

  lemma {:induction false} SideFirstCounts(s: seq<int>, n: nat, up: bool, x: int)
    requires n <= |s|
    ensures var parts := SideFirst(s, n, up); multiset(parts.0)[x] + multiset(parts.1)[x] == Times(s, n, x)
  {
    if n > 0 {
      var parts := SideFirst(s, n - 1, up);
      SideFirstCounts(s, n - 1, up, x);
      OneMoreCounted(parts.0, s[n - 1], x);
      OneMoreCounted(parts.1, s[n - 1], x);
    }
  }

  lemma OneMoreCounted(s: seq<int>, y: int, x: int)
    ensures multiset(s + [y])[x] == multiset(s)[x] + (if y == x then 1 else 0)
  {
  }

  lemma JoinedIsCounted(a: seq<int>, b: seq<int>)
    ensures multiset(a + b) == multiset(a) + multiset(b)
  {
  }

  lemma {:induction false} SideFirstTotals(s: seq<int>, n: nat, up: bool)
    requires n <= |s|
    ensures var parts := SideFirst(s, n, up); Total(parts.0, |parts.0|) == SideTotal(s, n, up)
  {
    if n > 0 {
      SideFirstTotals(s, n - 1, up);
      var parts := SideFirst(s, n - 1, up);
      TotalOfPrefix(parts.0, [s[n - 1]], |parts.0|);
    }
  }

  lemma {:induction false} TotalOfPrefix(a: seq<int>, b: seq<int>, n: nat)
    requires n <= |a|
    ensures Total(a + b, n) == Total(a, n)
  {
    if n > 0 {
      TotalOfPrefix(a, b, n - 1);
    }
  }

  lemma {:induction false} FitsSoFar(s: seq<int>, n: nat)
    requires n <= |s| && AllFit(s) && AddAll(s, |s|).Some?
    ensures AddAll(s, n).Some?
    decreases |s| - n
  {
    if n < |s| {
      FitsSoFar(s, n + 1);
    }
  }

  lemma FitsAsPermuted(s: seq<int>, t: seq<int>)
    requires AllFit(s) && multiset(s) == multiset(t)
    ensures AllFit(t)
  {
    forall i | 0 <= i < |t| ensures FitsInt64(t[i]) {
      assert t[i] in multiset(s);
    }
  }

  lemma {:induction false} SideOfPermutation(s: seq<int>, t: seq<int>, up: bool)
    requires multiset(s) == multiset(t)
    ensures SideTotal(s, |s|, up) == SideTotal(t, |t|, up)
    decreases |s|
  {
    if s == [] {
      assert |multiset(t)| == 0;
    } else {
      var x := s[0];
      assert x in multiset(t);
      var i :| 0 <= i < |t| && t[i] == x;
      var fewer := TakenOut(s, 0, up);
      var others := TakenOut(t, i, up);
      SideOfPermutation(fewer, others, up);
    }
  }

  lemma TakenOut(s: seq<int>, i: nat, up: bool) returns (rest: seq<int>)
    requires i < |s|
    ensures multiset(rest) == multiset(s) - multiset{s[i]} && |rest| == |s| - 1
    ensures SideTotal(s, |s|, up) == SideTotal(rest, |rest|, up) + (if OfSide(s[i], up) then s[i] else 0)
  {
    rest := s[..i] + s[i + 1..];
    assert s == s[..i] + [s[i]] + s[i + 1..];
    SideWithout(s, i, |s|, up);
  }

  lemma {:induction false} SideOfCommon(s: seq<int>, t: seq<int>, n: nat, up: bool)
    requires n <= |s| && n <= |t| && forall i :: 0 <= i < n ==> s[i] == t[i]
    ensures SideTotal(s, n, up) == SideTotal(t, n, up)
  {
    if n > 0 {
      SideOfCommon(s, t, n - 1, up);
    }
  }

  lemma {:induction false} SideWithout(t: seq<int>, i: nat, n: nat, up: bool)
    requires i < n <= |t|
    ensures SideTotal(t[..i] + t[i + 1..], n - 1, up) + (if OfSide(t[i], up) then t[i] else 0) == SideTotal(t, n, up)
  {
    if n == i + 1 {
      SideOfCommon(t[..i] + t[i + 1..], t, i, up);
    } else {
      SideWithout(t, i, n - 1, up);
    }
  }

  /** The rows come in no particular order, and whether the totals are refused can depend on
      it: they are refused in no order exactly when the amounts above zero and those below
      each fit by themselves. */
  lemma RefusedInNoOrder(s: seq<int>)
    requires AllFit(s)
    ensures (forall t :: multiset(t) == multiset(s) ==> AllFit(t) && AddAll(t, |t|).Some?)
            <==> FitsInt64(SideTotal(s, |s|, true)) && FitsInt64(SideTotal(s, |s|, false))
  {
    forall t | multiset(t) == multiset(s) ensures AllFit(t) {
      FitsAsPermuted(s, t);
    }
    if FitsInt64(SideTotal(s, |s|, true)) && FitsInt64(SideTotal(s, |s|, false)) {
      forall t | multiset(t) == multiset(s) ensures AddAll(t, |t|).Some? {
        FitsAsPermuted(s, t);
        SideOfPermutation(s, t, true);
        SideOfPermutation(s, t, false);
        SidesFit(t, |t|);
      }
    } else {
      var up := !FitsInt64(SideTotal(s, |s|, true));
      var (a, b) := SideFirst(s, |s|, up);
      SideFirstPermutes(s, |s|, up);
      SideFirstTotals(s, |s|, up);
      JoinedIsCounted(a, b);
      assert s[..|s|] == s;
      TotalOfPrefix(a, b, |a|);
      FitsAsPermuted(s, a + b);
      if AddAll(a + b, |a + b|).Some? {
        FitsSoFar(a + b, |a|);
      }
    }
  }
}
