/** Whole numbers: the 64-bit range, and a ratio rounded once. */
module Arith {
  const MAX_INT64: int := 0x7fff_ffff_ffff_ffff
  const MIN_INT64: int := -0x8000_0000_0000_0000

  predicate FitsInt64(n: int) {
    MIN_INT64 <= n <= MAX_INT64
  }

  /** What a 64-bit addition keeps of n. */
  function Wrap(n: int): (w: int)
    ensures FitsInt64(w) && (FitsInt64(n) ==> w == n)
  {
    (n - MIN_INT64) % 0x1_0000_0000_0000_0000 + MIN_INT64
  }

  lemma WrapShifts(n: int, q: int)
    ensures Wrap(n + q * 0x1_0000_0000_0000_0000) == Wrap(n)
  {
    var m := 0x1_0000_0000_0000_0000;
    assert (n - MIN_INT64) == (n - MIN_INT64) / m * m + (n - MIN_INT64) % m;
  }

  /** Wrapping each step is wrapping once. */
  lemma WrapAdds(a: int, b: int)
    ensures Wrap(Wrap(a) + b) == Wrap(a + b)
  {
    WrapShifts(a + b, -((a - MIN_INT64) / 0x1_0000_0000_0000_0000));
  }

  function Abs(n: int): nat {
    if n < 0 then -n else n
  }

  /** v is the whole number nearest to num / den, the one further from zero on a tie. */
  predicate NearestAway(v: int, num: int, den: nat) {
    && 2 * Abs(v * den - num) <= den
    && (2 * Abs(v * den - num) == den ==> Abs(v * den) > Abs(num))
  }

  /** Quotient and remainder of the magnitude, one up from half, then the sign. */
  function RoundAway(num: int, den: nat): (v: int)
    requires den > 0
    ensures NearestAway(v, num, den)
  {
    var n := Abs(num);
    var q, rem := n / den, n % den;
    var m := if rem * 2 >= den then q + 1 else q;
    RoundsMagnitude(n, den);
    MulNegates(m, den);
    if num < 0 then -m else m
  }

  lemma RoundsMagnitude(n: nat, den: nat)
    requires den > 0
    ensures n / den >= 0
    ensures NearestAway(if n % den * 2 >= den then n / den + 1 else n / den, n, den)
  {
    var q, rem := n / den, n % den;
    assert n == q * den + rem;
    MulAdds(q, 1, den);
    MulNonNegative(q, den);
  }

  /** The rounding of a ratio is one number. */
  lemma NearestAwayIsUnique(v: int, w: int, num: int, den: nat)
    requires den > 0 && NearestAway(v, num, den) && NearestAway(w, num, den)
    ensures v == w
  {
    if v > w {
      NotBoth(w, v, num, den);
    } else if w > v {
      NotBoth(v, w, num, den);
    }
  }

  lemma NotBoth(v: int, w: int, num: int, den: nat)
    requires den > 0 && v < w
    ensures !(NearestAway(v, num, den) && NearestAway(w, num, den))
  {
    Apart(v, w, den);
    OneSideOfZero(v, den);
    OneSideOfZero(w, den);
    NotBothApart(v, w, v * den, w * den, num, den);
  }

  lemma Apart(v: int, w: int, den: nat)
    requires v < w
    ensures w * den - v * den >= den
    ensures w > v + 1 ==> w * den - v * den >= 2 * den
  {
    MulAdds(v, 1, den);
    MulMonotone(v + 1, w, den);
    if w > v + 1 {
      MulAdds(v, 2, den);
      MulMonotone(v + 2, w, den);
    }
  }

  lemma OneSideOfZero(v: int, den: nat)
    ensures v >= 0 ==> v * den >= 0
    ensures v <= 0 ==> v * den <= 0
  {
    if v >= 0 {
      MulNonNegative(v, den);
    } else {
      MulNonNegative(-v, den);
      MulNegates(v, den);
    }
  }

  /** The same with the two products named, x = v * den and y = w * den. */
  lemma NotBothApart(v: int, w: int, x: int, y: int, num: int, den: nat)
    requires den > 0 && v < w && y - x >= den && (w > v + 1 ==> y - x >= 2 * den)
    requires v >= 0 ==> x >= 0
    requires w <= 0 ==> y <= 0
    ensures !(2 * Abs(x - num) <= den && (2 * Abs(x - num) == den ==> Abs(x) > Abs(num))
              && 2 * Abs(y - num) <= den && (2 * Abs(y - num) == den ==> Abs(y) > Abs(num)))
  {
  }

  /** Rounding does not depend on how the ratio is written. */
  lemma NearestAwayScales(v: int, num: int, den: nat, k: nat)
    requires k > 0 && NearestAway(v, num, den)
    ensures NearestAway(v, num * k, den * k)
  {
    MulAssociative(v, den, k);
    MulSubtracts(v * den, num, k);
    AbsScales(v * den - num, k);
    AbsScales(v * den, k);
    AbsScales(num, k);
    MulAssociative(2, Abs(v * den - num), k);
    MulMonotone(2 * Abs(v * den - num), den, k);
    if Abs(v * den) > Abs(num) {
      MulMonotone(Abs(num) + 1, Abs(v * den), k);
      MulAdds(Abs(num), 1, k);
    } else {
      MulMonotone(2 * Abs(v * den - num) + 1, den, k);
      MulAdds(2 * Abs(v * den - num), 1, k);
    }
  }

  lemma AbsScales(n: int, k: nat)
    ensures Abs(n * k) == Abs(n) * k
  {
    OneSideOfZero(n, k);
    MulNegates(n, k);
  }

  // ---------------------------------------------------------- products, one law at a time

  lemma MulNonNegative(a: nat, b: nat)
    ensures a * b >= 0
  {
  }

  lemma MulMonotone(a: int, b: int, c: nat)
    requires a <= b
    ensures a * c <= b * c
  {
    MulNonNegative(b - a, c);
    MulSubtracts(b, a, c);
  }

  lemma MulAdds(a: int, b: int, c: int)
    ensures (a + b) * c == a * c + b * c
  {
  }

  lemma MulSubtracts(a: int, b: int, c: int)
    ensures (a - b) * c == a * c - b * c
  {
  }

  lemma MulNegates(a: int, b: int)
    ensures (-a) * b == -(a * b)
  {
  }

  lemma MulAssociative(a: int, b: int, c: int)
    ensures a * b * c == a * (b * c)
  {
  }

  lemma MulSwaps(a: int, b: int, c: int)
    ensures a * b * c == a * c * b
  {
  }
}
