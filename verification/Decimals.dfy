/**
 Decimal amounts read exactly.

 No amount goes through floating point.  A plain decimal is read digit by digit into
 micro-dollars; a FOCUS cell may also use E notation, which is applied to the digits as
 text.  A value is written here as a ratio num / den so that nothing is lost in saying what
 it is, and the theorems say that reading rounds that ratio once, half away from zero.
 */
module Decimals {
  import opened Arith
  import opened Wrappers
  import opened Text

  // ------------------------------------------------------------ plain decimals

  /** [sign] digits [. digits], at least one digit in all. */
  datatype Plain = Plain(neg: bool, int_: string, frac: string)
  {
    predicate Valid() {
      IsDigits(int_) && IsDigits(frac) && int_ + frac != ""
    }

    function Num(): int
      requires Valid()
    {
      Signed(neg, NatOf(int_ + frac))
    }

    function Den(): (d: nat)
      ensures d > 0
    {
      Pow10(|frac|)
    }
  }

  function Signed(neg: bool, n: int): int {
    if neg then -n else n
  }

  /** Takes one sign off the front. */
  function Unsigned(s: string): (bool, string) {
    if s != "" && s[0] == '-' then (true, s[1..])
    else if s != "" && s[0] == '+' then (false, s[1..])
    else (false, s)
  }

  /** Reads a plain decimal, and nothing else. */
  function ReadPlain(s: string): (p: Option<Plain>)
    ensures p.Some? ==> p.value.Valid()
  {
    var (neg, u) := Unsigned(s);
    var (i, f) := Cut(u, '.');
    if IsDigits(i) && IsDigits(f) && i + f != "" then Some(Plain(neg, i, f)) else None
  }

  /** How a plain decimal is written: no point when nothing follows it. */
  function Print(q: Plain): string {
    (if q.neg then "-" else "") + Body(q)
  }

  function Body(q: Plain): string {
    if q.frac == "" then q.int_ else q.int_ + "." + q.frac
  }

  lemma CutAt(i: string, f: string)
    requires IsDigits(i)
    ensures Cut(i + "." + f, '.') == (i, f)
    ensures Cut(i, '.') == (i, "")
  {
    var s := i + "." + f;
    var (a, b) := Cut(s, '.');
    assert s[|i|] == '.';
    DigitsHoldNoSeparator(i, '.');
    assert '.' in s;
    FirstField(a, b, i, f, '.');
    var (c, d) := Cut(i, '.');
    assert '.' in c + "." + d by {
      assert (c + "." + d)[|c|] == '.';
    }
  }

  /** A decimal is worth its digits over ten to the places after the point, below zero behind a minus
      only; a point with nothing behind it or before it is allowed, one by itself is not. */
  lemma DecimalReads(sign: string, i: string, f: string)
    requires sign in ["", "+", "-"] && IsDigits(i) && IsDigits(f) && i + f != ""
    ensures IsWorth(ReadPlain(sign + (i + "." + f)), sign == "-", i + f, |f|)
    ensures i != "" ==> IsWorth(ReadPlain(sign + i), sign == "-", i, 0)
  {
    CutAt(i, f);
    SignTaken(sign, i + "." + f);
    if i != "" {
      SignTaken(sign, i);
      assert i + "" == i;
    }
  }

  predicate IsWorth(p: Option<Plain>, neg: bool, digits: string, places: nat) {
    && p.Some? && p.value.Valid() && IsDigits(digits) && p.value.Den() == Pow10(places)
    && (neg ==> p.value.Num() == 0 - NatOf(digits)) && (!neg ==> p.value.Num() == NatOf(digits))
  }

  lemma SignTaken(sign: string, s: string)
    requires sign in ["", "+", "-"] && s != "" && s[0] != '-' && s[0] != '+'
    ensures Unsigned(sign + s) == (sign == "-", s)
  {
    if sign == "" {
      assert sign + s == s;
    } else {
      assert (sign + s)[1..] == s;
    }
  }

  lemma ReadsBack(q: Plain)
    requires q.Valid() && q.int_ != ""
    ensures ReadPlain(Print(q)) == Some(q)
  {
    CutAt(q.int_, q.frac);
    assert Body(q)[0] == q.int_[0];
    assert Unsigned(Print(q)) == (q.neg, Body(q)) by {
      if q.neg {
        assert ("-" + Body(q))[1..] == Body(q);
      } else {
        assert "" + Body(q) == Body(q);
      }
    }
  }

  // ----------------------------------------------------------- E notation

  /** Mantissa and exponent as a plain decimal: "35.2" and -7 is "0.00000352". */
  function ExpandExponent(mant: string, exp: int): Option<string> {
    var (neg, u) := Unsigned(mant);
    var (intPart, frac) := Cut(u, '.');
    var digits := intPart + frac;
    if digits == "" || !IsDigits(digits) || '.' in frac then None
    else Some((if neg then "-" else "") + PlacePoint(digits, |intPart| + exp))
  }

  /** The point put after so many of the digits, zeros filling in on either side. */
  function PlacePoint(digits: string, point: int): string {
    if point <= 0 then "0." + Zeros(-point) + digits
    else if point >= |digits| then digits + Zeros(point - |digits|)
    else digits[..point] + "." + digits[point..]
  }

  /** q is p times ten to the exp. */
  predicate Scaled(p: Plain, exp: int, q: Plain)
    requires p.Valid() && q.Valid()
  {
    q.Num() * ScaledDen(p, exp) == ScaledNum(p, exp) * q.Den()
  }

  /** p times ten to the exp, as a ratio. */
  function ScaledNum(p: Plain, exp: int): int
    requires p.Valid()
  {
    if exp >= 0 then p.Num() * Pow10(exp) else p.Num()
  }

  function ScaledDen(p: Plain, exp: int): (d: nat)
    ensures d > 0
  {
    if exp >= 0 then p.Den() else
      MulNonNegative(p.Den(), Pow10(-exp));
      MulMonotone(1, p.Den(), Pow10(-exp));
      p.Den() * Pow10(-exp)
  }

  lemma PartsAreDigits(a: string, b: string)
    requires IsDigits(a + b)
    ensures IsDigits(a) && IsDigits(b)
  {
    assert forall i :: 0 <= i < |a| ==> a[i] == (a + b)[i];
    assert forall i :: 0 <= i < |b| ==> b[i] == (a + b)[|a| + i];
  }

  /** The decimal with its point moved. */
  function Expanded(p: Plain, exp: int): Plain
    requires p.Valid()
  {
    Placed(p.neg, p.int_ + p.frac, |p.int_| + exp)
  }

  function Placed(neg: bool, digits: string, point: int): (q: Plain)
    requires IsDigits(digits) && digits != ""
    ensures q.Valid() && q.int_ != "" && q.neg == neg
  {
    if point <= 0 then Plain(neg, "0", Zeros(-point) + digits)
    else if point >= |digits| then Plain(neg, digits + Zeros(point - |digits|), "")
    else Plain(neg, digits[..point], digits[point..])
  }

  lemma PlacedPrints(neg: bool, digits: string, point: int)
    requires IsDigits(digits) && digits != ""
    ensures Body(Placed(neg, digits, point)) == PlacePoint(digits, point)
  {
    if point <= 0 {
      assert "0." + Zeros(-point) + digits == "0" + "." + (Zeros(-point) + digits);
    }
  }

  lemma ExpandsToExpanded(mant: string, exp: int)
    requires ReadPlain(mant).Some?
    ensures ExpandExponent(mant, exp) == Some(Print(Expanded(ReadPlain(mant).value, exp)))
  {
    var p := ReadPlain(mant).value;
    DigitsHoldNoSeparator(p.frac, '.');
    PlacedPrints(p.neg, p.int_ + p.frac, |p.int_| + exp);
  }

  lemma OnlyPlainIsExpanded(mant: string, exp: int)
    requires ExpandExponent(mant, exp).Some?
    ensures ReadPlain(mant).Some?
  {
    var (i, f) := Cut(Unsigned(mant).1, '.');
    PartsAreDigits(i, f);
  }

  /** E notation is expanded exactly when the mantissa is a plain decimal, into a plain
      decimal of exactly mantissa times ten to the exponent, wherever the point falls. */
  lemma ExpandExponentIsExact(mant: string, exp: int)
    ensures ExpandExponent(mant, exp).Some? <==> ReadPlain(mant).Some?
    ensures ReadPlain(mant).Some? ==>
              var q := ReadPlain(ExpandExponent(mant, exp).value);
              q.Some? && Scaled(ReadPlain(mant).value, exp, q.value)
  {
    if ReadPlain(mant).Some? {
      var p := ReadPlain(mant).value;
      ExpandsToExpanded(mant, exp);
      ReadsBack(Expanded(p, exp));
      PointMoved(p, exp);
    } else if ExpandExponent(mant, exp).Some? {
      OnlyPlainIsExpanded(mant, exp);
    }
  }

  /** Placing the point keeps the digits, with zeros added behind when it falls past them. */
  lemma DigitsKept(neg: bool, digits: string, point: int)
    requires IsDigits(digits) && digits != ""
    ensures var q := Placed(neg, digits, point);
            && |q.frac| == (if point < |digits| then |digits| - point else 0)
            && NatOf(q.int_ + q.frac) == NatOf(digits) * Pow10(if point > |digits| then point - |digits| else 0)
  {
    if point <= 0 {
      ZerosBefore(digits, -point);
    } else if point >= |digits| {
      ZerosBehind(digits, point - |digits|);
    } else {
      assert digits[..point] + digits[point..] == digits;
    }
  }

  lemma ZerosBefore(digits: string, n: nat)
    requires IsDigits(digits)
    ensures NatOf("0" + (Zeros(n) + digits)) == NatOf(digits)
  {
    NatOfZeros(n);
    NatOfAppend(Zeros(n), digits);
    NatOfAppend("0", Zeros(n) + digits);
    assert NatOf("0") == 0;
  }

  lemma ZerosBehind(digits: string, n: nat)
    requires IsDigits(digits)
    ensures NatOf(digits + Zeros(n) + "") == NatOf(digits) * Pow10(n)
  {
    NatOfZeros(n);
    NatOfAppend(digits, Zeros(n));
    assert digits + Zeros(n) + "" == digits + Zeros(n);
  }

  lemma PointMoved(p: Plain, exp: int)
    requires p.Valid()
    ensures Scaled(p, exp, Expanded(p, exp))
  {
    DigitsKept(p.neg, p.int_ + p.frac, |p.int_| + exp);
    var q := Expanded(p, exp);
    SameRatio(p.neg, NatOf(p.int_ + p.frac), |p.frac|, exp, NatOf(q.int_ + q.frac), |q.frac|);
  }

  /** The same about numbers: b / 10^m is a / 10^n times 10^exp. */
  lemma SameRatio(neg: bool, a: nat, n: nat, exp: int, b: nat, m: nat)
    requires m == if n > exp then n - exp else 0
    requires b == a * Pow10(if exp > n then exp - n else 0)
    ensures Pow10(n) > 0
    ensures Signed(neg, b) * (if exp >= 0 then Pow10(n) else Pow10(n) * Pow10(-exp))
            == (if exp >= 0 then Signed(neg, a) * Pow10(exp) else Signed(neg, a)) * Pow10(m)
  {
    var s := Signed(neg, a);
    if exp > n {
      MulNegates(a, Pow10(exp - n));
      PowersJoin(s, exp - n, n);
    } else if exp >= 0 {
      PowersJoin(s, exp, n - exp);
    } else {
      Pow10Add(n, -exp);
    }
  }

  lemma PowersJoin(a: int, m: nat, n: nat)
    ensures a * Pow10(m) * Pow10(n) == a * Pow10(m + n)
  {
    MulAssociative(a, Pow10(m), Pow10(n));
    Pow10Add(m, n);
  }

  // ------------------------------------------------------------ micro-dollars

  const MICROS: nat := 1_000_000

  /** A whole number in decimal, one sign allowed, or none past 64 bits. */
  function ParseInt(s: string): Option<int> {
    var (neg, u) := Unsigned(s);
    if u == "" || !IsDigits(u) then None
    else if FitsInt64(Signed(neg, NatOf(u))) then Some(Signed(neg, NatOf(u)))
    else None
  }

  /** whole * 1,000,000 + part, or none when that does not fit. */
  function ScaleUp(whole: int, part: int): (r: Option<int>)
    requires part <= MAX_INT64
    ensures r == if whole >= 0 && part >= 0 && whole * MICROS + part <= MAX_INT64
                 then Some(whole * MICROS + part) else None
  {
    if whole < 0 || part < 0 || whole > (MAX_INT64 - part) / MICROS then None else Some(whole * MICROS + part)
  }

  /** The digits after the point in millionths, the seventh rounding half up. */
  /** A whole number is worth its digits, below zero behind a minus, where 64 bits hold it. */
  lemma WholeReads(sign: string, digits: string)
    requires sign in ["", "+", "-"] && IsDigits(digits) && digits != ""
    ensures var v := if sign == "-" then 0 - NatOf(digits) else NatOf(digits);
            ParseInt(sign + digits) == if MIN_INT64 <= v <= MAX_INT64 then Some(v) else None
  {
    SignTaken(sign, digits);
  }

  function FractionMicros(frac: string): (r: Option<int>)
    ensures r.Some? ==> r.value <= MICROS
  {
    if frac == "" then Some(0)
    else if |frac| <= 6 then
      match ParseInt(frac)
      case Some(d) => (ShortFraction(frac, d); Some(d * Pow10(6 - |frac|)))
      case None => None
    else
      match (ParseInt(frac[..6]), ParseInt(frac[6..]))
      case (Some(head), Some(_)) =>
        (ShortFraction(frac[..6], head); Some(if '5' <= frac[6] <= '9' then head + 1 else head))
      case _ => None
  }

  lemma ShortFraction(frac: string, d: int)
    requires |frac| <= 6 && ParseInt(frac) == Some(d)
    ensures d * Pow10(6 - |frac|) < MICROS
    ensures Pow10(0) == 1
  {
    var (neg, u) := Unsigned(frac);
    NatOfBound(u);
    Pow10Add(|u|, |frac| - |u|);
    MulMonotone(1, Pow10(|frac| - |u|), Pow10(|u|));
    MulMonotone(d + 1, Pow10(|frac|), Pow10(6 - |frac|));
    MulAdds(d, 1, Pow10(6 - |frac|));
    Pow10Add(|frac|, 6 - |frac|);
    assert Pow10(6) == MICROS by {
      assert Pow10(3) == 1000;
      Pow10Add(3, 3);
    }
  }

  function ParseMicros(text: string): Option<int> {
    var (neg, u) := Unsigned(TrimSpace(text));
    if u == "" || u[0] == '-' || u[0] == '+' then None
    else
      var (i, f) := Cut(u, '.');
      if i == "" && f == "" then None
      else Assemble(neg, ParseInt(if i == "" then "0" else i), FractionMicros(f))
  }

  function Assemble(neg: bool, whole: Option<int>, part: Option<int>): Option<int>
    requires part.Some? ==> part.value <= MICROS
  {
    if whole.None? || part.None? then None
    else
      match ScaleUp(whole.value, part.value)
      case Some(total) => Some(Signed(neg, total))
      case None => None
  }

  /** The digits past the sixth after the point, which the code reads only to check them. */
  function Tail(frac: string): (t: string)
    ensures IsDigits(frac) ==> IsDigits(t)
  {
    if |frac| <= 6 then "" else frac[6..]
  }

  predicate TailFits(frac: string)
    requires IsDigits(frac)
  {
    NatOf(Tail(frac)) <= MAX_INT64
  }

  /** v is p in whole micro-dollars, rounded once. */
  predicate InMicros(v: int, p: Plain)
    requires p.Valid()
  {
    NearestAway(v, p.Num() * MICROS, p.Den())
  }

  function FractionMagnitude(frac: string): nat
    requires IsDigits(frac)
  {
    if |frac| <= 6 then NatOf(frac) * Pow10(6 - |frac|)
    else NatOf(frac[..6]) + (if '5' <= frac[6] then 1 else 0)
  }

  /** The magnitude as the code adds it up. */
  function Magnitude(p: Plain): nat
    requires p.Valid()
  {
    NatOf(p.int_) * MICROS + FractionMagnitude(p.frac)
  }

  lemma MagnitudeIsNearest(p: Plain)
    requires p.Valid()
    ensures InMicros(Signed(p.neg, Magnitude(p)), p)
  {
    NatOfAppend(p.int_, p.frac);
    DigitsAreNearest(NatOf(p.int_), p.frac);
    NearestSigned(p.neg, Magnitude(p), NatOf(p.int_ + p.frac), Pow10(|p.frac|));
  }

  lemma DigitsAreNearest(whole: nat, frac: string)
    requires IsDigits(frac)
    ensures NearestAway(whole * MICROS + FractionMagnitude(frac), (whole * Pow10(|frac|) + NatOf(frac)) * MICROS,
                        Pow10(|frac|))
  {
    if |frac| <= 6 {
      ShortIsExact(whole, NatOf(frac), |frac|);
    } else {
      LongIsNearest(whole, frac);
    }
  }

  lemma NearestSigned(neg: bool, v: int, n: int, den: nat)
    requires NearestAway(v, n * MICROS, den)
    ensures NearestAway(Signed(neg, v), Signed(neg, n) * MICROS, den)
  {
    NearestNegates(v, n * MICROS, den);
  }

  lemma NearestNegates(v: int, num: int, den: nat)
    requires NearestAway(v, num, den)
    ensures NearestAway(-v, -num, den)
  {
    MulNegates(v, den);
  }

  lemma ShortIsExact(whole: nat, part: nat, n: nat)
    requires n <= 6
    ensures NearestAway(whole * MICROS + part * Pow10(6 - n), (whole * Pow10(n) + part) * MICROS, Pow10(n))
  {
    PowersJoin(part, 6 - n, n);
    SixZeros();
    MulAdds(whole * MICROS, part * Pow10(6 - n), Pow10(n));
    MulAdds(whole * Pow10(n), part, MICROS);
    MulSwaps(whole, MICROS, Pow10(n));
  }

  lemma SixZeros()
    ensures Pow10(6) == MICROS
  {
    assert Pow10(3) == 1000;
    Pow10Add(3, 3);
  }

  lemma LongIsNearest(whole: nat, frac: string)
    requires IsDigits(frac) && |frac| > 6
    ensures NearestAway(whole * MICROS + FractionMagnitude(frac), (whole * Pow10(|frac|) + NatOf(frac)) * MICROS,
                        Pow10(|frac|))
  {
    var k := |frac| - 6;
    assert frac == frac[..6] + frac[6..];
    NatOfAppend(frac[..6], frac[6..]);
    NatOfBound(frac[6..]);
    SeventhDigit(frac[6..]);
    SixZeros();
    Pow10Add(6, k);
    RoundedAtSix(whole, NatOf(frac[..6]), NatOf(frac[6..]), Pow10(k), if '5' <= frac[6] then 1 else 0);
  }

  /** The first digit of the tail alone says on which side of the half the tail lies. */
  lemma SeventhDigit(tail: string)
    requires IsDigits(tail) && tail != ""
    ensures '5' <= tail[0] <==> 2 * NatOf(tail) >= Pow10(|tail|)
  {
    var d, rest := [tail[0]], tail[1..];
    assert tail == d + rest;
    assert NatOf(d) == DigitOf(tail[0]) by { assert d[..0] == ""; }
    NatOfAppend(d, rest);
    NatOfBound(rest);
    if '5' <= tail[0] {
      MulMonotone(5, NatOf(d), Pow10(|rest|));
    } else {
      MulMonotone(NatOf(d), 4, Pow10(|rest|));
    }
  }

  /** With k = ten to the digits left over, up is one exactly when the tail reaches half of k. */
  lemma RoundedAtSix(whole: nat, head: nat, tail: nat, k: nat, up: nat)
    requires tail < k && up == if 2 * tail >= k then 1 else 0
    ensures NearestAway(whole * MICROS + (head + up), (whole * (MICROS * k) + (head * k + tail)) * MICROS, MICROS * k)
  {
    var a, b, c := whole * k, head * k, up * k;
    var v := whole * MICROS + (head + up);
    MulAdds(whole * MICROS, head + up, k);
    MulAdds(head, up, k);
    MulSwaps(whole, MICROS, k);
    assert v * k == a * MICROS + b + c;
    MulSwaps(v, MICROS, k);
    MulAssociative(v, MICROS, k);
    assert v * (MICROS * k) == (a * MICROS + b + c) * MICROS;
    MulAssociative(whole, MICROS, k);
    assert whole * (MICROS * k) == a * MICROS;
    assert c == if up == 1 then k else 0;
    MulNonNegative(whole, k);
    MulNonNegative(head, k);
  }

  lemma IntOfDigits(s: string)
    requires IsDigits(s) && s != ""
    ensures ParseInt(s) == if NatOf(s) <= MAX_INT64 then Some(NatOf(s)) else None
  {
    assert IsDigit(s[0]);
    assert Unsigned(s) == (false, s);
  }

  lemma FractionOfDigits(frac: string)
    requires IsDigits(frac)
    ensures FractionMicros(frac) == if TailFits(frac) then Some(FractionMagnitude(frac)) else None
  {
    if |frac| > 6 {
      IntOfDigits(frac[..6]);
      IntOfDigits(frac[6..]);
      NatOfBound(frac[..6]);
      SixZeros();
    } else if frac != "" {
      IntOfDigits(frac);
      NatOfBound(frac);
      SixZeros();
      Pow10Add(|frac|, 6 - |frac|);
      MulMonotone(1, Pow10(6 - |frac|), Pow10(|frac|));
    }
  }

  lemma ReadsTheParts(text: string, p: Plain)
    requires ReadPlain(TrimSpace(text)) == Some(p)
    ensures ParseMicros(text) == Assemble(p.neg, ParseInt(if p.int_ == "" then "0" else p.int_), FractionMicros(p.frac))
  {
    var u := Unsigned(TrimSpace(text)).1;
    if p.int_ != "" { assert IsDigit(p.int_[0]) && u[0] == p.int_[0]; }
  }

  lemma WholeOfDigits(i: string)
    requires IsDigits(i)
    ensures ParseInt(if i == "" then "0" else i) == if NatOf(i) <= MAX_INT64 then Some(NatOf(i)) else None
  {
    IntOfDigits(if i == "" then "0" else i);
    assert NatOf("0") == NatOf("") == 0;
  }

  lemma Assembled(neg: bool, whole: nat, part: nat, fits: bool)
    requires part <= MICROS
    ensures Assemble(neg, if whole <= MAX_INT64 then Some(whole) else None, if fits then Some(part) else None)
            == if fits && whole * MICROS + part <= MAX_INT64 then Some(Signed(neg, whole * MICROS + part)) else None
  {
  }

  lemma PartsMakeTheMagnitude(p: Plain)
    requires p.Valid()
    ensures Assemble(p.neg, ParseInt(if p.int_ == "" then "0" else p.int_), FractionMicros(p.frac))
            == if TailFits(p.frac) && Magnitude(p) <= MAX_INT64 then Some(Signed(p.neg, Magnitude(p))) else None
  {
    WholeOfDigits(p.int_);
    FractionOfDigits(p.frac);
    if TailFits(p.frac) {
      Assembled(p.neg, NatOf(p.int_), FractionMagnitude(p.frac), true);
    }
  }

  lemma ReadsTheMagnitude(text: string, p: Plain)
    requires ReadPlain(TrimSpace(text)) == Some(p)
    ensures ParseMicros(text) == if TailFits(p.frac) && Magnitude(p) <= MAX_INT64 then Some(Signed(p.neg, Magnitude(p)))
                                 else None
  {
    ReadsTheParts(text, p);
    PartsMakeTheMagnitude(p);
  }

  /** A plain decimal is read as its value in micro-dollars, rounded once, whenever that
      fits in 64 bits and so do the digits past the sixth after the point. */
  lemma ParseMicrosIsExact(text: string, p: Plain, v: int)
    requires ReadPlain(TrimSpace(text)) == Some(p) && InMicros(v, p)
    ensures ParseMicros(text) == if TailFits(p.frac) && Abs(v) <= MAX_INT64 then Some(v) else None
  {
    ReadsTheMagnitude(text, p);
    MagnitudeIsNearest(p);
    NearestAwayIsUnique(v, Signed(p.neg, Magnitude(p)), p.Num() * MICROS, p.Den());
  }

  // ------------------------------------------------------------ what else is read

  predicate IsSign(c: char) {
    c == '-' || c == '+'
  }

  /** A sign among the digits that follow the first point. */
  predicate SignAfterPoint(s: string) {
    var frac := Cut(Unsigned(s).1, '.').1;
    exists i :: 0 <= i < |frac| && IsSign(frac[i])
  }

  lemma SignlessIntIsDigits(s: string)
    requires ParseInt(s).Some? && forall i :: 0 <= i < |s| ==> !IsSign(s[i])
    ensures IsDigits(s) && s != ""
  {
  }

  lemma SignlessFractionIsDigits(frac: string)
    requires FractionMicros(frac).Some? && forall i :: 0 <= i < |frac| ==> !IsSign(frac[i])
    ensures IsDigits(frac)
  {
    if |frac| > 6 {
      SignlessIntIsDigits(frac[..6]);
      SignlessIntIsDigits(frac[6..]);
      assert frac == frac[..6] + frac[6..];
    } else if frac != "" {
      SignlessIntIsDigits(frac);
    }
  }

  /** The reader hands the digits after the point to a routine that allows a sign of its own,
      so "1.+5" is read as one and fifty thousandths.  An accepted text is a plain decimal
      exactly when no sign stands after its point. */
  lemma AcceptedIsPlainIffNoSignAfterPoint(text: string)
    requires ParseMicros(text).Some?
    ensures ReadPlain(TrimSpace(text)).Some? <==> !SignAfterPoint(TrimSpace(text))
  {
    var (neg, u) := Unsigned(TrimSpace(text));
    var (i, f) := Cut(u, '.');
    if !SignAfterPoint(TrimSpace(text)) {
      SignlessFractionIsDigits(f);
      if i != "" {
        assert i[0] == u[0];
        assert Unsigned(i) == (false, i);
      }
    }
  }

  lemma SignInTheFraction()
    ensures ParseMicros("1.+5") == Some(1_050_000) && ReadPlain("1.+5").None?
  {
    var s := "1.+5";
    assert TrimLeft(s) == s && TrimRight(s) == s;
    CutAt("1", "+5");
    assert s == "1" + "." + "+5";
    IntOfDigits("1");
    assert NatOf("1") == 1 by { assert "1"[..0] == ""; }
    assert Unsigned("+5") == (false, "5");
    assert NatOf("5") == 5 by { assert "5"[..0] == ""; }
    assert Pow10(4) == 10_000 by { assert Pow10(2) == 100; Pow10Add(2, 2); }
    assert FractionMicros("+5") == Some(50_000);
  }

  /** A tenth of a micro-dollar written with twenty-six places is a plain decimal that is
      refused: the digits past the sixth alone do not fit in 64 bits. */
  lemma LongFractionIsRefused(p: Plain)
    requires p == Plain(false, "0", "000000" + ("1" + Zeros(19)))
    ensures ReadPlain(Print(p)) == Some(p) && ParseMicros(Print(p)).None?
  {
    ReadsBack(p);
    PrintIsTrimmed(p);
    ReadsTheMagnitude(Print(p), p);
    assert p.frac[6..] == "1" + Zeros(19);
    TenToTheNineteenth();
  }

  lemma TenToTheNineteenth()
    ensures IsDigits("1" + Zeros(19)) && NatOf("1" + Zeros(19)) > MAX_INT64
  {
    NatOfAppend("1", Zeros(19));
    NatOfZeros(19);
    assert NatOf("1") == 1 by { assert "1"[..0] == ""; }
    SixZeros();
    Pow10Add(6, 6);
    Pow10Add(12, 7);
    assert Pow10(7) == 10_000_000;
  }

  lemma PrintIsTrimmed(q: Plain)
    requires q.Valid() && q.int_ != ""
    ensures TrimSpace(Print(q)) == Print(q)
  {
    var s := Print(q);
    assert s[|s| - 1] == if q.frac == "" then q.int_[|q.int_| - 1] else q.frac[|q.frac| - 1];
    assert s[0] == if q.neg then '-' else q.int_[0];
    assert IsDigit(q.int_[0]) && IsDigit(q.int_[|q.int_| - 1]);
    assert q.frac != "" ==> IsDigit(q.frac[|q.frac| - 1]);
    TrimmedStays(s);
  }
}
