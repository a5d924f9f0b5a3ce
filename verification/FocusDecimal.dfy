/** A FOCUS cost cell, plain or in E notation, read into exact micro-dollars. */
module FocusDecimal {
  import opened Arith
  import opened Wrappers
  import opened Text
  import opened Decimals

  const MAX_COST_BYTES: nat := 64
  const MAX_COST_DIGITS: nat := 9
  const MAX_EXPONENT: int := 40

  datatype DecimalError = Shape | Range

  predicate IsE(c: char) {
    c == 'e' || c == 'E'
  }

  /** Where an e of either case first stands, or the length when none does. */
  function IndexOfE(s: string): (i: nat)
    ensures i <= |s| && forall k :: 0 <= k < i ==> !IsE(s[k])
    ensures i < |s| ==> IsE(s[i])
  {
    if s == "" || IsE(s[0]) then 0 else 1 + IndexOfE(s[1..])
  }

  function TrimSigns(s: string): string {
    if s != "" && IsSign(s[0]) then TrimSigns(s[1..]) else s
  }

  function TrimZeros(s: string): string {
    if s != "" && s[0] == '0' then TrimZeros(s[1..]) else s
  }

  // ----------------------------------------------------------- what a cell means

  /** A decimal and the power of ten it is multiplied by. */
  datatype Number = Number(p: Plain, exp: int)

  /** The FOCUS numeric grammar: a plain decimal, or one and an exponent after an e. */
  function ReadNumber(s: string): (n: Option<Number>)
    ensures n.Some? ==> n.value.p.Valid()
  {
    var i := IndexOfE(s);
    if i == |s| then Both(ReadPlain(s), Some(0)) else Both(ReadPlain(s[..i]), ParseInt(s[i + 1..]))
  }

  /** A plain decimal is the number it is; with an e of either case behind it, it is multiplied by the
      power of ten that follows. */
  lemma NumberReads(m: string, exp: string)
    requires ReadPlain(m).Some?
    ensures ReadNumber(m) == Some(Number(ReadPlain(m).value, 0))
    ensures ReadNumber(m + "e" + exp) == ReadNumber(m + "E" + exp)
    ensures ReadNumber(m + "e" + exp)
            == if ParseInt(exp).Some? then Some(Number(ReadPlain(m).value, ParseInt(exp).value)) else None
  {
    NoEInPlain(m);
    EStandsBehind(m, 'e', exp);
    EStandsBehind(m, 'E', exp);
  }

  lemma NoEInPlain(m: string)
    requires ReadPlain(m).Some?
    ensures forall k :: 0 <= k < |m| ==> m[k] != 'e' && m[k] != 'E'
  {
    var u := Unsigned(m).1;
    var (i, f) := Cut(u, '.');
    forall k | 0 <= k < |u| ensures IsDigit(u[k]) || u[k] == '.' {
      if u != i {
        assert u == i + "." + f;
      }
    }
    forall k | 0 <= k < |m| ensures m[k] != 'e' && m[k] != 'E' {
      if |u| < |m| && k > 0 {
        assert m[k] == u[k - 1];
      }
    }
  }

  lemma EStandsBehind(m: string, e: char, exp: string)
    requires (e == 'e' || e == 'E') && forall k :: 0 <= k < |m| ==> m[k] != 'e' && m[k] != 'E'
    ensures var s := m + [e] + exp; IndexOfE(m) == |m| && IndexOfE(s) == |m| && s[..|m|] == m && s[|m| + 1..] == exp
  {
    var s := m + [e] + exp;
    assert s[|m|] == e && forall k :: 0 <= k < |m| ==> s[k] == m[k];
  }

  function Both(p: Option<Plain>, exp: Option<int>): Option<Number> {
    if p.Some? && exp.Some? then Some(Number(p.value, exp.value)) else None
  }

  /** v is the number in whole micro-dollars, rounded once. */
  predicate NearestMicros(v: int, n: Number)
    requires n.p.Valid()
  {
    NearestAway(v, ScaledNum(n.p, n.exp) * MICROS, ScaledDen(n.p, n.exp))
  }

  /** The number written without an exponent. */
  function Flat(s: string, n: Number): Plain
    requires n.p.Valid()
  {
    if IndexOfE(s) == |s| then n.p else Expanded(n.p, n.exp)
  }

  lemma {:induction false} TrimZerosKeepsValue(s: string)
    requires IsDigits(s)
    ensures IsDigits(TrimZeros(s)) && NatOf(TrimZeros(s)) == NatOf(s)
  {
    if s != "" && s[0] == '0' {
      TrimZerosKeepsValue(s[1..]);
      assert s == "0" + s[1..];
      NatOfAppend("0", s[1..]);
      assert NatOf("0") == 0;
    }
  }

  lemma NineDigitsFit(q: Plain)
    requires q.Valid() && |TrimZeros(q.int_)| <= MAX_COST_DIGITS
    ensures Magnitude(q) <= MAX_INT64
  {
    TrimZerosKeepsValue(q.int_);
    var t := TrimZeros(q.int_);
    NatOfBound(t);
    Pow10Add(|t|, 9 - |t|);
    MulMonotone(1, Pow10(9 - |t|), Pow10(|t|));
    assert Pow10(9) == 1_000_000_000 by { SixZeros(); assert Pow10(3) == 1000; Pow10Add(6, 3); }
    FractionIsUnderOne(q.frac);
  }

  lemma FractionIsUnderOne(frac: string)
    requires IsDigits(frac)
    ensures FractionMagnitude(frac) <= MICROS
  {
    SixZeros();
    if |frac| <= 6 {
      IntOfDigitsFraction(frac);
    } else {
      NatOfBound(frac[..6]);
    }
  }

  lemma IntOfDigitsFraction(frac: string)
    requires IsDigits(frac) && |frac| <= 6
    ensures NatOf(frac) * Pow10(6 - |frac|) <= MICROS
  {
    NatOfBound(frac);
    SixZeros();
    Pow10Add(|frac|, 6 - |frac|);
    MulMonotone(NatOf(frac), Pow10(|frac|), Pow10(6 - |frac|));
  }

  /** t is a trimmed text that reads as q. */
  predicate Writes(t: string, q: Plain) {
    TrimSpace(t) == t && ReadPlain(t) == Some(q)
  }

  lemma PrintWrites(q: Plain)
    requires q.Valid() && q.int_ != ""
    ensures Writes(Print(q), q)
  {
    ReadsBack(q);
    PrintIsTrimmed(q);
  }

  /** How an amount already plain is read. */
  function Outcome(q: Plain, v: int): Result<int, DecimalError>
    requires q.Valid()
  {
    if |TrimZeros(q.int_)| > MAX_COST_DIGITS then Err(Range) else if TailFits(q.frac) then Ok(v) else Err(Shape)
  }

  lemma MagnitudeIs(v: int, q: Plain)
    requires q.Valid() && InMicros(v, q)
    ensures v == Signed(q.neg, Magnitude(q))
  {
    MagnitudeIsNearest(q);
    NearestAwayIsUnique(v, Signed(q.neg, Magnitude(q)), q.Num() * MICROS, q.Den());
  }

  lemma WholePart(t: string, q: Plain)
    requires ReadPlain(t) == Some(q)
    ensures Cut(TrimSigns(t), '.').0 == q.int_
  {
    var u := Unsigned(t).1;
    assert !IsSign(u[0]) by {
      if q.int_ != "" { assert IsDigit(q.int_[0]) && u[0] == q.int_[0]; }
    }
    assert TrimSigns(u) == u;
    assert TrimSigns(t) == u;
  }

  /** Equal ratios round alike. */
  lemma RatioCarries(v: int, a: int, b: nat, c: int, d: nat)
    requires b > 0 && d > 0 && c * b == a * d && NearestAway(v, a * MICROS, b)
    ensures NearestAway(v, c * MICROS, d)
  {
    var w := RoundAway(c * MICROS, d);
    NearestAwayScales(v, a * MICROS, b, d);
    NearestAwayScales(w, c * MICROS, d, b);
    MulSwaps(a, MICROS, d);
    MulSwaps(c, MICROS, b);
    PositiveProduct(b, d);
    NearestAwayIsUnique(v, w, a * MICROS * d, b * d);
  }

  lemma PositiveProduct(b: nat, d: nat)
    requires b > 0 && d > 0
    ensures b * d > 0 && b * d == d * b
  {
    MulMonotone(1, b, d);
  }

  lemma FlatIsTheNumber(s: string, n: Number, v: int)
    requires ReadNumber(s) == Some(n) && NearestMicros(v, n)
    ensures InMicros(v, Flat(s, n))
  {
    var q := Flat(s, n);
    if IndexOfE(s) == |s| {
      assert Pow10(0) == 1;
    } else {
      PointMoved(n.p, n.exp);
      RatioCarries(v, ScaledNum(n.p, n.exp), ScaledDen(n.p, n.exp), q.Num(), q.Den());
    }
  }

  lemma ExpansionWrites(mant: string, p: Plain, exp: int)
    requires ReadPlain(mant) == Some(p)
    ensures ExpandExponent(mant, exp).Some? && Writes(ExpandExponent(mant, exp).value, Expanded(p, exp))
  {
    ExpandsToExpanded(mant, exp);
    PrintWrites(Expanded(p, exp));
  }

  // --------------------------------------------------------------- the reader

  /** What was read from a text that means p (or is no plain decimal), stray when a sign
      stands after its point. */
  predicate MicrosRead(p: Option<Plain>, stray: bool, m: Option<int>)
    requires p.Some? ==> p.value.Valid()
  {
    && (p.Some? ==> m == if TailFits(p.value.frac) && Magnitude(p.value) <= MAX_INT64
                         then Some(Signed(p.value.neg, Magnitude(p.value))) else None)
    && (m.Some? ==> (p.Some? <==> !stray))
  }

  predicate AmountRead(p: Option<Plain>, stray: bool, r: Result<int, DecimalError>)
    requires p.Some? ==> p.value.Valid()
  {
    && (p.Some? ==> r == Outcome(p.value, Signed(p.value.neg, Magnitude(p.value))))
    && (r.Ok? ==> (p.Some? <==> !stray))
  }

  method MicrosOf(t: string) returns (m: Option<int>)
    requires TrimSpace(t) == t
    ensures MicrosRead(ReadPlain(t), SignAfterPoint(t), m)
  {
    m := ParseMicros(t);
    if ReadPlain(t).Some? {
      ReadsTheMagnitude(t, ReadPlain(t).value);
    }
    if m.Some? {
      AcceptedIsPlainIffNoSignAfterPoint(t);
    }
  }

  /** Too many digits before the point is an error of its own; the rest is ParseMicros. */
  function Bounded(intPart: string, amount: Option<int>): Result<int, DecimalError> {
    if |TrimZeros(intPart)| > MAX_COST_DIGITS && IsDigits(intPart) then Err(Range)
    else if amount.None? then Err(Shape)
    else Ok(amount.value)
  }

  lemma BoundedReads(p: Option<Plain>, stray: bool, intPart: string, m: Option<int>)
    requires p.Some? ==> p.value.Valid() && intPart == p.value.int_
    requires MicrosRead(p, stray, m)
    ensures AmountRead(p, stray, Bounded(intPart, m))
  {
    if p.Some? && |TrimZeros(intPart)| <= MAX_COST_DIGITS {
      NineDigitsFit(p.value);
    }
  }

  method ReadAmount(t: string) returns (r: Result<int, DecimalError>)
    requires TrimSpace(t) == t
    ensures AmountRead(ReadPlain(t), SignAfterPoint(t), r)
  {
    var intPart := Cut(TrimSigns(t), '.').0;
    if ReadPlain(t).Some? {
      WholePart(t, ReadPlain(t).value);
    }
    var m := MicrosOf(t);
    BoundedReads(ReadPlain(t), SignAfterPoint(t), intPart, m);
    r := Bounded(intPart, m);
  }

  method ReadScaled(mant: string, exp: Option<int>) returns (r: Result<int, DecimalError>)
    ensures r.Ok? ==> Both(ReadPlain(mant), exp).Some?
    ensures ReadPlain(mant).Some? && exp.Some?
            ==> r == if exp.value > MAX_EXPONENT || exp.value < -MAX_EXPONENT then Err(Shape)
                     else (var q := Expanded(ReadPlain(mant).value, exp.value); Outcome(q, Signed(q.neg, Magnitude(q))))
  {
    if exp.None? || exp.value > MAX_EXPONENT || exp.value < -MAX_EXPONENT {
      return Err(Shape);
    }
    var expanded := ExpandExponent(mant, exp.value);
    if expanded.None? {
      if ReadPlain(mant).Some? {
        ExpansionWrites(mant, ReadPlain(mant).value, exp.value);
      }
      return Err(Shape);
    }
    OnlyPlainIsExpanded(mant, exp.value);
    ExpansionWrites(mant, ReadPlain(mant).value, exp.value);
    r := ReadAmount(expanded.value);
  }

  /** The same for a number: its exponent first. */
  function NumberOutcome(s: string, n: Number, v: int): Result<int, DecimalError>
    requires n.p.Valid()
  {
    if n.exp > MAX_EXPONENT || n.exp < -MAX_EXPONENT then Err(Shape) else Outcome(Flat(s, n), v)
  }

  /** What was read from a trimmed cell: a FOCUS number is read as its value, and what is
      accepted is one, but for a cell without exponent and with a sign after its point. */
  ghost predicate CellRead(s: string, r: Result<int, DecimalError>) {
    if |s| > MAX_COST_BYTES then r == Err(Shape) else
    && (ReadNumber(s).Some?
        ==> forall v :: NearestMicros(v, ReadNumber(s).value) ==> r == NumberOutcome(s, ReadNumber(s).value, v))
    && (r.Ok? ==> (ReadNumber(s).Some? <==> !(IndexOfE(s) == |s| && SignAfterPoint(s))))
  }

  lemma NumberIsRead(s: string, r: Result<int, DecimalError>)
    requires ReadNumber(s).Some?
    requires var n := ReadNumber(s).value; var q := Flat(s, n); r == NumberOutcome(s, n, Signed(q.neg, Magnitude(q)))
    ensures forall v :: NearestMicros(v, ReadNumber(s).value) ==> r == NumberOutcome(s, ReadNumber(s).value, v)
  {
    var n := ReadNumber(s).value;
    forall v | NearestMicros(v, n) ensures r == NumberOutcome(s, n, v) {
      FlatIsTheNumber(s, n, v);
      MagnitudeIs(v, Flat(s, n));
    }
  }

  method ReadShortCell(s: string) returns (r: Result<int, DecimalError>)
    requires TrimSpace(s) == s && |s| <= MAX_COST_BYTES
    ensures CellRead(s, r)
  {
    var i := IndexOfE(s);
    if i < |s| {
      r := ReadScaled(s[..i], ParseInt(s[i + 1..]));
    } else {
      r := ReadAmount(s);
    }
    if ReadNumber(s).Some? {
      NumberIsRead(s, r);
    }
  }

  method ReadCell(s: string) returns (r: Result<int, DecimalError>)
    requires TrimSpace(s) == s
    ensures CellRead(s, r)
  {
    if s == "" || |s| > MAX_COST_BYTES {
      assert s == "" ==> ReadNumber(s).None?;
      return Err(Shape);
    }
    r := ReadShortCell(s);
  }

  // --------------------------------------------------------------- the same by value

  /** A number within length and exponent is out of range exactly from a thousand million on, and
      below that is read as its value unless its digits past the sixth place are themselves past
      64 bits. */
  ghost predicate ReadByValue(s: string, r: Result<int, DecimalError>) {
    |s| <= 64 && ReadNumber(s).Some? ==>
      var n := ReadNumber(s).value;
      if n.exp > 40 || n.exp < -40 then r == Err(Shape)
      else
        var num, den := ScaledNum(n.p, n.exp), ScaledDen(n.p, n.exp);
        && (r == Err(Range) <==> Abs(num) >= 1_000_000_000 * den)
        && (r.Ok? <==> Abs(num) < 1_000_000_000 * den && NatOf(Tail(Flat(s, n).frac)) <= MAX_INT64)
        && (r.Ok? ==> NearestAway(r.value, num * 1_000_000, den))
  }

  /** Significant digits before the point tell whether a number has ten of them. */
  lemma TenDigits(s: string)
    requires IsDigits(s)
    ensures |TrimZeros(s)| > 9 <==> NatOf(s) >= 1_000_000_000
  {
    var t := TrimZeros(s);
    TrimZerosKeepsValue(s);
    assert Pow10(9) == 1_000_000_000 by { SixZeros(); assert Pow10(3) == 1000; Pow10Add(6, 3); }
    if |t| > 9 {
      FirstDigitIsThere(s);
      AtLeast(t);
      Pow10Add(9, |t| - 10);
      MulMonotone(1, Pow10(|t| - 10), Pow10(9));
    } else {
      NatOfBound(t);
      Pow10Add(|t|, 9 - |t|);
      MulMonotone(1, Pow10(9 - |t|), Pow10(|t|));
    }
  }

  lemma {:induction false} FirstDigitIsThere(s: string)
    ensures TrimZeros(s) == "" || TrimZeros(s)[0] != '0'
  {
    if s != "" && s[0] == '0' {
      FirstDigitIsThere(s[1..]);
    }
  }

  lemma {:induction false} AtLeast(t: string)
    requires IsDigits(t) && t != "" && t[0] != '0'
    ensures NatOf(t) >= Pow10(|t| - 1)
  {
    if |t| > 1 {
      AtLeast(t[..|t| - 1]);
    } else {
      assert t[..0] == "";
    }
  }

  lemma WholePartOfValue(q: Plain)
    requires q.Valid()
    ensures Abs(q.Num()) >= 1_000_000_000 * q.Den() <==> NatOf(q.int_) >= 1_000_000_000
  {
    NatOfAppend(q.int_, q.frac);
    NatOfBound(q.frac);
    var w, p := NatOf(q.int_), Pow10(|q.frac|);
    if w >= 1_000_000_000 {
      MulMonotone(1_000_000_000, w, p);
    } else {
      MulMonotone(w + 1, 1_000_000_000, p);
      MulAdds(w, 1, p);
    }
  }

  /** Equal ratios pass the same bounds. */
  lemma BoundCarries(a: int, b: nat, c: int, d: nat, k: nat)
    requires b > 0 && a * d == c * b && a >= k * b
    ensures c >= k * d
  {
    MulMonotone(k * b, a, d);
    MulSwaps(k, b, d);
    if c < k * d {
      MulMonotone(c + 1, k * d, b);
      MulAdds(c, 1, b);
    }
  }

  lemma MagnitudesCarry(a: int, b: nat, c: int, d: nat)
    requires a * d == c * b
    ensures Abs(a) * d == Abs(c) * b
  {
    AbsScales(a, d);
    AbsScales(c, b);
  }

  lemma FlatBound(s: string, n: Number)
    requires ReadNumber(s) == Some(n)
    ensures Abs(Flat(s, n).Num()) >= 1_000_000_000 * Flat(s, n).Den()
            <==> Abs(ScaledNum(n.p, n.exp)) >= 1_000_000_000 * ScaledDen(n.p, n.exp)
  {
    var q := Flat(s, n);
    if IndexOfE(s) == |s| {
      assert Pow10(0) == 1;
    } else {
      PointMoved(n.p, n.exp);
      MagnitudesCarry(q.Num(), q.Den(), ScaledNum(n.p, n.exp), ScaledDen(n.p, n.exp));
      BoundEqually(Abs(q.Num()), q.Den(), Abs(ScaledNum(n.p, n.exp)), ScaledDen(n.p, n.exp));
    }
  }

  lemma BoundEqually(a: int, b: nat, c: int, d: nat)
    requires b > 0 && d > 0 && a * d == c * b
    ensures a >= 1_000_000_000 * b <==> c >= 1_000_000_000 * d
  {
    if a >= 1_000_000_000 * b {
      BoundCarries(a, b, c, d, 1_000_000_000);
    }
    if c >= 1_000_000_000 * d {
      BoundCarries(c, d, a, b, 1_000_000_000);
    }
  }

  lemma CellIsReadByValue(s: string, r: Result<int, DecimalError>)
    requires CellRead(s, r)
    ensures ReadByValue(s, r)
  {
    if |s| <= 64 && ReadNumber(s).Some? {
      var n := ReadNumber(s).value;
      var v := RoundAway(ScaledNum(n.p, n.exp) * MICROS, ScaledDen(n.p, n.exp));
      TenDigits(Flat(s, n).int_);
      WholePartOfValue(Flat(s, n));
      FlatBound(s, n);
      assert r == NumberOutcome(s, n, v);
    }
  }

  /** A FOCUS number is read as its value in micro-dollars, rounded once, and what makes one
      unreadable is its length, its exponent, its digits before the point or its digits past
      the sixth after it, and nothing else. */
  method ParseFocusDecimal(text: string) returns (r: Result<int, DecimalError>)
    ensures CellRead(TrimSpace(text), r) && ReadByValue(TrimSpace(text), r)
    ensures |TrimSpace(text)| > 64 ==> r == Err(Shape)
  {
    TrimIdempotent(text);
    r := ReadCell(TrimSpace(text));
    CellIsReadByValue(TrimSpace(text), r);
  }
}
