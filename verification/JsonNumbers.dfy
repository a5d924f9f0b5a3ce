/**
 A provider's JSON number read exactly.

 The literal is matched against the number grammar of section 6 of RFC 8259, its length and
 exponent are bounded before any power of ten is computed, and the ratio it writes is rounded
 once to micro-dollars.
 */
module JsonNumbers {
  import opened Arith
  import opened Wrappers
  import opened Text
  import D = Decimals

  const MAX_NUMBER_BYTES: nat := 64
  const MAX_EXPONENT: int := 40
  const MAX_MICROS: nat := 10_000_000_000_000

  datatype NumberError = TooLong | NotANumber | ExponentTooBig | OverCap

  // ---------------------------------------------------------------- the grammar

  /** An exponent: the letter, a sign or none, at least one digit. */
  datatype Exponent = Exponent(mark: char, sign: string, digits: string)
  {
    predicate Valid() {
      && (mark == 'e' || mark == 'E') && (sign == "" || sign == "+" || sign == "-")
      && IsDigits(digits) && digits != ""
    }

    function Print(): string { [mark] + (sign + digits) }

    function Value(): int
      requires Valid()
    {
      D.Signed(sign == "-", NatOf(digits))
    }
  }

  /** A number of section 6 of RFC 8259; no fraction is written as an empty one. */
  datatype Literal = Literal(neg: bool, int_: string, frac: string, exp: Option<Exponent>)
  {
    predicate Valid() {
      && IsDigits(int_) && int_ != "" && (int_[0] == '0' ==> |int_| == 1)
      && IsDigits(frac) && (exp.Some? ==> exp.value.Valid())
    }

    function Print(): string { (if neg then "-" else "") + (int_ + PrintTail(frac, exp)) }

    function Mantissa(): (p: D.Plain)
      requires Valid()
      ensures p.Valid()
    {
      D.Plain(neg, int_, frac)
    }

    function Power(): int
      requires Valid()
    {
      if exp.None? then 0 else exp.value.Value()
    }
  }

  /** What a literal is worth: its digits over ten to the places behind the point, times ten to the
      exponent, each below zero behind a minus only. */
  lemma LiteralIsWorth(l: Literal)
    requires l.Valid()
    ensures var digits: int := NatOf(l.int_ + l.frac);
            && l.Mantissa().Num() == (if l.neg then -digits else digits)
            && l.Mantissa().Den() == Pow10(|l.frac|)
            && (l.exp.None? ==> l.Power() == 0)
            && (l.exp.Some? && l.exp.value.sign == "-" ==> l.Power() == 0 - NatOf(l.exp.value.digits))
            && (l.exp.Some? && l.exp.value.sign != "-" ==> l.Power() == NatOf(l.exp.value.digits))
  {
  }

  function PrintExp(exp: Option<Exponent>): string {
    if exp.None? then "" else exp.value.Print()
  }

  function PrintTail(frac: string, exp: Option<Exponent>): string {
    (if frac == "" then "" else "." + frac) + PrintExp(exp)
  }

  /** The digits a text starts with, and the rest. */
  function TakeDigits(s: string): (parts: (string, string))
    ensures IsDigits(parts.0) && parts.0 + parts.1 == s && StartsNoDigit(parts.1)
  {
    if s == "" || !IsDigit(s[0]) then ("", s)
    else
      var (d, r) := TakeDigits(s[1..]);
      assert [s[0]] + d + r == [s[0]] + s[1..] == s;
      ([s[0]] + d, r)
  }

  predicate StartsNoDigit(s: string) {
    s == "" || !IsDigit(s[0])
  }

  lemma {:induction false} TakesJustTheDigits(digits: string, rest: string)
    requires IsDigits(digits) && StartsNoDigit(rest)
    ensures TakeDigits(digits + rest) == (digits, rest)
  {
    if digits == "" {
      assert digits + rest == rest;
    } else {
      TakesJustTheDigits(digits[1..], rest);
      TakesOneMore(digits[0], digits[1..] + rest);
      assert digits + rest == [digits[0]] + (digits[1..] + rest) && digits == [digits[0]] + digits[1..];
    }
  }

  lemma TakesOneMore(c: char, s: string)
    requires IsDigit(c)
    ensures var (d, r) := TakeDigits(s); TakeDigits([c] + s) == ([c] + d, r)
  {
    assert ([c] + s)[1..] == s;
  }

  /** The end of a number: nothing, or an exponent. */
  function ReadExp(s: string): (e: Option<Option<Exponent>>)
    ensures e.Some? && e.value.Some? ==> e.value.value.Valid()
  {
    if s == "" then Some(None)
    else
      var sign := if |s| > 1 && (s[1] == '+' || s[1] == '-') then [s[1]] else "";
      var e := Exponent(s[0], sign, s[1 + |sign|..]);
      if e.Valid() then Some(Some(e)) else None
  }

  /** What follows the integer: a fraction or none, an exponent or none. */
  function ReadTail(s: string): (t: Option<(string, Option<Exponent>)>)
    ensures t.Some? ==> IsDigits(t.value.0) && (t.value.1.Some? ==> t.value.1.value.Valid())
  {
    if s != "" && s[0] == '.' then ReadFraction(TakeDigits(s[1..])) else With("", ReadExp(s))
  }

  function ReadFraction(parts: (string, string)): Option<(string, Option<Exponent>)> {
    if parts.0 == "" then None else With(parts.0, ReadExp(parts.1))
  }

  function With(frac: string, exp: Option<Option<Exponent>>): Option<(string, Option<Exponent>)> {
    if exp.None? then None else Some((frac, exp.value))
  }

  function Read(s: string): (l: Option<Literal>)
    ensures l.Some? ==> l.value.Valid()
  {
    if s != "" && s[0] == '-' then ReadUnsigned(true, TakeDigits(s[1..])) else ReadUnsigned(false, TakeDigits(s))
  }

  function ReadUnsigned(neg: bool, parts: (string, string)): (l: Option<Literal>)
    requires IsDigits(parts.0)
    ensures l.Some? ==> l.value.Valid()
  {
    if parts.0 == "" || (parts.0[0] == '0' && |parts.0| > 1) then None
    else
      match ReadTail(parts.1)
      case None => None
      case Some(tail) => Some(Literal(neg, parts.0, tail.0, tail.1))
  }

  predicate ValidExp(exp: Option<Exponent>) {
    exp.Some? ==> exp.value.Valid()
  }

  lemma ExpReadThenPrint(s: string, exp: Option<Exponent>)
    requires ReadExp(s) == Some(exp)
    ensures PrintExp(exp) == s
  {
    if s != "" {
      assert s == [s[0]] + s[1..];
      assert s[1..] == exp.value.sign + exp.value.digits;
    }
  }

  lemma ExpPrintThenRead(exp: Option<Exponent>)
    requires ValidExp(exp)
    ensures ReadExp(PrintExp(exp)) == Some(exp)
  {
    if exp.Some? {
      var e, s := exp.value, PrintExp(exp);
      assert s[1..] == e.sign + e.digits;
      if e.sign == "" {
        assert s[1..] == e.digits;
        assert s[1] == e.digits[0];
      } else {
        assert s[1] == e.sign[0] && [s[1]] == e.sign;
        assert s[2..] == e.digits;
      }
    }
  }

  lemma TailReadThenPrint(s: string, frac: string, exp: Option<Exponent>)
    requires ReadTail(s) == Some((frac, exp))
    ensures PrintTail(frac, exp) == s
  {
    if s != "" && s[0] == '.' {
      var parts := TakeDigits(s[1..]);
      assert ReadFraction(parts) == Some((frac, exp));
      ExpReadThenPrint(parts.1, exp);
      DotFirst(s, parts.0, parts.1);
    } else {
      assert With("", ReadExp(s)) == Some((frac, exp));
      ExpReadThenPrint(s, exp);
      NothingFirst(s);
    }
  }

  lemma DotFirst(s: string, frac: string, rest: string)
    requires s != "" && s[0] == '.' && s[1..] == frac + rest
    ensures "." + frac + rest == s
  {
  }

  lemma NothingFirst(s: string)
    ensures "" + s == s
  {
  }

  lemma TailPrintThenRead(frac: string, exp: Option<Exponent>)
    requires IsDigits(frac) && ValidExp(exp)
    ensures ReadTail(PrintTail(frac, exp)) == Some((frac, exp)) && StartsNoDigit(PrintTail(frac, exp))
  {
    ExpPrintThenRead(exp);
    TailOf(frac, PrintExp(exp), exp);
  }

  lemma TailOf(frac: string, e: string, exp: Option<Exponent>)
    requires IsDigits(frac) && ReadExp(e) == Some(exp)
    ensures var s := (if frac == "" then "" else "." + frac) + e; ReadTail(s) == Some((frac, exp)) && StartsNoDigit(s)
  {
    if frac == "" {
      assert "" + e == e;
    } else {
      var s := "." + frac + e;
      assert s[1..] == frac + e;
      TakesJustTheDigits(frac, e);
    }
  }

  /** The recogniser accepts exactly the numbers of the grammar, and splits each in the one
      way it can be written. */
  lemma ReadPrints(s: string, l: Literal)
    ensures Read(s) == Some(l) <==> l.Valid() && l.Print() == s
  {
    if Read(s) == Some(l) {
      ReadThenPrint(s, l);
    } else if l.Valid() && l.Print() == s {
      PrintThenRead(l);
    }
  }

  lemma ReadThenPrint(s: string, l: Literal)
    requires Read(s) == Some(l)
    ensures l.Print() == s
  {
    if s != "" && s[0] == '-' {
      UnsignedReadThenPrint(true, TakeDigits(s[1..]), l);
      assert s == "-" + s[1..];
    } else {
      UnsignedReadThenPrint(false, TakeDigits(s), l);
      assert "" + s == s;
    }
  }

  lemma UnsignedReadThenPrint(neg: bool, parts: (string, string), l: Literal)
    requires IsDigits(parts.0) && ReadUnsigned(neg, parts) == Some(l)
    ensures l.Print() == (if neg then "-" else "") + (parts.0 + parts.1)
  {
    TailReadThenPrint(parts.1, l.frac, l.exp);
  }

  lemma PrintThenRead(l: Literal)
    requires l.Valid()
    ensures Read(l.Print()) == Some(l)
  {
    var tail := PrintTail(l.frac, l.exp);
    TailPrintThenRead(l.frac, l.exp);
    TakesJustTheDigits(l.int_, tail);
    assert (l.int_ + tail)[0] == l.int_[0];
    if l.neg {
      assert l.Print()[1..] == l.int_ + tail;
    } else {
      assert l.Print() == l.int_ + tail;
    }
  }

  // ------------------------------------------------------------- micro-dollars

  /** v is the literal times ten to the shift, rounded once. */
  predicate NearestShifted(v: int, l: Literal, shift: nat)
    requires l.Valid()
  {
    NearestAway(v, D.ScaledNum(l.Mantissa(), l.Power()) * Pow10(shift), D.ScaledDen(l.Mantissa(), l.Power()))
  }

  /** The exponent as the code reads it: a plus sign dropped, at most 40 either way. */
  predicate ExponentInRange(exp: Option<Exponent>) {
    exp.None? ||
    var e := D.ParseInt(if exp.value.sign == "-" then "-" + exp.value.digits else exp.value.digits);
    e.Some? && -MAX_EXPONENT <= e.value <= MAX_EXPONENT
  }

  lemma ExponentIsRead(l: Literal)
    requires l.Valid()
    ensures ExponentInRange(l.exp) <==> -MAX_EXPONENT <= l.Power() <= MAX_EXPONENT
  {
    if l.exp.Some? {
      var e := l.exp.value;
      if e.sign == "-" {
        assert D.Unsigned("-" + e.digits) == (true, e.digits);
      } else {
        D.IntOfDigits(e.digits);
      }
    }
  }

  /** A literal times ten to the shift in whole micro-dollars: rounded once from the value it
      writes, or refused for its length, its shape, its exponent or its size, in that order. */
  method DecimalMicros(lit: string, shift: nat) returns (r: Result<int, NumberError>)
    ensures |lit| > 64 ==> r == Err(TooLong)
    ensures |lit| <= 64 && Read(lit).None? ==> r == Err(NotANumber)
    ensures forall l, v :: |lit| <= 64 && Read(lit) == Some(l) && NearestShifted(v, l, shift) ==>
              r == if !(-40 <= l.Power() <= 40) then Err(ExponentTooBig)
                   else if Abs(v) > 10_000_000_000_000 then Err(OverCap) else Ok(v)
  {
    if |lit| > MAX_NUMBER_BYTES {
      return Err(TooLong);
    }
    var m := Read(lit);
    if m.None? {
      return Err(NotANumber);
    }
    var l := m.value;
    ExponentIsRead(l);
    if !ExponentInRange(l.exp) {
      return Err(ExponentTooBig);
    }
    var num, den := D.ScaledNum(l.Mantissa(), l.Power()) * Pow10(shift), D.ScaledDen(l.Mantissa(), l.Power());
    var v := Rounded(num, den);
    if Abs(v) > MAX_MICROS {
      return Err(OverCap);
    }
    return Ok(v);
  }

  /** Quotient and remainder of the magnitude, one up from half, then the sign. */
  method Rounded(num: int, den: nat) returns (v: int)
    requires den > 0
    ensures forall w :: NearestAway(w, num, den) <==> w == v
  {
    v := RoundAway(num, den);
    forall w ensures NearestAway(w, num, den) <==> w == v {
      if NearestAway(w, num, den) {
        NearestAwayIsUnique(w, v, num, den);
      }
    }
  }
}
