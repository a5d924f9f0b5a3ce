/** Strings as the source handles them: decimal digits, fields between separators, order. */
module Text {
  import opened Arith

  predicate IsDigit(c: char) {
    '0' <= c <= '9'
  }

  predicate IsDigits(s: string) {
    forall i :: 0 <= i < |s| ==> IsDigit(s[i])
  }

  function DigitOf(c: char): (d: nat)
    requires IsDigit(c)
    ensures d < 10
  {
    (c - '0') as int
  }

  function DigitChar(d: nat): (c: char)
    requires d < 10
    ensures IsDigit(c) && DigitOf(c) == d
  {
    '0' + d as char
  }

  /** The number a run of digits writes. */
  function NatOf(s: string): nat
    requires IsDigits(s)
  {
    if s == "" then 0 else 10 * NatOf(s[..|s| - 1]) + DigitOf(s[|s| - 1])
  }

  /** A number in decimal, no leading zero. */
  function Decimal(n: nat): (s: string)
    ensures s != "" && IsDigits(s) && NatOf(s) == n
  {
    if n < 10 then
      var s := [DigitChar(n)];
      assert s[..0] == "";
      s
    else
      var s := Decimal(n / 10) + [DigitChar(n % 10)];
      assert s[..|s| - 1] == Decimal(n / 10);
      s
  }

  function Pow10(n: nat): (p: nat)
    ensures p > 0
  {
    if n == 0 then 1 else 10 * Pow10(n - 1)
  }

  lemma {:induction false} Pow10Add(a: nat, b: nat)
    ensures Pow10(a + b) == Pow10(a) * Pow10(b)
    decreases a
  {
    if a > 0 {
      Pow10Add(a - 1, b);
      MulAssociative(10, Pow10(a - 1), Pow10(b));
    }
  }

  lemma {:induction false} NatOfAppend(a: string, b: string)
    requires IsDigits(a) && IsDigits(b)
    ensures IsDigits(a + b) && NatOf(a + b) == NatOf(a) * Pow10(|b|) + NatOf(b)
  {
    if b == "" {
      assert a + b == a;
    } else {
      var c := b[..|b| - 1];
      NatOfAppend(a, c);
      assert (a + b)[..|a + b| - 1] == a + c;
      MulAssociative(NatOf(a), 10, Pow10(|c|));
      MulAssociative(10, NatOf(a), Pow10(|c|));
    }
  }

  lemma {:induction false} NatOfBound(s: string)
    requires IsDigits(s)
    ensures NatOf(s) < Pow10(|s|)
  {
    if s != "" {
      NatOfBound(s[..|s| - 1]);
    }
  }

  function Zeros(n: nat): (z: string)
    ensures |z| == n && IsDigits(z)
  {
    if n == 0 then "" else Zeros(n - 1) + "0"
  }

  lemma {:induction false} NatOfZeros(n: nat)
    ensures NatOf(Zeros(n)) == 0
  {
    if n > 0 {
      NatOfZeros(n - 1);
      assert Zeros(n)[..n - 1] == Zeros(n - 1);
    }
  }

  /** Where a character first stands, or the length when it stands nowhere. */
  function IndexOf(s: string, c: char): (i: nat)
    ensures i <= |s| && c !in s[..i]
    ensures i < |s| ==> s[i] == c
  {
    if s == "" || s[0] == c then 0 else 1 + IndexOf(s[1..], c)
  }

  /** The text before the first separator and the text after it ("" when there is none). */
  function Cut(s: string, sep: char): (parts: (string, string))
    ensures sep !in parts.0
    ensures (s == parts.0 && parts.1 == "") || s == parts.0 + [sep] + parts.1
  {
    var i := IndexOf(s, sep);
    if i == |s| then (s, "") else (s[..i], s[i + 1..])
  }

  /** White space as the source trims it. */
  predicate IsSpace(c: char) {
    || c == ' ' || '\t' <= c <= '\r' || c == '\U{85}' || c == '\U{A0}' || c == '\U{1680}'
    || '\U{2000}' <= c <= '\U{200A}' || c == '\U{2028}' || c == '\U{2029}' || c == '\U{202F}'
    || c == '\U{205F}' || c == '\U{3000}'
  }

  function TrimLeft(s: string): (t: string)
    ensures t == "" || !IsSpace(t[0])
  {
    if s != "" && IsSpace(s[0]) then TrimLeft(s[1..]) else s
  }

  function TrimRight(s: string): (t: string)
    ensures t == "" || (!IsSpace(t[|t| - 1]) && s != "" && t[0] == s[0])
  {
    if s != "" && IsSpace(s[|s| - 1]) then TrimRight(s[..|s| - 1]) else s
  }

  function TrimSpace(s: string): string {
    TrimRight(TrimLeft(s))
  }

  lemma TrimmedStays(s: string)
    requires s != "" && !IsSpace(s[0]) && !IsSpace(s[|s| - 1])
    ensures TrimSpace(s) == s
  {
  }

  lemma TrimIdempotent(text: string)
    ensures TrimSpace(TrimSpace(text)) == TrimSpace(text)
  {
    var s := TrimSpace(text);
    if s != "" {
      assert s[0] == TrimLeft(text)[0];
      TrimmedStays(s);
    }
  }

  lemma {:induction false} TrimLeftIsPart(s: string, c: char)
    requires c in TrimLeft(s)
    ensures c in s
  {
    if s != "" && IsSpace(s[0]) {
      TrimLeftIsPart(s[1..], c);
    }
  }

  lemma {:induction false} TrimRightIsPart(s: string, c: char)
    requires c in TrimRight(s)
    ensures c in s
  {
    if s != "" && IsSpace(s[|s| - 1]) {
      TrimRightIsPart(s[..|s| - 1], c);
    }
  }

  /** Trimming leaves no character that was not there. */
  lemma TrimIsPart(s: string, c: char)
    requires c in TrimSpace(s)
    ensures c in s
  {
    TrimRightIsPart(TrimLeft(s), c);
    TrimLeftIsPart(s, c);
  }

  predicate Blank(s: string) {
    TrimSpace(s) == ""
  }

  /** A text somebody gave as a reason, and whether it is more than white space. */
  datatype Note = Note(text: string, given: bool)

  function NoteOf(s: string): Note {
    Note(s, !Blank(s))
  }

  /** The last field of a separated line is determined when it holds no separator. */
  lemma LastField(a: string, x: string, b: string, y: string, sep: char)
    requires a + [sep] + x == b + [sep] + y
    requires sep !in x && sep !in y
    ensures a == b && x == y
  {
    var line := a + [sep] + x;
    assert line[|a|] == sep && line[|b|] == sep;
    assert |a| == |b|;
    assert a == line[..|a|] && b == line[..|b|];
    assert x == line[|a| + 1..] && y == line[|b| + 1..];
  }

  /** The first field likewise. */
  lemma FirstField(x: string, a: string, y: string, b: string, sep: char)
    requires x + [sep] + a == y + [sep] + b
    requires sep !in x && sep !in y
    ensures a == b && x == y
  {
    var line := x + [sep] + a;
    assert line[|x|] == sep && line[|y|] == sep;
    assert |x| == |y|;
    assert x == line[..|x|] && y == line[..|y|];
    assert a == line[|x| + 1..] && b == line[|y| + 1..];
  }

  lemma DigitsHoldNoSeparator(s: string, sep: char)
    requires IsDigits(s) && !IsDigit(sep)
    ensures sep !in s
  {
  }

  // ------------------------------------------------------------------ order

  /** Strings in code point order, as Go and SQLite compare them. */
  predicate LexLess(a: string, b: string) {
    b != "" && (a == "" || a[0] < b[0] || (a[0] == b[0] && LexLess(a[1..], b[1..])))
  }

  /** What decides is the first place where two texts differ, the smaller character first, and a text
      comes before any longer one that begins with it. */
  lemma {:induction false} FirstDifferenceDecides(same: string, c: char, a: string, d: char, b: string)
    requires c < d
    ensures LexLess(same + ([c] + a), same + ([d] + b)) && LexLess(same, same + ([c] + a))
    decreases |same|
  {
    if same != "" {
      FirstDifferenceDecides(same[1..], c, a, d, b);
      assert (same + ([c] + a))[1..] == same[1..] + ([c] + a);
      assert (same + ([d] + b))[1..] == same[1..] + ([d] + b);
    } else {
      assert same + ([c] + a) == [c] + a && same + ([d] + b) == [d] + b;
    }
  }

  lemma {:induction false} LexTotal(a: string, b: string)
    ensures LexLess(a, b) || LexLess(b, a) || a == b
  {
    if a != "" && b != "" && a[0] == b[0] {
      LexTotal(a[1..], b[1..]);
      assert a == [a[0]] + a[1..] && b == [b[0]] + b[1..];
    }
  }

  lemma {:induction false} LexAsymmetric(a: string, b: string)
    requires LexLess(a, b)
    ensures !LexLess(b, a) && a != b
  {
    if a != "" && a[0] == b[0] {
      LexAsymmetric(a[1..], b[1..]);
    }
  }

  lemma {:induction false} LexTransitive(a: string, b: string, c: string)
    requires LexLess(a, b) && LexLess(b, c)
    ensures LexLess(a, c)
  {
    if a != "" && a[0] == b[0] == c[0] {
      LexTransitive(a[1..], b[1..], c[1..]);
    }
  }

  /** So it is a strict total order. */
  lemma LexOrder(a: string, b: string, c: string)
    ensures !LexLess(a, a)
    ensures LexLess(a, b) ==> !LexLess(b, a)
    ensures a != b ==> LexLess(a, b) || LexLess(b, a)
    ensures LexLess(a, b) && LexLess(b, c) ==> LexLess(a, c)
  {
    if LexLess(a, a) { LexAsymmetric(a, a); }
    if LexLess(a, b) { LexAsymmetric(a, b); }
    LexTotal(a, b);
    if LexLess(a, b) && LexLess(b, c) { LexTransitive(a, b, c); }
  }
}
