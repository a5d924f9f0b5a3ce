/** The comma-joined lists the roster keeps in one column, and how they are read back. */
module Lists {
  import opened Text
  import opened Sorting

  function Join(items: seq<string>): string {
    if items == [] then "" else if |items| == 1 then items[0] else items[0] + "," + Join(items[1..])
  }

  /** The text between commas; a text without one is a single part. */
  function SplitOn(s: string): (parts: seq<string>)
    ensures parts != []
    decreases |s|
  {
    var i := IndexOf(s, ',');
    if i == |s| then [s] else [s[..i]] + SplitOn(s[i + 1..])
  }

  /** The parts trimmed, the empty ones left out. */
  function Kept(parts: seq<string>): seq<string> {
    if parts == [] then []
    else if TrimSpace(parts[0]) == "" then Kept(parts[1..])
    else [TrimSpace(parts[0])] + Kept(parts[1..])
  }

  function InsertText(sorted: seq<string>, x: string): seq<string> {
    if sorted == [] || !LexLess(sorted[0], x) then [x] + sorted else [sorted[0]] + InsertText(sorted[1..], x)
  }

  function SortTexts(items: seq<string>): seq<string> {
    if items == [] then [] else InsertText(SortTexts(items[1..]), items[0])
  }

  function SplitList(s: string): seq<string> {
    if Blank(s) then [] else SortTexts(Kept(SplitOn(s)))
  }

  /** A list item as the console lets one be named: no comma, no white space, not empty. */
  predicate NameChar(c: char) {
    'a' <= c <= 'z' || '0' <= c <= '9' || c == '-'
  }

  predicate IsName(s: string) {
    s != "" && forall i :: 0 <= i < |s| ==> NameChar(s[i])
  }

  predicate AllNames(items: seq<string>) {
    forall i :: 0 <= i < |items| ==> IsName(items[i])
  }

  lemma NameTrims(s: string)
    requires IsName(s)
    ensures TrimSpace(s) == s && !IsSpace(s[0]) && !IsSpace(s[|s| - 1]) && ',' !in s
  {
    assert NameChar(s[0]) && NameChar(s[|s| - 1]);
    NameCharIsNoSpace(s[0]);
    NameCharIsNoSpace(s[|s| - 1]);
    TrimmedStays(s);
  }

  lemma NameCharIsNoSpace(c: char)
    requires NameChar(c)
    ensures !IsSpace(c)
  {
  }

  lemma {:induction false} FirstComma(x: string, rest: string)
    requires ',' !in x
    ensures IndexOf(x, ',') == |x| && IndexOf(x + "," + rest, ',') == |x|
  {
    if x != "" {
      assert x[0] != ',';
      FirstComma(x[1..], rest);
      assert (x + "," + rest)[1..] == x[1..] + "," + rest;
    }
  }

  /** A part as it comes out of a list: trimmed, not empty, no comma. */
  predicate IsItem(s: string) {
    s != "" && ',' !in s && TrimSpace(s) == s
  }

  predicate AllItems(items: seq<string>) {
    forall i :: 0 <= i < |items| ==> IsItem(items[i])
  }

  /** In order, a text possibly repeated. */
  predicate InOrder(items: seq<string>) {
    forall i, j :: 0 <= i < j < |items| ==> !LexLess(items[j], items[i])
  }

  lemma NamesAreItems(items: seq<string>)
    requires AllNames(items)
    ensures AllItems(items)
  {
    forall i | 0 <= i < |items| ensures IsItem(items[i]) {
      NameTrims(items[i]);
    }
  }

  lemma AscendingIsInOrder(items: seq<string>)
    requires Ascending(items, LexLess)
    ensures InOrder(items)
  {
    forall i, j | 0 <= i < j < |items| ensures !LexLess(items[j], items[i]) {
      LexAsymmetric(items[i], items[j]);
    }
  }

  lemma {:induction false} JoinSplits(items: seq<string>)
    requires AllItems(items) && items != []
    ensures SplitOn(Join(items)) == items
  {
    var rest := Join(items[1..]);
    FirstComma(items[0], rest);
    if |items| > 1 {
      JoinSplits(items[1..]);
      var s := items[0] + "," + rest;
      assert s[..|items[0]|] == items[0] && s[|items[0]| + 1..] == rest;
      assert items == [items[0]] + items[1..];
    }
  }

  lemma {:induction false} ItemsAreKept(items: seq<string>)
    requires AllItems(items)
    ensures Kept(items) == items
  {
    if items != [] {
      ItemsAreKept(items[1..]);
    }
  }

  lemma {:induction false} SortedStays(items: seq<string>)
    requires InOrder(items)
    ensures SortTexts(items) == items
  {
    if items != [] {
      SortedStays(items[1..]);
      if |items| > 1 {
        assert !LexLess(items[1], items[0]) && items[1..][0] == items[1];
      }
    }
  }

  lemma {:induction false} JoinIsNotBlank(items: seq<string>)
    requires AllItems(items) && items != []
    ensures var s := Join(items); s != "" && !IsSpace(s[0]) && !IsSpace(s[|s| - 1])
  {
    ItemEnds(items[0]);
    if |items| > 1 {
      JoinIsNotBlank(items[1..]);
      var s, rest := Join(items), Join(items[1..]);
      assert s[0] == items[0][0] && s[|s| - 1] == rest[|rest| - 1];
    }
  }

  lemma ItemEnds(s: string)
    requires IsItem(s)
    ensures !IsSpace(s[0]) && !IsSpace(s[|s| - 1])
  {
    assert TrimLeft(s) != "" && s[0] == TrimLeft(s)[0];
  }

  /** A list of items in order comes back from its column as it went in. */
  lemma JoinedListReadsBack(items: seq<string>)
    requires AllItems(items) && InOrder(items)
    ensures SplitList(Join(items)) == items
  {
    if items == [] {
      assert TrimSpace("") == "";
    } else {
      JoinIsNotBlank(items);
      TrimmedStays(Join(items));
      JoinSplits(items);
      ItemsAreKept(items);
      SortedStays(items);
    }
  }

  // --------------------------------------------------- what reading any column gives

  lemma {:induction false} PartsHoldNoComma(s: string)
    ensures forall i :: 0 <= i < |SplitOn(s)| ==> ',' !in SplitOn(s)[i]
    decreases |s|
  {
    var i := IndexOf(s, ',');
    if i < |s| {
      PartsHoldNoComma(s[i + 1..]);
    } else {
      assert s[..i] == s;
    }
  }

  lemma {:induction false} KeptAreItems(parts: seq<string>)
    requires forall i :: 0 <= i < |parts| ==> ',' !in parts[i]
    ensures AllItems(Kept(parts))
  {
    if parts != [] {
      KeptAreItems(parts[1..]);
      TrimIdempotent(parts[0]);
      if ',' in TrimSpace(parts[0]) {
        TrimIsPart(parts[0], ',');
      }
    }
  }

  lemma {:induction false} InsertPermutes(sorted: seq<string>, x: string)
    ensures multiset(InsertText(sorted, x)) == multiset(sorted) + multiset{x}
  {
    if sorted != [] && LexLess(sorted[0], x) {
      InsertPermutes(sorted[1..], x);
      assert sorted == [sorted[0]] + sorted[1..];
    }
  }

  lemma {:induction false} InsertKeepsOrder(sorted: seq<string>, x: string)
    requires InOrder(sorted)
    ensures InOrder(InsertText(sorted, x))
  {
    if sorted != [] && LexLess(sorted[0], x) {
      InsertKeepsOrder(sorted[1..], x);
      InsertPermutes(sorted[1..], x);
      HeadBeforeRest(sorted, x);
    } else if sorted != [] {
      FitsInFront(sorted, x);
    }
  }

  lemma FitsInFront(sorted: seq<string>, x: string)
    requires sorted != [] && InOrder(sorted) && !LexLess(sorted[0], x)
    ensures InOrder([x] + sorted)
  {
    forall j | 0 < j < |sorted| ensures !LexLess(sorted[j], x) {
      NotBefore(sorted[j], sorted[0], x);
    }
  }

  /** Not coming before carries over. */
  lemma NotBefore(a: string, b: string, c: string)
    requires !LexLess(a, b) && !LexLess(b, c)
    ensures !LexLess(a, c)
  {
    LexOrder(b, a, c);
    LexOrder(c, b, a);
    LexOrder(a, c, b);
  }

  lemma HeadBeforeRest(sorted: seq<string>, x: string)
    requires sorted != [] && InOrder(sorted) && LexLess(sorted[0], x)
    requires var rest := InsertText(sorted[1..], x);
             InOrder(rest) && multiset(rest) == multiset(sorted[1..]) + multiset{x}
    ensures InOrder([sorted[0]] + InsertText(sorted[1..], x))
  {
    var rest := InsertText(sorted[1..], x);
    forall j | 0 <= j < |rest| ensures !LexLess(rest[j], sorted[0]) {
      assert rest[j] in multiset(rest);
      if rest[j] != x {
        var k :| 0 <= k < |sorted[1..]| && sorted[1..][k] == rest[j];
        assert sorted[k + 1] == rest[j];
      } else {
        LexAsymmetric(sorted[0], x);
      }
    }
  }

  lemma {:induction false} SortKeeps(items: seq<string>)
    ensures InOrder(SortTexts(items)) && multiset(SortTexts(items)) == multiset(items)
  {
    if items != [] {
      SortKeeps(items[1..]);
      InsertKeepsOrder(SortTexts(items[1..]), items[0]);
      InsertPermutes(SortTexts(items[1..]), items[0]);
      assert items == [items[0]] + items[1..];
    }
  }

  lemma ItemsAsPermuted(a: seq<string>, b: seq<string>)
    requires AllItems(a) && multiset(a) == multiset(b)
    ensures AllItems(b)
  {
    forall i | 0 <= i < |b| ensures IsItem(b[i]) {
      assert b[i] in multiset(a);
    }
  }

  /** What a column reads as is a list of items in order, whatever was typed into it, so
      writing it back and reading it again gives the same list. */
  lemma ReadListIsItems(s: string)
    ensures AllItems(SplitList(s)) && InOrder(SplitList(s)) && SplitList(Join(SplitList(s))) == SplitList(s)
  {
    if !Blank(s) {
      PartsHoldNoComma(s);
      KeptAreItems(SplitOn(s));
      SortKeeps(Kept(SplitOn(s)));
      ItemsAsPermuted(Kept(SplitOn(s)), SplitList(s));
    }
    JoinedListReadsBack(SplitList(s));
  }
}
