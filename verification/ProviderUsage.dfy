/**
 The provider usage import: of all report files in a folder, the last by name that carries a
 day says what the provider billed for it, and the day's rows are replaced whole.
 */
module ProviderUsage {
  import opened Arith
  import opened Wrappers
  import opened Tables
  import opened Text
  import opened Sorting
  import opened UsageFile

  /** What became of one file of the folder, in name order. */
  datatype FileRead = Unread | ReadAs(name: string, sha: string, parsed: Parsed)

  datatype DayKey = DayKey(report: string, day: string)

  datatype RowKey = RowKey(connector: string, row: UsageKey)

  datatype DayRow = DayRow(connector: string, day: DayKey)

  datatype Source = Source(file: string, sha: string)

  datatype ImportError = NothingRead | SumsTooBig

  function Get<K, V>(m: map<K, V>, k: K): Option<V> {
    if k in m then Some(m[k]) else None
  }

  function DayOf(k: UsageKey): DayKey {
    DayKey(k.report, k.day)
  }

  // ------------------------------------------------------------ which file a day is from

  predicate SeenBefore(files: seq<FileRead>, n: nat, sha: string)
    requires n <= |files|
  {
    n > 0 && ((files[n - 1].ReadAs? && files[n - 1].sha == sha) || SeenBefore(files, n - 1, sha))
  }

  /** A file is retained when it was read and no earlier one held the same bytes. */
  predicate Retained(files: seq<FileRead>, i: nat)
    requires i < |files|
  {
    files[i].ReadAs? && !SeenBefore(files, i, files[i].sha)
  }

  predicate Carries(files: seq<FileRead>, i: nat, key: DayKey)
    requires i < |files|
  {
    Retained(files, i) && files[i].parsed.report == key.report && key.day in files[i].parsed.days
  }

  /** The last of the first n files that carries the day. */
  function Winner(files: seq<FileRead>, key: DayKey, n: nat): (w: Option<nat>)
    requires n <= |files|
    ensures w.Some? ==> w.value < n && Retained(files, w.value)
  {
    if n == 0 then None else if Carries(files, n - 1, key) then Some(n - 1) else Winner(files, key, n - 1)
  }

  lemma {:induction false} LastCarrierWins(files: seq<FileRead>, key: DayKey, n: nat, i: nat)
    requires n <= |files|
    ensures Winner(files, key, n) == Some(i)
            <==> i < n && Carries(files, i, key) && forall j :: i < j < n ==> !Carries(files, j, key)
    ensures Winner(files, key, n).None? ==> forall j :: 0 <= j < n ==> !Carries(files, j, key)
  {
    if n > 0 {
      LastCarrierWins(files, key, n - 1, i);
    }
  }

  // --------------------------------------------------------------- what an import leaves

  /** The row a folder says a key holds, if any of its files won the day and holds the key. */
  function FreshRow(files: seq<FileRead>, k: UsageKey): Option<Figures> {
    var w := Winner(files, DayOf(k), |files|);
    if w.None? then None else Get(files[w.value].parsed.rows, k)
  }

  function RowAfter(before: map<RowKey, Figures>, connector: string, files: seq<FileRead>, k: RowKey): Option<Figures> {
    if k.connector == connector && Winner(files, DayOf(k.row), |files|).Some?
    then FreshRow(files, k.row) else Get(before, k)
  }

  function DayAfter(before: map<DayRow, Source>, connector: string, files: seq<FileRead>, d: DayRow): Option<Source> {
    var w := Winner(files, d.day, |files|);
    if d.connector == connector && w.Some?
    then Some(Source(files[w.value].name, files[w.value].sha)) else Get(before, d)
  }

  /** Each day a retained file carries holds exactly the winning file's rows; everything else
      is as it was. */
  ghost predicate RowsReplaced(before: map<RowKey, Figures>, after: map<RowKey, Figures>, connector: string,
                               files: seq<FileRead>)
  {
    forall k :: Get(after, k) == RowAfter(before, connector, files, k)
  }

  ghost predicate DaysReplaced(before: map<DayRow, Source>, after: map<DayRow, Source>, connector: string,
                               files: seq<FileRead>)
  {
    forall d :: Get(after, d) == DayAfter(before, connector, files, d)
  }

  lemma SameTable<K, V>(a: map<K, V>, b: map<K, V>)
    requires forall k :: Get(a, k) == Get(b, k)
    ensures a == b
  {
    forall k ensures k in a <==> k in b {
      assert Get(a, k) == Get(b, k);
    }
    forall k | k in a ensures a[k] == b[k] {
      assert Get(a, k) == Get(b, k);
    }
  }

  /** Importing the same folder again changes nothing. */
  lemma ImportTwiceIsImportOnce(before: map<RowKey, Figures>, once: map<RowKey, Figures>, twice: map<RowKey, Figures>,
                                daysBefore: map<DayRow, Source>, daysOnce: map<DayRow, Source>,
                                daysTwice: map<DayRow, Source>, connector: string, files: seq<FileRead>)
    requires RowsReplaced(before, once, connector, files) && RowsReplaced(once, twice, connector, files)
    requires DaysReplaced(daysBefore, daysOnce, connector, files) && DaysReplaced(daysOnce, daysTwice, connector, files)
    ensures once == twice && daysOnce == daysTwice
  {
    forall k ensures Get(once, k) == Get(twice, k) {
      assert Get(once, k) == RowAfter(before, connector, files, k);
    }
    SameTable(once, twice);
    forall d ensures Get(daysOnce, d) == Get(daysTwice, d) {
      assert Get(daysOnce, d) == DayAfter(daysBefore, connector, files, d);
    }
    SameTable(daysOnce, daysTwice);
  }

  // ------------------------------------------------------------- the order rows are summed in

  function Columns(k: UsageKey): seq<string> {
    [k.report, k.day, k.model, k.tokenType, k.apiKey, k.scope]
  }

  /** The first column that differs decides. */
  predicate ListBefore(a: seq<string>, b: seq<string>)
    requires |a| == |b|
  {
    a != [] && (LexLess(a[0], b[0]) || (a[0] == b[0] && ListBefore(a[1..], b[1..])))
  }

  predicate KeyBefore(a: UsageKey, b: UsageKey) {
    ListBefore(Columns(a), Columns(b))
  }

  lemma {:induction false} ListOrder(a: seq<string>, b: seq<string>, c: seq<string>)
    requires |a| == |b| == |c|
    ensures !ListBefore(a, a)
    ensures a != b ==> ListBefore(a, b) || ListBefore(b, a)
    ensures ListBefore(a, b) && ListBefore(b, c) ==> ListBefore(a, c)
  {
    if a != [] {
      LexOrder(a[0], b[0], c[0]);
      ListOrder(a[1..], b[1..], c[1..]);
      assert a == [a[0]] + a[1..] && b == [b[0]] + b[1..];
    }
  }

  lemma KeysAreOrdered(keys: set<UsageKey>)
    ensures Orders(KeyBefore, keys)
  {
    forall x: UsageKey ensures !KeyBefore(x, x) {
      ListOrder(Columns(x), Columns(x), Columns(x));
    }
    forall x: UsageKey, y: UsageKey | x != y ensures KeyBefore(x, y) || KeyBefore(y, x) {
      ColumnsTellApart(x, y);
      ListOrder(Columns(x), Columns(y), Columns(y));
    }
    forall x: UsageKey, y: UsageKey, z: UsageKey | KeyBefore(x, y) && KeyBefore(y, z) ensures KeyBefore(x, z) {
      ListOrder(Columns(x), Columns(y), Columns(z));
    }
  }

  lemma ColumnsTellApart(x: UsageKey, y: UsageKey)
    ensures Columns(x) == Columns(y) ==> x == y
  {
    assert forall i :: 0 <= i < 6 && Columns(x) == Columns(y) ==> Columns(x)[i] == Columns(y)[i];
  }

  /** The figures the import reports, each refused before it would pass 64 bits. */
  datatype Sums = Sums(cost: int, tokensIn: int, tokensOut: int)

  function AddRow(s: Sums, k: UsageKey, f: Figures, inputTypes: set<string>): Option<Sums> {
    if k.report == "cost" then
      if (f.micros > 0 && s.cost > MAX_INT64 - f.micros) || (f.micros < 0 && s.cost < MIN_INT64 - f.micros) then None
      else Some(s.(cost := s.cost + f.micros))
    else
      var isInput, isOutput := k.tokenType in inputTypes, k.tokenType == "output_tokens";
      if isInput && s.tokensIn <= MAX_INT64 - f.tokens then Some(s.(tokensIn := s.tokensIn + f.tokens))
      else if isOutput && s.tokensOut <= MAX_INT64 - f.tokens then Some(s.(tokensOut := s.tokensOut + f.tokens))
      else if isInput || isOutput then None
      else Some(s)
  }

  function AddRows(keys: seq<UsageKey>, rows: map<UsageKey, Figures>, inputTypes: set<string>, n: nat): Option<Sums>
    requires n <= |keys| && forall k :: k in keys ==> k in rows
  {
    if n == 0 then Some(Sums(0, 0, 0))
    else
      match AddRows(keys, rows, inputTypes, n - 1)
      case None => None
      case Some(s) => AddRow(s, keys[n - 1], rows[keys[n - 1]], inputTypes)
  }

  /** The cost rows among the first n added up. */
  function CostOf(keys: seq<UsageKey>, rows: map<UsageKey, Figures>, n: nat): int
    requires n <= |keys| && forall k :: k in keys ==> k in rows
  {
    if n == 0 then 0
    else CostOf(keys, rows, n - 1) + (if keys[n - 1].report == "cost" then rows[keys[n - 1]].micros else 0)
  }

  /** The input tokens, or else the output tokens, of the first n usage rows added up. */
  function TokensOf(keys: seq<UsageKey>, rows: map<UsageKey, Figures>, inputTypes: set<string>, input: bool,
                    n: nat): int
    requires n <= |keys| && forall k :: k in keys ==> k in rows
  {
    if n == 0 then 0
    else
      var k := keys[n - 1];
      var mine := k.report != "cost"
                  && (if input then k.tokenType in inputTypes
                      else k.tokenType !in inputTypes && k.tokenType == "output_tokens");
      TokensOf(keys, rows, inputTypes, input, n - 1) + (if mine then rows[k].tokens else 0)
  }

  /** The three sums that are reported are exact, and none left 64 bits on the way; of the two of
      tokens that is so because no connector counts output_tokens as input. */
  lemma {:induction false} ReportedSumsAreExact(keys: seq<UsageKey>, rows: map<UsageKey, Figures>,
                                                inputTypes: set<string>, n: nat)
    requires n <= |keys| && (forall k :: k in keys ==> k in rows) && InRange(rows)
    requires AddRows(keys, rows, inputTypes, n).Some?
    ensures AddRows(keys, rows, inputTypes, n).value.cost == CostOf(keys, rows, n)
    ensures forall m :: 0 <= m <= n ==> FitsInt64(CostOf(keys, rows, m))
    ensures "output_tokens" !in inputTypes ==>
              && AddRows(keys, rows, inputTypes, n).value.tokensIn == TokensOf(keys, rows, inputTypes, true, n)
              && AddRows(keys, rows, inputTypes, n).value.tokensOut == TokensOf(keys, rows, inputTypes, false, n)
    ensures "output_tokens" !in inputTypes ==>
              forall m, input :: 0 <= m <= n ==> FitsInt64(TokensOf(keys, rows, inputTypes, input, m))
  {
    if n > 0 {
      ReportedSumsAreExact(keys, rows, inputTypes, n - 1);
    }
  }

  /** Summing is refused exactly where a partial sum of the costs, or a direction's tokens, leaves
      64 bits. */
  lemma {:induction false} SumsFitIff(keys: seq<UsageKey>, rows: map<UsageKey, Figures>, inputTypes: set<string>,
                                      n: nat)
    requires n <= |keys| && (forall k :: k in keys ==> k in rows) && InRange(rows) && "output_tokens" !in inputTypes
    ensures AddRows(keys, rows, inputTypes, n).Some? <==>
            forall m :: 0 <= m <= n ==>
              && FitsInt64(CostOf(keys, rows, m))
              && FitsInt64(TokensOf(keys, rows, inputTypes, true, m))
              && FitsInt64(TokensOf(keys, rows, inputTypes, false, m))
  {
    if n > 0 {
      SumsFitIff(keys, rows, inputTypes, n - 1);
      TokensNeverFall(keys, rows, inputTypes, n - 1);
      if AddRows(keys, rows, inputTypes, n - 1).Some? {
        ReportedSumsAreExact(keys, rows, inputTypes, n - 1);
        var s := AddRows(keys, rows, inputTypes, n - 1).value;
        NextRowFits(s, keys[n - 1], rows[keys[n - 1]], inputTypes);
        assert FitsInt64(CostOf(keys, rows, n)) <==> FitsInt64(s.cost + CostShare(keys[n - 1], rows[keys[n - 1]]));
      }
    }
  }

  function CostShare(k: UsageKey, f: Figures): int {
    if k.report == "cost" then f.micros else 0
  }

  lemma NextRowFits(s: Sums, k: UsageKey, f: Figures, inputTypes: set<string>)
    requires FitsInt64(s.cost) && 0 <= s.tokensIn <= MAX_INT64 && 0 <= s.tokensOut <= MAX_INT64
    requires 0 <= f.tokens <= MAX_INT64 && FitsInt64(f.micros) && "output_tokens" !in inputTypes
    ensures AddRow(s, k, f, inputTypes).Some? <==>
            && FitsInt64(s.cost + CostShare(k, f))
            && FitsInt64(s.tokensIn + (if k.report != "cost" && k.tokenType in inputTypes then f.tokens else 0))
            && FitsInt64(s.tokensOut + (if k.report != "cost" && k.tokenType == "output_tokens" then f.tokens else 0))
  {
  }

  lemma {:induction false} TokensNeverFall(keys: seq<UsageKey>, rows: map<UsageKey, Figures>, inputTypes: set<string>,
                                           n: nat)
    requires n <= |keys| && (forall k :: k in keys ==> k in rows) && InRange(rows)
    ensures TokensOf(keys, rows, inputTypes, true, n) >= 0 && TokensOf(keys, rows, inputTypes, false, n) >= 0
  {
    if n > 0 {
      TokensNeverFall(keys, rows, inputTypes, n - 1);
    }
  }

  /** What one more row adds to which sum. */
  lemma OneRowAdds(keys: seq<UsageKey>, rows: map<UsageKey, Figures>, inputTypes: set<string>, n: nat)
    requires n < |keys| && forall k :: k in keys ==> k in rows
    ensures var k, f := keys[n], rows[keys[n]];
            && CostOf(keys, rows, n + 1) - CostOf(keys, rows, n) == (if k.report == "cost" then f.micros else 0)
            && TokensOf(keys, rows, inputTypes, true, n + 1) - TokensOf(keys, rows, inputTypes, true, n)
               == (if k.report != "cost" && k.tokenType in inputTypes then f.tokens else 0)
            && ("output_tokens" !in inputTypes ==>
                  TokensOf(keys, rows, inputTypes, false, n + 1) - TokensOf(keys, rows, inputTypes, false, n)
                  == (if k.report != "cost" && k.tokenType == "output_tokens" then f.tokens else 0))
  {
  }

  lemma NotBeforeItself(s: string)
    ensures !LexLess(s, s)
  {
    LexOrder(s, s, s);
  }

  /** The order of the rows: by report, then day, model, token type, key and scope. */
  lemma KeyOrder(a: UsageKey, b: UsageKey)
    ensures KeyBefore(a, b) <==>
            if a.report != b.report then LexLess(a.report, b.report)
            else if a.day != b.day then LexLess(a.day, b.day)
            else if a.model != b.model then LexLess(a.model, b.model)
            else if a.tokenType != b.tokenType then LexLess(a.tokenType, b.tokenType)
            else if a.apiKey != b.apiKey then LexLess(a.apiKey, b.apiKey)
            else LexLess(a.scope, b.scope)
  {
    ListStep(a.report, b.report, [a.day, a.model, a.tokenType, a.apiKey, a.scope],
             [b.day, b.model, b.tokenType, b.apiKey, b.scope]);
    ListStep(a.day, b.day, [a.model, a.tokenType, a.apiKey, a.scope], [b.model, b.tokenType, b.apiKey, b.scope]);
    ListStep(a.model, b.model, [a.tokenType, a.apiKey, a.scope], [b.tokenType, b.apiKey, b.scope]);
    ListStep(a.tokenType, b.tokenType, [a.apiKey, a.scope], [b.apiKey, b.scope]);
    ListStep(a.apiKey, b.apiKey, [a.scope], [b.scope]);
    ListStep(a.scope, b.scope, [], []);
    assert Columns(a) == [a.report] + [a.day, a.model, a.tokenType, a.apiKey, a.scope];
    assert Columns(b) == [b.report] + [b.day, b.model, b.tokenType, b.apiKey, b.scope];
    assert [a.day, a.model, a.tokenType, a.apiKey, a.scope] == [a.day] + [a.model, a.tokenType, a.apiKey, a.scope];
    assert [b.day, b.model, b.tokenType, b.apiKey, b.scope] == [b.day] + [b.model, b.tokenType, b.apiKey, b.scope];
    assert [a.model, a.tokenType, a.apiKey, a.scope] == [a.model] + [a.tokenType, a.apiKey, a.scope];
    assert [b.model, b.tokenType, b.apiKey, b.scope] == [b.model] + [b.tokenType, b.apiKey, b.scope];
    assert [a.tokenType, a.apiKey, a.scope] == [a.tokenType] + [a.apiKey, a.scope];
    assert [b.tokenType, b.apiKey, b.scope] == [b.tokenType] + [b.apiKey, b.scope];
    assert [a.apiKey, a.scope] == [a.apiKey] + [a.scope] && [b.apiKey, b.scope] == [b.apiKey] + [b.scope];
  }

  lemma ListStep(x: string, y: string, a: seq<string>, b: seq<string>)
    requires |a| == |b|
    ensures ListBefore([x] + a, [y] + b) <==> if x != y then LexLess(x, y) else ListBefore(a, b)
  {
    NotBeforeItself(x);
    assert ([x] + a)[1..] == a && ([y] + b)[1..] == b;
  }

  /** The rows are summed in the one ascending order of their keys. */
  ghost predicate FolderFits(rows: map<UsageKey, Figures>, inputTypes: set<string>) {
    forall keys :: Ascending(keys, KeyBefore) && Elements(keys) == rows.Keys ==> Summed(keys, rows, inputTypes)
  }

  predicate Summed(keys: seq<UsageKey>, rows: map<UsageKey, Figures>, inputTypes: set<string>)
    requires Elements(keys) == rows.Keys
  {
    InTable(keys, rows);
    AddRows(keys, rows, inputTypes, |keys|).Some?
  }

  lemma InTable(keys: seq<UsageKey>, rows: map<UsageKey, Figures>)
    requires Elements(keys) == rows.Keys
    ensures forall k :: k in keys <==> k in rows
  {
    assert forall k :: k in keys <==> k in Elements(keys);
  }

  method SumRows(rows: map<UsageKey, Figures>, inputTypes: set<string>)
    returns (ok: bool, ghost order: seq<UsageKey>)
    ensures ok <==> FolderFits(rows, inputTypes)
    ensures Ascending(order, KeyBefore) && Elements(order) == rows.Keys
  {
    KeysAreOrdered(rows.Keys);
    var keys := Sort(rows.Keys, KeyBefore);
    order := keys;
    InTable(keys, rows);
    ok := SumInOrder(keys, rows, inputTypes);
    forall other | Ascending(other, KeyBefore) && Elements(other) == rows.Keys ensures other == keys {
      OneAscendingOrder(other, keys, KeyBefore);
    }
  }

  method SumInOrder(keys: seq<UsageKey>, rows: map<UsageKey, Figures>, inputTypes: set<string>) returns (ok: bool)
    requires forall k :: k in keys ==> k in rows
    ensures ok <==> AddRows(keys, rows, inputTypes, |keys|).Some?
  {
    var sums := Sums(0, 0, 0);
    var i := 0;
    while i < |keys|
      invariant i <= |keys| && AddRows(keys, rows, inputTypes, i) == Some(sums)
    {
      var next := AddRow(sums, keys[i], rows[keys[i]], inputTypes);
      if next.None? {
        NoneStaysNone(keys, rows, inputTypes, i + 1);
        return false;
      }
      sums := next.value;
      i := i + 1;
    }
    return true;
  }

  lemma {:induction false} NoneStaysNone(keys: seq<UsageKey>, rows: map<UsageKey, Figures>, inputTypes: set<string>,
                                         n: nat)
    requires n <= |keys| && (forall k :: k in keys ==> k in rows) && AddRows(keys, rows, inputTypes, n).None?
    ensures AddRows(keys, rows, inputTypes, |keys|).None?
    decreases |keys| - n
  {
    if n < |keys| {
      NoneStaysNone(keys, rows, inputTypes, n + 1);
    }
  }

  // ------------------------------------------------------------------- the import

  /** Drops the files not read and the later of two with the same bytes. */
  method Retain(files: seq<FileRead>) returns (kept: seq<Option<Parsed>>)
    ensures |kept| == |files|
    ensures forall i :: 0 <= i < |files| ==> kept[i] == if Retained(files, i) then Some(files[i].parsed) else None
  {
    kept := [];
    var seen: set<string> := {};
    var i := 0;
    while i < |files|
      invariant i <= |files| && |kept| == i
      invariant forall sha :: sha in seen <==> SeenBefore(files, i, sha)
      invariant forall j :: 0 <= j < i ==> kept[j] == if Retained(files, j) then Some(files[j].parsed) else None
    {
      if files[i].Unread? || files[i].sha in seen {
        kept := kept + [None];
      } else {
        seen := seen + {files[i].sha};
        kept := kept + [Some(files[i].parsed)];
      }
      i := i + 1;
    }
  }

  method PickWinners(files: seq<FileRead>) returns (winners: map<DayKey, nat>)
    ensures forall d :: Get(winners, d) == Winner(files, d, |files|)
  {
    var kept := Retain(files);
    winners := map[];
    var i := 0;
    while i < |files|
      invariant i <= |files| && forall d :: Get(winners, d) == Winner(files, d, i)
    {
      if kept[i].Some? {
        winners := WinDays(winners, kept[i].value, i);
      }
      i := i + 1;
    }
  }

  method WinDays(winners: map<DayKey, nat>, p: Parsed, i: nat) returns (after: map<DayKey, nat>)
    ensures forall d: DayKey ::
              Get(after, d) == if d.report == p.report && d.day in p.days then Some(i) else Get(winners, d)
  {
    after := winners;
    var j := 0;
    while j < |p.days|
      invariant j <= |p.days|
      invariant forall d: DayKey ::
                  Get(after, d) == if d.report == p.report && d.day in p.days[..j] then Some(i) else Get(winners, d)
    {
      after := after[DayKey(p.report, p.days[j]) := i];
      j := j + 1;
    }
    assert p.days[..j] == p.days;
  }

  /** The rows of the winning files; no key comes from two of them. */
  method Gather(files: seq<FileRead>, winners: map<DayKey, nat>) returns (latest: map<UsageKey, Figures>)
    requires forall d :: Get(winners, d) == Winner(files, d, |files|)
    ensures forall k :: Get(latest, k) == FreshRow(files, k)
  {
    latest := map[];
    var kept := Retain(files);
    var i := 0;
    while i < |files|
      invariant i <= |files|
      invariant forall k :: Get(latest, k) == FreshUpTo(files, k, i)
    {
      if kept[i].Some? {
        latest := GatherFile(latest, kept[i].value.rows, winners, i);
      }
      i := i + 1;
    }
  }

  function FreshUpTo(files: seq<FileRead>, k: UsageKey, n: nat): Option<Figures> {
    var w := Winner(files, DayOf(k), |files|);
    if w.None? || w.value >= n then None else Get(files[w.value].parsed.rows, k)
  }

  method GatherFile(latest: map<UsageKey, Figures>, rows: map<UsageKey, Figures>, winners: map<DayKey, nat>, i: nat)
    returns (more: map<UsageKey, Figures>)
    ensures forall k :: Get(more, k) == Gathered(latest, rows, rows.Keys, winners, i, k)
  {
    more := latest;
    var todo := rows.Keys;
    ghost var done: set<UsageKey> := {};
    while todo != {}
      invariant done + todo == rows.Keys
      invariant forall k :: Get(more, k) == Gathered(latest, rows, done, winners, i, k)
    {
      var k :| k in todo;
      ghost var was := more;
      if Get(winners, DayOf(k)) == Some(i) {
        more := more[k := rows[k]];
      }
      forall x ensures Get(more, x) == Gathered(latest, rows, done + {k}, winners, i, x) {
        assert Get(was, x) == Gathered(latest, rows, done, winners, i, x);
      }
      done, todo := done + {k}, todo - {k};
    }
  }

  function Gathered(latest: map<UsageKey, Figures>, rows: map<UsageKey, Figures>, done: set<UsageKey>,
                    winners: map<DayKey, nat>, i: nat, k: UsageKey): Option<Figures>
    requires done <= rows.Keys
  {
    if k in done && Get(winners, DayOf(k)) == Some(i) then Some(rows[k]) else Get(latest, k)
  }

  /** A row when some days of a connector have been cleared. */
  function Cleared(rows: map<RowKey, Figures>, connector: string, gone: set<DayKey>, k: RowKey): Option<Figures> {
    if k.connector == connector && DayOf(k.row) in gone then None else Get(rows, k)
  }

  function Stamped(days: map<DayRow, Source>, connector: string, sources: map<DayKey, Source>, done: set<DayKey>,
                   d: DayRow)
    : Option<Source>
    requires done <= sources.Keys
  {
    if d.connector == connector && d.day in done then Some(sources[d.day]) else Get(days, d)
  }

  /** A row when some of a connector's rows have been inserted. */
  function Inserted(rows: map<RowKey, Figures>, connector: string, latest: map<UsageKey, Figures>, done: set<UsageKey>,
                    k: RowKey): Option<Figures>
    requires done <= latest.Keys
  {
    if k.connector == connector && k.row in done then Some(latest[k.row]) else Get(rows, k)
  }

  // ------------------------------------------------------------------- what a day costs

  function OfConnector(rows: map<RowKey, Figures>, connector: string): map<UsageKey, Figures> {
    map k | k in (set r | r in rows && r.connector == connector :: r.row) && RowKey(connector, k) in rows ::
      rows[RowKey(connector, k)]
  }

  lemma OfConnectorHas(rows: map<RowKey, Figures>, connector: string, k: UsageKey)
    ensures Get(OfConnector(rows, connector), k) == Get(rows, RowKey(connector, k))
  {
    if RowKey(connector, k) in rows {
      assert RowKey(connector, k).row == k;
    }
  }

  function Costs(rows: map<UsageKey, Figures>): map<UsageKey, int> {
    map k | k in rows && k.report == "cost" :: rows[k].micros
  }

  function DayCosts(rows: map<UsageKey, Figures>, day: string): map<UsageKey, int> {
    map k | k in rows && k.report == "cost" && k.day == day :: rows[k].micros
  }

  function CellCosts(rows: map<UsageKey, Figures>, day: string, model: string): map<UsageKey, int> {
    map k | k in rows && k.report == "cost" && k.day == day && k.model == model :: rows[k].micros
  }

  ghost predicate NothingBelowZero(m: map<UsageKey, int>) {
    forall k :: k in m ==> m[k] >= 0
  }

  lemma PartCostsNoMore(part: map<UsageKey, int>, whole: map<UsageKey, int>)
    requires NothingBelowZero(whole) && forall k :: k in part ==> k in whole && part[k] == whole[k]
    ensures Sum(part) <= Sum(whole)
  {
    var rest := whole - part.Keys;
    SumPartition(whole, part, rest);
    SumNonNegative(rest);
  }

  /** The rows in the order they are added are the rows of the table. */
  lemma {:induction false} CostOfIsTheSum(keys: seq<UsageKey>, rows: map<UsageKey, Figures>, n: nat)
    requires n <= |keys| && (forall k :: k in keys ==> k in rows)
    requires forall i, j :: 0 <= i < j < |keys| ==> keys[i] != keys[j]
    ensures CostOf(keys, rows, n) == Sum(map k | k in keys[..n] && k.report == "cost" :: rows[k].micros)
  {
    if n > 0 {
      CostOfIsTheSum(keys, rows, n - 1);
      NextCost(keys, rows, n);
    }
  }

  lemma NextCost(keys: seq<UsageKey>, rows: map<UsageKey, Figures>, n: nat)
    requires 0 < n <= |keys| && (forall k :: k in keys ==> k in rows)
    requires forall i, j :: 0 <= i < j < |keys| ==> keys[i] != keys[j]
    ensures var k := keys[n - 1];
            Sum(map k | k in keys[..n] && k.report == "cost" :: rows[k].micros)
            == Sum(map k | k in keys[..n - 1] && k.report == "cost" :: rows[k].micros)
               + (if k.report == "cost" then rows[k].micros else 0)
  {
    var x := keys[n - 1];
    var was := map k | k in keys[..n - 1] && k.report == "cost" :: rows[k].micros;
    var now := map k | k in keys[..n] && k.report == "cost" :: rows[k].micros;
    assert keys[..n] == keys[..n - 1] + [x];
    assert x !in keys[..n - 1];
    var then_ := if x.report == "cost" then was[x := rows[x].micros] else was;
    forall k ensures k in now <==> k in then_ {
      assert k in keys[..n] <==> k in keys[..n - 1] || k == x;
    }
    SameRows(now, then_);
    if x.report == "cost" {
      SumInsert(was, x, rows[x].micros);
    }
  }

  lemma FolderCostFits(latest: map<UsageKey, Figures>, keys: seq<UsageKey>, inputTypes: set<string>)
    requires InRange(latest) && FolderFits(latest, inputTypes)
    requires Ascending(keys, KeyBefore) && Elements(keys) == latest.Keys
    ensures Sum(Costs(latest)) <= MAX_INT64
  {
    InTable(keys, latest);
    assert Summed(keys, latest, inputTypes);
    ReportedSumsAreExact(keys, latest, inputTypes, |keys|);
    NoKeyTwice(keys);
    TheWholeCosts(keys, latest);
  }

  lemma TheWholeCosts(keys: seq<UsageKey>, latest: map<UsageKey, Figures>)
    requires forall i, j :: 0 <= i < j < |keys| ==> keys[i] != keys[j]
    requires forall k :: k in keys <==> k in latest
    ensures CostOf(keys, latest, |keys|) == Sum(Costs(latest))
  {
    CostOfIsTheSum(keys, latest, |keys|);
    assert keys[..|keys|] == keys;
    SameRows(map k | k in keys[..|keys|] && k.report == "cost" :: latest[k].micros, Costs(latest));
  }

  lemma NoKeyTwice(keys: seq<UsageKey>)
    requires Ascending(keys, KeyBefore)
    ensures forall i, j :: 0 <= i < j < |keys| ==> keys[i] != keys[j]
  {
    forall i, j | 0 <= i < j < |keys| ensures keys[i] != keys[j] {
      ListOrder(Columns(keys[i]), Columns(keys[i]), Columns(keys[i]));
    }
  }

  /** No cost below zero is stored, and no day of a connector costs more than 64 bits hold. */
  ghost predicate DaysCostFits(rows: map<RowKey, Figures>) {
    forall connector, day :: DayFits(OfConnector(rows, connector), day)
  }

  ghost predicate DayFits(rows: map<UsageKey, Figures>, day: string) {
    NothingBelowZero(DayCosts(rows, day)) && Sum(DayCosts(rows, day)) <= MAX_INT64
  }

  /** The rows a folder leads to hold no credit. */
  ghost predicate NoCredits(files: seq<FileRead>) {
    forall k :: FreshRow(files, k).Some? ==> FreshRow(files, k).value.micros >= 0
  }

  /** After imports without credits no model's cost on a day leaves 64 bits. */
  lemma NoCellLeaves64Bits(rows: map<RowKey, Figures>, connector: string, day: string, model: string)
    requires DaysCostFits(rows)
    ensures 0 <= Sum(CellCosts(OfConnector(rows, connector), day, model)) <= MAX_INT64
  {
    var mine := OfConnector(rows, connector);
    assert DayFits(mine, day);
    PartCostsNoMore(CellCosts(mine, day, model), DayCosts(mine, day));
    SumNonNegative(CellCosts(mine, day, model));
  }

  lemma DayAfterImport(before: map<RowKey, Figures>, after: map<RowKey, Figures>, connector: string,
                       files: seq<FileRead>, latest: map<UsageKey, Figures>, other: string, day: string)
    requires RowsReplaced(before, after, connector, files) && IsLatest(files, latest)
    ensures DayCosts(OfConnector(after, other), day)
            == if other == connector && Winner(files, DayKey("cost", day), |files|).Some?
               then DayCosts(latest, day) else DayCosts(OfConnector(before, other), day)
  {
    var won := other == connector && Winner(files, DayKey("cost", day), |files|).Some?;
    var then_ := if won then latest else OfConnector(before, other);
    forall k: UsageKey | k.report == "cost" && k.day == day
      ensures Get(OfConnector(after, other), k) == Get(then_, k)
    {
      OfConnectorHas(after, other, k);
      OfConnectorHas(before, other, k);
      assert Get(after, RowKey(other, k)) == RowAfter(before, connector, files, RowKey(other, k));
      assert Get(latest, k) == FreshRow(files, k);
    }
    SameDay(OfConnector(after, other), then_, day);
  }

  lemma SameDay(a: map<UsageKey, Figures>, b: map<UsageKey, Figures>, day: string)
    requires forall k: UsageKey :: k.report == "cost" && k.day == day ==> Get(a, k) == Get(b, k)
    ensures DayCosts(a, day) == DayCosts(b, day)
  {
    forall k: UsageKey | k.report == "cost" && k.day == day
      ensures k in a <==> k in b
      ensures k in a ==> a[k] == b[k]
    {
      assert Get(a, k) == Get(b, k);
    }
  }

  /** Each file was read with its figures in range. */
  ghost predicate ReadInRange(files: seq<FileRead>) {
    forall i :: 0 <= i < |files| && files[i].ReadAs? ==> InRange(files[i].parsed.rows)
  }

  lemma LatestInRange(files: seq<FileRead>, latest: map<UsageKey, Figures>)
    requires ReadInRange(files) && IsLatest(files, latest)
    ensures InRange(latest)
  {
    forall k | k in latest ensures 0 <= latest[k].tokens <= MAX_INT64 && FitsInt64(latest[k].micros) {
      assert Get(latest, k) == FreshRow(files, k);
    }
  }

  lemma CreditFreeImportFits(before: map<RowKey, Figures>, after: map<RowKey, Figures>, connector: string,
                             files: seq<FileRead>, latest: map<UsageKey, Figures>, inputTypes: set<string>,
                             keys: seq<UsageKey>)
    requires RowsReplaced(before, after, connector, files) && IsLatest(files, latest)
    requires DaysCostFits(before) && NoCredits(files) && InRange(latest) && FolderFits(latest, inputTypes)
    requires Ascending(keys, KeyBefore) && Elements(keys) == latest.Keys
    ensures DaysCostFits(after)
  {
    FolderCostFits(latest, keys, inputTypes);
    forall k | k in latest ensures latest[k].micros >= 0 {
      assert Get(latest, k) == FreshRow(files, k);
    }
    forall other, day ensures DayFits(OfConnector(after, other), day) {
      DayAfterImport(before, after, connector, files, latest, other, day);
      PartCostsNoMore(DayCosts(latest, day), Costs(latest));
      assert DayFits(OfConnector(before, other), day);
    }
  }

  // ------------------------------------------------------------ what an import leaves, file by file

  /** A file that was read, the first with its bytes, that reports the day. */
  predicate ReportsDay(files: seq<FileRead>, i: nat, report: string, day: string)
    requires i < |files|
  {
    && files[i].ReadAs? && files[i].parsed.report == report && day in files[i].parsed.days
    && forall j :: 0 <= j < i && files[j].ReadAs? ==> files[j].sha != files[i].sha
  }

  /** The last such file of the folder. */
  predicate SpeaksForDay(files: seq<FileRead>, i: nat, report: string, day: string)
    requires i < |files|
  {
    ReportsDay(files, i, report, day) && forall j :: i < j < |files| ==> !ReportsDay(files, j, report, day)
  }

  /** A day of the connector that some file reports holds the rows of the last one, none of another,
      and names that file; every other row and day stands. */
  ghost predicate LastFilesStored(before: map<RowKey, Figures>, after: map<RowKey, Figures>,
                                  daysBefore: map<DayRow, Source>, daysAfter: map<DayRow, Source>,
                                  connector: string, files: seq<FileRead>) {
    && (forall k: RowKey :: RowIsTheLastFiles(before, after, connector, files, k))
    && (forall d: DayRow :: DayIsTheLastFiles(daysBefore, daysAfter, connector, files, d))
  }

  ghost predicate RowIsTheLastFiles(before: map<RowKey, Figures>, after: map<RowKey, Figures>, connector: string,
                                    files: seq<FileRead>, k: RowKey) {
    if k.connector != connector || NobodyReports(files, k.row.report, k.row.day) then Get(after, k) == Get(before, k)
    else
      forall i :: 0 <= i < |files| && SpeaksForDay(files, i, k.row.report, k.row.day) ==>
        Get(after, k) == Get(files[i].parsed.rows, k.row)
  }

  ghost predicate DayIsTheLastFiles(before: map<DayRow, Source>, after: map<DayRow, Source>, connector: string,
                                    files: seq<FileRead>, d: DayRow) {
    if d.connector != connector || NobodyReports(files, d.day.report, d.day.day) then Get(after, d) == Get(before, d)
    else
      forall i :: 0 <= i < |files| && SpeaksForDay(files, i, d.day.report, d.day.day) ==>
        Get(after, d) == Some(Source(files[i].name, files[i].sha))
  }

  predicate NobodyReports(files: seq<FileRead>, report: string, day: string) {
    forall i :: 0 <= i < |files| ==> !ReportsDay(files, i, report, day)
  }

  lemma {:induction false} SeenBeforeIff(files: seq<FileRead>, n: nat, sha: string)
    requires n <= |files|
    ensures SeenBefore(files, n, sha) <==> exists j :: 0 <= j < n && files[j].ReadAs? && files[j].sha == sha
  {
    if n > 0 {
      SeenBeforeIff(files, n - 1, sha);
    }
  }

  lemma WinnerSpeaks(files: seq<FileRead>, report: string, day: string)
    ensures var w := Winner(files, DayKey(report, day), |files|);
            && (w.None? <==> NobodyReports(files, report, day))
            && (forall i :: 0 <= i < |files| ==> (w == Some(i) <==> SpeaksForDay(files, i, report, day)))
  {
    var key := DayKey(report, day);
    forall i | 0 <= i < |files| ensures Carries(files, i, key) <==> ReportsDay(files, i, report, day) {
      SeenBeforeIff(files, i, if files[i].ReadAs? then files[i].sha else "");
    }
    forall i | 0 <= i < |files|
      ensures Winner(files, key, |files|) == Some(i) <==> SpeaksForDay(files, i, report, day)
    {
      LastCarrierWins(files, key, |files|, i);
    }
    LastCarrierWins(files, key, |files|, 0);
    if Winner(files, key, |files|).Some? {
      LastCarrierWins(files, key, |files|, Winner(files, key, |files|).value);
    }
  }

  lemma ReplacedByTheLast(before: map<RowKey, Figures>, after: map<RowKey, Figures>, daysBefore: map<DayRow, Source>,
                          daysAfter: map<DayRow, Source>, connector: string, files: seq<FileRead>)
    requires RowsReplaced(before, after, connector, files) && DaysReplaced(daysBefore, daysAfter, connector, files)
    ensures LastFilesStored(before, after, daysBefore, daysAfter, connector, files)
  {
    forall k: RowKey ensures RowIsTheLastFiles(before, after, connector, files, k) {
      assert Get(after, k) == RowAfter(before, connector, files, k);
      WinnerSpeaks(files, k.row.report, k.row.day);
    }
    forall d: DayRow ensures DayIsTheLastFiles(daysBefore, daysAfter, connector, files, d) {
      assert Get(daysAfter, d) == DayAfter(daysBefore, connector, files, d);
      assert d.day == DayKey(d.day.report, d.day.day);
      WinnerSpeaks(files, d.day.report, d.day.day);
    }
  }

  class UsageStore {
    var rows: map<RowKey, Figures>
    var days: map<DayRow, Source>

    constructor ()
      ensures rows == map[] && days == map[]
    {
      rows, days := map[], map[];
    }

    /** Deletes a day's rows and records which file it is from now on. */
    method ClearDay(connector: string, d: DayKey, from: Source)
      modifies this
      ensures forall k :: Get(rows, k) == Cleared(old(rows), connector, {d}, k)
      ensures days == old(days)[DayRow(connector, d) := from]
    {
      rows := map k | k in rows && !(k.connector == connector && DayOf(k.row) == d) :: rows[k];
      days := days[DayRow(connector, d) := from];
    }

    method ClearDays(connector: string, sources: map<DayKey, Source>)
      modifies this
      ensures forall k :: Get(rows, k) == Cleared(old(rows), connector, sources.Keys, k)
      ensures forall d :: Get(days, d) == Stamped(old(days), connector, sources, sources.Keys, d)
    {
      var todo := sources.Keys;
      ghost var done: set<DayKey> := {};
      while todo != {}
        invariant done + todo == sources.Keys
        invariant forall k :: Get(rows, k) == Cleared(old(rows), connector, done, k)
        invariant forall d :: Get(days, d) == Stamped(old(days), connector, sources, done, d)
      {
        var d :| d in todo;
        ghost var was := days;
        ClearDay(connector, d, sources[d]);
        forall x ensures Get(days, x) == Stamped(old(days), connector, sources, done + {d}, x) {
          assert Get(was, x) == Stamped(old(days), connector, sources, done, x);
        }
        done, todo := done + {d}, todo - {d};
      }
    }

    /** A plain INSERT: the primary key must not be taken. */
    method Insert(k: RowKey, f: Figures)
      requires k !in rows
      modifies this`rows
      ensures rows == old(rows)[k := f]
    {
      rows := rows[k := f];
    }

    method InsertAll(connector: string, latest: map<UsageKey, Figures>)
      requires forall k :: k in latest ==> RowKey(connector, k) !in rows
      modifies this`rows
      ensures forall k :: Get(rows, k) == Inserted(old(rows), connector, latest, latest.Keys, k)
    {
      var todo := latest.Keys;
      ghost var done: set<UsageKey> := {};
      while todo != {}
        invariant done + todo == latest.Keys && done !! todo
        invariant forall k :: Get(rows, k) == Inserted(old(rows), connector, latest, done, k)
      {
        var k :| k in todo;
        assert Get(rows, RowKey(connector, k)) == None;
        ghost var was := rows;
        Insert(RowKey(connector, k), latest[k]);
        forall x ensures Get(rows, x) == Inserted(old(rows), connector, latest, done + {k}, x) {
          assert Get(was, x) == Inserted(old(rows), connector, latest, done, x);
        }
        done, todo := done + {k}, todo - {k};
      }
    }

    /** Replaces every day of the winners by the latest rows. */
    method ReplaceDays(connector: string, files: seq<FileRead>, winners: map<DayKey, nat>,
                       latest: map<UsageKey, Figures>)
      requires forall d :: Get(winners, d) == Winner(files, d, |files|)
      requires forall k :: Get(latest, k) == FreshRow(files, k)
      modifies this
      ensures RowsReplaced(old(rows), rows, connector, files) && DaysReplaced(old(days), days, connector, files)
    {
      var sources := Sources(files, winners);
      ClearDays(connector, sources);
      forall k | k in latest ensures RowKey(connector, k) !in rows {
        assert Get(latest, k) == FreshRow(files, k);
        assert Get(winners, DayOf(k)).Some?;
        assert Get(rows, RowKey(connector, k)) == None;
      }
      InsertAll(connector, latest);
      forall k ensures Get(rows, k) == RowAfter(old(rows), connector, files, k) {
        assert Get(latest, k.row) == FreshRow(files, k.row);
        assert Get(winners, DayOf(k.row)) == Winner(files, DayOf(k.row), |files|);
      }
      forall d ensures Get(days, d) == DayAfter(old(days), connector, files, d) {
        assert Get(winners, d.day) == Winner(files, d.day, |files|);
      }
    }

    /** The whole import, one transaction: an error leaves the store as it was. */
    method Import(connector: string, files: seq<FileRead>, inputTypes: set<string>) returns (r: Option<ImportError>)
      modifies this
      ensures r == Some(NothingRead) <==> forall d :: Winner(files, d, |files|).None?
      ensures r == Some(SumsTooBig) ==> !LatestFit(files, inputTypes)
      ensures r.Some? ==> rows == old(rows) && days == old(days)
      ensures r.None? ==> LatestFit(files, inputTypes)
      ensures r.None? ==> RowsReplaced(old(rows), rows, connector, files)
      ensures r.None? ==> DaysReplaced(old(days), days, connector, files)
      ensures DaysCostFits(old(rows)) && NoCredits(files) && ReadInRange(files) ==> DaysCostFits(rows)
      ensures r.None? ==> LastFilesStored(old(rows), rows, old(days), days, connector, files)
    {
      var winners := PickWinners(files);
      if winners == map[] {
        forall d ensures Winner(files, d, |files|).None? {
          assert Get(winners, d) == None;
        }
        return Some(NothingRead);
      }
      var any :| any in winners;
      assert Get(winners, any) == Winner(files, any, |files|);
      var latest := Gather(files, winners);
      OneLatest(files, latest);
      var fits, order := SumRows(latest, inputTypes);
      if !fits {
        return Some(SumsTooBig);
      }
      ReplaceDays(connector, files, winners, latest);
      if DaysCostFits(old(rows)) && NoCredits(files) && ReadInRange(files) {
        LatestInRange(files, latest);
        CreditFreeImportFits(old(rows), rows, connector, files, latest, inputTypes, order);
      }
      ReplacedByTheLast(old(rows), rows, old(days), days, connector, files);
      return None;
    }
  }

  /** The rows the folder leads to are such that every reported sum fits. */
  ghost predicate LatestFit(files: seq<FileRead>, inputTypes: set<string>) {
    forall latest: map<UsageKey, Figures> | IsLatest(files, latest) :: FolderFits(latest, inputTypes)
  }

  ghost predicate IsLatest(files: seq<FileRead>, latest: map<UsageKey, Figures>) {
    forall k :: Get(latest, k) == FreshRow(files, k)
  }

  lemma OneLatest(files: seq<FileRead>, latest: map<UsageKey, Figures>)
    requires IsLatest(files, latest)
    ensures forall other | IsLatest(files, other) :: other == latest
  {
    forall other | IsLatest(files, other) ensures other == latest {
      forall k ensures Get(other, k) == Get(latest, k) {
        assert Get(other, k) == FreshRow(files, k);
      }
      SameTable(other, latest);
    }
  }

  method Sources(files: seq<FileRead>, winners: map<DayKey, nat>) returns (sources: map<DayKey, Source>)
    requires forall d :: Get(winners, d) == Winner(files, d, |files|)
    ensures sources.Keys == winners.Keys
    ensures forall d :: d in sources ==> winners[d] < |files| && files[winners[d]].ReadAs?
                                         && sources[d] == Source(files[winners[d]].name, files[winners[d]].sha)
  {
    forall d | d in winners ensures winners[d] < |files| && files[winners[d]].ReadAs? {
      assert Get(winners, d) == Winner(files, d, |files|);
    }
    sources := map d | d in winners :: Source(files[winners[d]].name, files[winners[d]].sha);
  }
}
