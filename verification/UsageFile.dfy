/**
 One provider usage file, its lines added up by day, model, token type, key and scope.

 A report is finer than the table kept of it, so several of its lines may belong to one row.
 Each addition is refused before a row would pass 64 bits.
 */
module UsageFile {
  import opened Arith
  import opened Tables
  import opened Wrappers

  const MAX_ROWS: nat := 2_000_000
  const MAX_TOKENS: nat := 10_000_000_000_000_000
  const MAX_MICROS: nat := 10_000_000_000_000

  datatype UsageKey = UsageKey(report: string, day: string, model: string, tokenType: string, apiKey: string,
                               scope: string)

  datatype Figures = Figures(tokens: int, micros: int)

  /** One decoded line of a bucket's results. */
  datatype Line = Line(model: string, tokenType: string, apiKey: string, scope: string, figures: Figures)
  {
    /** The bounds the decoder has already held it to. */
    predicate Valid() {
      0 <= figures.tokens <= MAX_TOKENS && Abs(figures.micros) <= MAX_MICROS
    }

    function Key(report: string, day: string): UsageKey {
      UsageKey(report, day, model, tokenType, apiKey, scope)
    }
  }

  /** One day of a report. */
  datatype Bucket = Bucket(day: string, lines: seq<Line>)

  /** Everything one file says, already validated. */
  datatype Parsed = Parsed(report: string, days: seq<string>, rows: map<UsageKey, Figures>)
  {
    predicate Valid() {
      forall k :: k in rows ==> k.report == report && k.day in days
    }
  }

  // ------------------------------------------------------------ what was added, in order

  datatype Log = Blank | Then(before: Log, key: UsageKey, figures: Figures)

  datatype Column = Tokens | Micros

  function Pick(f: Figures, c: Column): int {
    match c case Tokens => f.tokens case Micros => f.micros
  }

  predicate Met(log: Log, key: UsageKey) {
    log.Then? && (log.key == key || Met(log.before, key))
  }

  /** A column's figures added under one key. */
  function AddedUnder(log: Log, key: UsageKey, c: Column): int {
    match log case Blank => 0 case Then(b, k, f) => AddedUnder(b, key, c) + (if k == key then Pick(f, c) else 0)
  }

  /** And under every key. */
  function AddedInAll(log: Log, c: Column): int {
    match log case Blank => 0 case Then(b, _, f) => AddedInAll(b, c) + Pick(f, c)
  }

  /** The rows a log leads to, and whether each step fits. */
  function Tally(log: Log): map<UsageKey, Figures> {
    match log case Blank => map[] case Then(b, k, f) => Tally(b)[k := Sum2(At(Tally(b), k), f)]
  }

  function At(rows: map<UsageKey, Figures>, key: UsageKey): Figures {
    if key in rows then rows[key] else Figures(0, 0)
  }

  function Sum2(f: Figures, g: Figures): Figures {
    Figures(f.tokens + g.tokens, f.micros + g.micros)
  }

  predicate Addable(log: Log) {
    log.Then? ==> Addable(log.before) && Fits(Tally(log.before), log.key, log.figures)
  }

  /** The row takes the figures within 64 bits, or there is room for a new one. */
  predicate Fits(rows: map<UsageKey, Figures>, key: UsageKey, f: Figures) {
    if key in rows then FitsInt64(rows[key].tokens + f.tokens) && FitsInt64(rows[key].micros + f.micros)
    else |rows| < MAX_ROWS
  }

  predicate InRange(rows: map<UsageKey, Figures>) {
    forall k :: k in rows ==> 0 <= rows[k].tokens <= MAX_INT64 && FitsInt64(rows[k].micros)
  }

  /** Each row holds the figures met under its key added up, and there are no others. */
  lemma {:induction false} TallyAddsUp(log: Log, key: UsageKey, c: Column)
    ensures key in Tally(log) <==> Met(log, key)
    ensures Pick(At(Tally(log), key), c) == AddedUnder(log, key, c)
  {
    if log.Then? {
      TallyAddsUp(log.before, key, c);
    }
  }

  function ColumnOf(rows: map<UsageKey, Figures>, c: Column): map<UsageKey, int> {
    map k | k in rows :: Pick(rows[k], c)
  }

  /** Nothing is lost or counted twice: a column of the rows adds up to the lines'. */
  lemma {:induction false} FiguresAreConserved(log: Log, c: Column)
    ensures Sum(ColumnOf(Tally(log), c)) == AddedInAll(log, c)
  {
    match log
    case Blank =>
    case Then(b, k, f) =>
      FiguresAreConserved(b, c);
      ColumnOfUpdate(Tally(b), k, Sum2(At(Tally(b), k), f), c);
      SumOfUpdate(ColumnOf(Tally(b), c), k, Pick(At(Tally(b), k), c) + Pick(f, c));
  }

  lemma ColumnOfUpdate(rows: map<UsageKey, Figures>, k: UsageKey, f: Figures, c: Column)
    ensures ColumnOf(rows[k := f], c) == ColumnOf(rows, c)[k := Pick(f, c)]
  {
  }

  // ------------------------------------------------------------------- the file

  class UsageRows {
    var rows: map<UsageKey, Figures>
    /** Every line added, in order. */
    ghost var log: Log

    ghost predicate Valid()
      reads this
    {
      rows == Tally(log) && Addable(log) && InRange(rows)
    }

    constructor ()
      ensures Valid() && log == Blank
    {
      rows, log := map[], Blank;
    }

    /** Adds one line, unless its row would pass 64 bits or be one row too many. */
    method Add(key: UsageKey, f: Figures) returns (ok: bool)
      requires Valid() && 0 <= f.tokens <= MAX_INT64 && FitsInt64(f.micros)
      modifies this
      ensures Valid() && ok == Addable(Then(old(log), key, f))
      ensures ok <==> if key in old(rows) then FitsInt64(old(rows)[key].tokens + f.tokens)
                                               && FitsInt64(old(rows)[key].micros + f.micros)
                      else |old(rows)| < 2_000_000
      ensures log == if ok then Then(old(log), key, f) else old(log)
    {
      if key !in rows {
        if |rows| >= MAX_ROWS {
          return false;
        }
        rows, log := rows[key := f], Then(log, key, f);
        return true;
      }
      var cur := rows[key];
      if (f.tokens > 0 && cur.tokens > MAX_INT64 - f.tokens)
         || (f.micros > 0 && cur.micros > MAX_INT64 - f.micros)
         || (f.micros < 0 && cur.micros < MIN_INT64 - f.micros) {
        return false;
      }
      rows, log := rows[key := Figures(cur.tokens + f.tokens, cur.micros + f.micros)], Then(log, key, f);
      return true;
    }
  }

  /** The lines of a bucket added after what was added before. */
  function Extended(log: Log, report: string, b: Bucket, n: nat): Log
    requires n <= |b.lines|
  {
    if n == 0 then log
    else Then(Extended(log, report, b, n - 1), b.lines[n - 1].Key(report, b.day), b.lines[n - 1].figures)
  }

  function LogOf(report: string, buckets: seq<Bucket>, n: nat): Log
    requires n <= |buckets|
  {
    if n == 0 then Blank
    else Extended(LogOf(report, buckets, n - 1), report, buckets[n - 1], |buckets[n - 1].lines|)
  }

  /** The days of the first n buckets, in order. */
  function DaysOf(buckets: seq<Bucket>, n: nat): seq<string>
    requires n <= |buckets|
  {
    if n == 0 then [] else DaysOf(buckets, n - 1) + [buckets[n - 1].day]
  }

  predicate NoDayTwice(buckets: seq<Bucket>, n: nat)
    requires n <= |buckets|
  {
    n == 0 || (NoDayTwice(buckets, n - 1) && buckets[n - 1].day !in DaysOf(buckets, n - 1))
  }

  lemma {:induction false} TwiceStaysTwice(buckets: seq<Bucket>, n: nat)
    requires n <= |buckets| && !NoDayTwice(buckets, n)
    ensures !NoDayTwice(buckets, |buckets|)
    decreases |buckets| - n
  {
    if n < |buckets| {
      TwiceStaysTwice(buckets, n + 1);
    }
  }

  predicate LinesValid(buckets: seq<Bucket>) {
    forall i, j :: 0 <= i < |buckets| && 0 <= j < |buckets[i].lines| ==> buckets[i].lines[j].Valid()
  }

  lemma {:induction false} BucketIsOfItsDay(log: Log, report: string, b: Bucket, n: nat, key: UsageKey)
    requires n <= |b.lines| && Met(Extended(log, report, b, n), key)
    ensures Met(log, key) || (key.report == report && key.day == b.day)
  {
    if n > 0 && key != b.lines[n - 1].Key(report, b.day) {
      BucketIsOfItsDay(log, report, b, n - 1, key);
    }
  }

  lemma {:induction false} RowsAreOfTheDays(report: string, buckets: seq<Bucket>, n: nat, key: UsageKey)
    requires n <= |buckets| && Met(LogOf(report, buckets, n), key)
    ensures key.report == report && key.day in DaysOf(buckets, n)
  {
    if n > 0 {
      var b := buckets[n - 1];
      BucketIsOfItsDay(LogOf(report, buckets, n - 1), report, b, |b.lines|, key);
      if Met(LogOf(report, buckets, n - 1), key) {
        RowsAreOfTheDays(report, buckets, n - 1, key);
      }
    }
  }

  lemma {:induction false} StartOfBucket(log: Log, report: string, b: Bucket, n: nat)
    requires n <= |b.lines| && Addable(Extended(log, report, b, n))
    ensures Addable(log)
  {
    if n > 0 {
      StartOfBucket(log, report, b, n - 1);
    }
  }

  lemma {:induction false} LongerIsHarder(report: string, buckets: seq<Bucket>, n: nat)
    requires n <= |buckets| && Addable(LogOf(report, buckets, |buckets|))
    ensures Addable(LogOf(report, buckets, n))
    decreases |buckets| - n
  {
    if n < |buckets| {
      LongerIsHarder(report, buckets, n + 1);
      StartOfBucket(LogOf(report, buckets, n), report, buckets[n], |buckets[n].lines|);
    }
  }

  lemma LongerIsNoEasier(report: string, buckets: seq<Bucket>, n: nat)
    requires n <= |buckets| && !Addable(LogOf(report, buckets, n))
    ensures !Addable(LogOf(report, buckets, |buckets|))
  {
    if Addable(LogOf(report, buckets, |buckets|)) {
      LongerIsHarder(report, buckets, n);
    }
  }

  lemma {:induction false} RestOfBucket(log: Log, report: string, b: Bucket, n: nat)
    requires n <= |b.lines| && Addable(Extended(log, report, b, |b.lines|))
    ensures Addable(Extended(log, report, b, n))
    decreases |b.lines| - n
  {
    if n < |b.lines| {
      RestOfBucket(log, report, b, n + 1);
    }
  }

  // ------------------------------------------------------------ what a row stands for

  /** The same model, token type, key and scope. */
  predicate Alike(l: Line, model: string, tokenType: string, apiKey: string, scope: string) {
    l.model == model && l.tokenType == tokenType && l.apiKey == apiKey && l.scope == scope
  }

  /** What a bucket's lines with these columns add up to. */
  function InBucket(b: Bucket, n: nat, model: string, tokenType: string, apiKey: string, scope: string): Figures
    requires n <= |b.lines|
  {
    if n == 0 then Figures(0, 0)
    else
      var sofar := InBucket(b, n - 1, model, tokenType, apiKey, scope);
      if Alike(b.lines[n - 1], model, tokenType, apiKey, scope) then
        Figures(sofar.tokens + b.lines[n - 1].figures.tokens, sofar.micros + b.lines[n - 1].figures.micros)
      else sofar
  }

  /** One day's bucket holds lines with these columns. */
  ghost predicate Reported(b: Bucket, day: string, model: string, tokenType: string, apiKey: string, scope: string) {
    b.day == day && exists l :: l in b.lines && Alike(l, model, tokenType, apiKey, scope)
  }

  /** Every row is one day's lines of one model, token type, key and scope added up, and there is
      one exactly where the file reports such a line. */
  ghost predicate RowsAreTheirLines(report: string, buckets: seq<Bucket>, rows: map<UsageKey, Figures>) {
    && (forall k :: k in rows ==> k.report == report)
    && (forall i, model, tokenType, apiKey, scope :: 0 <= i < |buckets| ==>
          RowIsItsLines(report, buckets[i], rows, model, tokenType, apiKey, scope))
    && (forall k :: k in rows ==>
          exists i :: 0 <= i < |buckets| && Reported(buckets[i], k.day, k.model, k.tokenType, k.apiKey, k.scope))
  }

  ghost predicate RowIsItsLines(report: string, b: Bucket, rows: map<UsageKey, Figures>, model: string,
                                tokenType: string, apiKey: string, scope: string) {
    var k := UsageKey(report, b.day, model, tokenType, apiKey, scope);
    && (k in rows <==> exists l :: l in b.lines && Alike(l, model, tokenType, apiKey, scope))
    && (k in rows ==> rows[k] == InBucket(b, |b.lines|, model, tokenType, apiKey, scope))
  }

  lemma {:induction false} BucketAdds(log: Log, report: string, b: Bucket, n: nat, k: UsageKey, c: Column)
    requires n <= |b.lines|
    ensures AddedUnder(Extended(log, report, b, n), k, c)
            == AddedUnder(log, k, c)
               + (if k.report == report && k.day == b.day
                  then Pick(InBucket(b, n, k.model, k.tokenType, k.apiKey, k.scope), c) else 0)
    ensures Met(Extended(log, report, b, n), k) <==>
            Met(log, k) || (k.report == report && k.day == b.day
                            && exists l :: l in b.lines[..n] && Alike(l, k.model, k.tokenType, k.apiKey, k.scope))
  {
    if n > 0 {
      BucketAdds(log, report, b, n - 1, k, c);
      assert b.lines[..n] == b.lines[..n - 1] + [b.lines[n - 1]];
    }
  }

  lemma {:induction false} OtherDaysAddNothing(report: string, buckets: seq<Bucket>, n: nat, k: UsageKey, c: Column)
    requires n <= |buckets| && forall i :: 0 <= i < n ==> buckets[i].day != k.day
    ensures AddedUnder(LogOf(report, buckets, n), k, c) == 0 && !Met(LogOf(report, buckets, n), k)
  {
    if n > 0 {
      OtherDaysAddNothing(report, buckets, n - 1, k, c);
      BucketAdds(LogOf(report, buckets, n - 1), report, buckets[n - 1], |buckets[n - 1].lines|, k, c);
    }
  }

  /** With no day twice, a row is made of the one bucket of its day. */
  lemma {:induction false} OneBucketADay(report: string, buckets: seq<Bucket>, n: nat, i: nat, k: UsageKey, c: Column)
    requires i < n <= |buckets| && NoDayTwice(buckets, n) && k.report == report && k.day == buckets[i].day
    ensures var b := buckets[i];
            && AddedUnder(LogOf(report, buckets, n), k, c)
               == Pick(InBucket(b, |b.lines|, k.model, k.tokenType, k.apiKey, k.scope), c)
            && (Met(LogOf(report, buckets, n), k) <==>
                exists l :: l in b.lines && Alike(l, k.model, k.tokenType, k.apiKey, k.scope))
  {
    var last := buckets[n - 1];
    BucketAdds(LogOf(report, buckets, n - 1), report, last, |last.lines|, k, c);
    assert last.lines[..|last.lines|] == last.lines;
    DaysApart(buckets, n);
    if i == n - 1 {
      OtherDaysAddNothing(report, buckets, n - 1, k, c);
    } else {
      OneBucketADay(report, buckets, n - 1, i, k, c);
    }
  }

  lemma {:induction false} DaysApart(buckets: seq<Bucket>, n: nat)
    requires n <= |buckets| && NoDayTwice(buckets, n)
    ensures forall i, j :: 0 <= i < j < n ==> buckets[i].day != buckets[j].day
    ensures forall day :: day in DaysOf(buckets, n) <==> exists i :: 0 <= i < n && buckets[i].day == day
  {
    if n > 0 {
      DaysApart(buckets, n - 1);
    }
  }

  lemma RowsAreLines(report: string, buckets: seq<Bucket>)
    requires NoDayTwice(buckets, |buckets|)
    ensures RowsAreTheirLines(report, buckets, Tally(LogOf(report, buckets, |buckets|)))
  {
    var log := LogOf(report, buckets, |buckets|);
    var rows := Tally(log);
    TalliedRowsBelong(report, buckets);
    DaysApart(buckets, |buckets|);
    forall i, model, tokenType, apiKey, scope | 0 <= i < |buckets|
      ensures RowIsItsLines(report, buckets[i], rows, model, tokenType, apiKey, scope)
    {
      RowOfABucket(report, buckets, i, model, tokenType, apiKey, scope);
    }
    forall k | k in rows
      ensures exists i :: 0 <= i < |buckets| && Reported(buckets[i], k.day, k.model, k.tokenType, k.apiKey, k.scope)
    {
      var i :| 0 <= i < |buckets| && buckets[i].day == k.day;
      RowOfABucket(report, buckets, i, k.model, k.tokenType, k.apiKey, k.scope);
      assert Reported(buckets[i], k.day, k.model, k.tokenType, k.apiKey, k.scope);
    }
  }

  lemma RowOfABucket(report: string, buckets: seq<Bucket>, i: nat, model: string, tokenType: string, apiKey: string,
                     scope: string)
    requires i < |buckets| && NoDayTwice(buckets, |buckets|)
    ensures RowIsItsLines(report, buckets[i], Tally(LogOf(report, buckets, |buckets|)), model, tokenType, apiKey, scope)
  {
    var log := LogOf(report, buckets, |buckets|);
    var k := UsageKey(report, buckets[i].day, model, tokenType, apiKey, scope);
    OneBucketADay(report, buckets, |buckets|, i, k, Tokens);
    OneBucketADay(report, buckets, |buckets|, i, k, Micros);
    TallyAddsUp(log, k, Tokens);
    TallyAddsUp(log, k, Micros);
  }

  lemma TalliedRowsBelong(report: string, buckets: seq<Bucket>)
    ensures Parsed(report, DaysOf(buckets, |buckets|), Tally(LogOf(report, buckets, |buckets|))).Valid()
  {
    var log := LogOf(report, buckets, |buckets|);
    forall k | k in Tally(log) ensures k.report == report && k.day in DaysOf(buckets, |buckets|) {
      TallyAddsUp(log, k, Tokens);
      RowsAreOfTheDays(report, buckets, |buckets|, k);
    }
  }

  /** A file is refused when its last page says more is to come, when it holds no bucket, when
      a day comes twice or when a row cannot be added; otherwise it holds exactly its lines
      added up, under the report and the days of its buckets. */
  method ParseUsageFile(report: string, buckets: seq<Bucket>, more: bool) returns (r: Option<Parsed>)
    requires LinesValid(buckets)
    ensures r.Some? <==> !more && buckets != [] && NoDayTwice(buckets, |buckets|)
                         && Addable(LogOf(report, buckets, |buckets|))
    ensures r.Some? ==> r.value.Valid() && InRange(r.value.rows) && r.value.report == report
                        && r.value.days == DaysOf(buckets, |buckets|)
                        && r.value.rows == Tally(LogOf(report, buckets, |buckets|))
    ensures r.Some? ==> RowsAreTheirLines(report, buckets, r.value.rows)
  {
    if more {
      return None;
    }
    var out := new UsageRows();
    var days := ReadBuckets(out, report, buckets);
    if days.None? || |days.value| == 0 {
      return None;
    }
    TalliedRowsBelong(report, buckets);
    RowsAreLines(report, buckets);
    return Some(Parsed(report, days.value, out.rows));
  }

  method ReadBuckets(out: UsageRows, report: string, buckets: seq<Bucket>) returns (days: Option<seq<string>>)
    requires out.Valid() && out.log == Blank && LinesValid(buckets)
    modifies out
    ensures days.Some? <==> NoDayTwice(buckets, |buckets|) && Addable(LogOf(report, buckets, |buckets|))
    ensures days.Some? ==> days.value == DaysOf(buckets, |buckets|) && |days.value| == |buckets|
    ensures days.Some? ==> out.Valid() && out.log == LogOf(report, buckets, |buckets|)
  {
    var met, i := [], 0;
    while i < |buckets|
      invariant i <= |buckets| && out.Valid() && out.log == LogOf(report, buckets, i)
      invariant met == DaysOf(buckets, i) && |met| == i && NoDayTwice(buckets, i)
    {
      if buckets[i].day in met {
        TwiceStaysTwice(buckets, i + 1);
        return None;
      }
      met := met + [buckets[i].day];
      var ok := AddBucket(out, report, buckets[i]);
      if !ok {
        LongerIsNoEasier(report, buckets, i + 1);
        return None;
      }
      i := i + 1;
    }
    return Some(met);
  }

  method AddBucket(out: UsageRows, report: string, b: Bucket) returns (ok: bool)
    requires out.Valid() && forall j :: 0 <= j < |b.lines| ==> b.lines[j].Valid()
    modifies out
    ensures ok == Addable(Extended(old(out.log), report, b, |b.lines|))
    ensures ok ==> out.Valid() && out.log == Extended(old(out.log), report, b, |b.lines|)
  {
    var j := 0;
    while j < |b.lines|
      invariant j <= |b.lines| && out.Valid() && out.log == Extended(old(out.log), report, b, j)
    {
      assert b.lines[j].Valid();
      ok := out.Add(b.lines[j].Key(report, b.day), b.lines[j].figures);
      if !ok {
        if Addable(Extended(old(out.log), report, b, |b.lines|)) { RestOfBucket(old(out.log), report, b, j + 1); }
        return;
      }
      j := j + 1;
    }
    ok := true;
  }
}
