/**
 The figures a cloud import reports.  Each file is folded into a summary of its own, row by
 row, and merged into the import's only when the file is kept.  Whatever way the rows were
 cut into files, the figures are those of one pass over all of them.
 */
module CloudSummary {
  import opened Arith
  import opened Tallies
  import opened Tables
  import opened Text

  const MAX_SUB_ACCOUNTS: nat := 10_000

  datatype Row = Row(day: string, category: string, micros: int, subAccount: string,
                     teamFound: bool, tagUnusable: bool, multiday: bool, correction: bool)

  /** What happened to one record of a file. */
  datatype Event = Accepted(row: Row) | Refused(reason: string)

  /** Everything read, in order. */
  datatype Log = Start | Then(before: Log, event: Event)
  {
    /** This log followed by another. */
    function Plus(o: Log): Log {
      match o case Start => this case Then(b, e) => Then(this.Plus(b), e)
    }
  }

  // ------------------------------------------------------ the reference fold

  function Amount(e: Event): int {
    match e case Refused(_) => 0 case Accepted(r) => r.micros
  }

  /** The accepted amounts added up. */
  function Total(log: Log): int {
    match log case Start => 0 case Then(b, e) => Total(b) + Amount(e)
  }

  /** Their absolute values added up. */
  function AbsTotal(log: Log): nat {
    match log case Start => 0 case Then(b, e) => AbsTotal(b) + Abs(Amount(e))
  }

  /** The figures that count records. */
  datatype Counter = Rows | Refusals | Tagged | TagUnusable | Negative | Multiday | Corrections

  const COUNTERS: set<Counter> := {Rows, Refusals, Tagged, TagUnusable, Negative, Multiday, Corrections}

  lemma EveryCounter(k: Counter)
    ensures k in COUNTERS
  {
    match k case Rows => case Refusals => case Tagged => case TagUnusable => case Negative => case Multiday =>
    case Corrections =>
  }

  predicate Counts(e: Event, k: Counter) {
    match e
    case Refused(_) => k.Refusals?
    case Accepted(r) =>
      match k
      case Rows => true
      case Refusals => false
      case Tagged => r.teamFound
      case TagUnusable => r.tagUnusable
      case Negative => r.micros < 0
      case Multiday => r.multiday
      case Corrections => r.correction
  }

  function Count(log: Log, k: Counter): nat {
    match log case Start => 0 case Then(b, e) => Count(b, k) + (if Counts(e, k) then 1 else 0)
  }

  /** What one more accepted row does to the figures: a row more, counted as a credit, as tagged, as
      spread over days or as a correction exactly where it is one, and its amount once. */
  lemma OneMoreAccepted(log: Log, r: Row)
    ensures var next := Then(log, Accepted(r));
            && Total(next) == Total(log) + r.micros && AbsTotal(next) == AbsTotal(log) + Abs(r.micros)
            && Count(next, Rows) == Count(log, Rows) + 1 && Count(next, Refusals) == Count(log, Refusals)
            && Count(next, Negative) == Count(log, Negative) + (if r.micros < 0 then 1 else 0)
            && Count(next, Tagged) == Count(log, Tagged) + (if r.teamFound then 1 else 0)
            && Count(next, TagUnusable) == Count(log, TagUnusable) + (if r.tagUnusable then 1 else 0)
            && Count(next, Multiday) == Count(log, Multiday) + (if r.multiday then 1 else 0)
            && Count(next, Corrections) == Count(log, Corrections) + (if r.correction then 1 else 0)
            && Reasons(next) == Reasons(log)
  {
  }

  /** And a refused one: a refusal more, with its reason, and nothing else. */
  lemma OneMoreRefused(log: Log, reason: string)
    ensures var next := Then(log, Refused(reason));
            && Total(next) == Total(log) && AbsTotal(next) == AbsTotal(log) && Reasons(next) == Reasons(log) + [reason]
            && forall k :: Count(next, k) == Count(log, k) + (if k == Refusals then 1 else 0)
  {
  }

  lemma NothingFoldedYet()
    ensures Total(Start) == 0 == AbsTotal(Start) && Reasons(Start) == [] && forall k :: Count(Start, k) == 0
  {
  }

  function Reasons(log: Log): seq<string> {
    match log
    case Start => []
    case Then(b, e) => Reasons(b) + (if e.Refused? then [e.reason] else [])
  }

  function CategoryTotal(log: Log, category: string): int {
    match log
    case Start => 0
    case Then(b, e) =>
      CategoryTotal(b, category) + (if e.Accepted? && e.row.category == category then e.row.micros else 0)
  }

  function Categories(log: Log): set<string> {
    match log case Start => {} case Then(b, e) => Categories(b) + (if e.Accepted? then {e.row.category} else {})
  }

  function Days(log: Log): set<string> {
    match log case Start => {} case Then(b, e) => Days(b) + (if e.Accepted? then {e.row.day} else {})
  }

  function SubAccounts(log: Log): set<string> {
    match log
    case Start => {}
    case Then(b, e) => SubAccounts(b) + (if e.Accepted? && e.row.subAccount != "" then {e.row.subAccount} else {})
  }

  ghost predicate Earliest(day: string, days: set<string>) {
    if days == {} then day == "" else day in days && forall d :: d in days ==> d == day || LexLess(day, d)
  }

  ghost predicate Latest(day: string, days: set<string>) {
    if days == {} then day == "" else day in days && forall d :: d in days ==> d == day || LexLess(d, day)
  }

  lemma {:induction false} TotalsPlus(a: Log, b: Log)
    ensures Total(a.Plus(b)) == Total(a) + Total(b)
    ensures AbsTotal(a.Plus(b)) == AbsTotal(a) + AbsTotal(b)
  {
    if b.Then? {
      TotalsPlus(a, b.before);
    }
  }

  lemma {:induction false} CountPlus(a: Log, b: Log, k: Counter)
    ensures Count(a.Plus(b), k) == Count(a, k) + Count(b, k)
  {
    if b.Then? {
      CountPlus(a, b.before, k);
    }
  }

  lemma {:induction false} ReasonsPlus(a: Log, b: Log)
    ensures Reasons(a.Plus(b)) == Reasons(a) + Reasons(b)
  {
    if b.Then? {
      ReasonsPlus(a, b.before);
    }
  }

  lemma {:induction false} CategoryPlus(a: Log, b: Log, c: string)
    ensures CategoryTotal(a.Plus(b), c) == CategoryTotal(a, c) + CategoryTotal(b, c)
  {
    if b.Then? {
      CategoryPlus(a, b.before, c);
    }
  }

  lemma {:induction false} SetsPlus(a: Log, b: Log)
    ensures Categories(a.Plus(b)) == Categories(a) + Categories(b)
    ensures Days(a.Plus(b)) == Days(a) + Days(b)
    ensures SubAccounts(a.Plus(b)) == SubAccounts(a) + SubAccounts(b)
  {
    if b.Then? {
      SetsPlus(a, b.before);
    }
  }

  lemma {:induction false} NoAmountOutsideItsCategory(log: Log, category: string)
    requires category !in Categories(log)
    ensures CategoryTotal(log, category) == 0
  {
    if log.Then? {
      NoAmountOutsideItsCategory(log.before, category);
    }
  }

  // --------------------------------------------- what the figures stand for

  ghost predicate Counted(counts: map<Counter, nat>, log: Log) {
    && (forall k :: k in counts)
    && (forall k :: counts[k] == Count(log, k))
  }

  function OneMore(counts: map<Counter, nat>, e: Event): map<Counter, nat> {
    map k | k in counts :: counts[k] + (if Counts(e, k) then 1 else 0)
  }

  function Added(counts: map<Counter, nat>, more: map<Counter, nat>): map<Counter, nat> {
    map k | k in counts && k in more :: counts[k] + more[k]
  }

  /** The first few reasons are named, whatever the count of refusals. */
  ghost predicate RefusalsNamed(named: seq<string>, log: Log) {
    named == First(Reasons(log), REFUSALS_SHOWN)
  }

  /** The days met and the first and last of them; "" before any. */
  datatype Span = Span(days: set<string>, first: string, last: string)
  {
    function Take(day: string): Span {
      Span(days + {day}, if first == "" || LexLess(day, first) then day else first,
           if LexLess(last, day) then day else last)
    }

    function Merge(o: Span): Span {
      Span(days + o.days, if o.first != "" && (first == "" || LexLess(o.first, first)) then o.first else first,
           if LexLess(last, o.last) then o.last else last)
    }
  }

  ghost predicate DaysSpanned(span: Span, days: set<string>) {
    && span.days == days && "" !in days
    && Earliest(span.first, days) && Latest(span.last, days)
  }

  ghost predicate CategoriesTotalled(byCategory: map<string, int>, log: Log) {
    && byCategory.Keys == Categories(log)
    && forall c :: c in byCategory ==> byCategory[c] == CategoryTotal(log, c)
  }

  /** Which of more sub accounts than it can name a summary keeps is left open, but not how
      many it names nor whether there are more. */
  ghost predicate SubsNamed(subs: Subs, all: set<string>) {
    && subs.named <= all
    && |subs.named| == (if |all| <= MAX_SUB_ACCOUNTS then |all| else MAX_SUB_ACCOUNTS)
    && (subs.more <==> |all| > MAX_SUB_ACCOUNTS)
  }

  datatype Subs = Subs(named: set<string>, more: bool)
  {
    function Take(a: string): Subs {
      if |named| < MAX_SUB_ACCOUNTS then Subs(named + {a}, more)
      else if a !in named then Subs(named, true) else this
    }
  }

  /** Ten thousand sub accounts are named, and twenty refusals: all where there are no more, and
      where there are it is said, or counted. */
  lemma NamedUpTo(subs: Subs, all: set<string>, named: seq<string>, log: Log)
    requires SubsNamed(subs, all) && RefusalsNamed(named, log)
    ensures subs.more <==> |all| > 10_000
    ensures if |all| <= 10_000 then subs.named == all else subs.named <= all && |subs.named| == 10_000
    ensures named == if |Reasons(log)| <= 20 then Reasons(log) else Reasons(log)[..20]
  {
    SubsetSize(subs.named, all);
  }

  lemma DaysMerge(a: Span, b: Span, mine: set<string>, theirs: set<string>)
    requires DaysSpanned(a, mine) && DaysSpanned(b, theirs)
    ensures DaysSpanned(a.Merge(b), mine + theirs)
  {
    EarlierOf(a.first, mine, b.first, theirs);
    LaterOf(a.last, mine, b.last, theirs);
  }

  lemma DaysNext(span: Span, days: set<string>, day: string)
    requires DaysSpanned(span, days) && day != ""
    ensures DaysSpanned(span.Take(day), days + {day})
  {
    DaysMerge(span, Span({day}, day, day), days, {day});
  }

  lemma EarlierOf(a: string, days: set<string>, b: string, more: set<string>)
    requires Earliest(a, days) && Earliest(b, more) && "" !in days && "" !in more
    ensures Earliest(if b != "" && (a == "" || LexLess(b, a)) then b else a, days + more)
  {
    if a != "" && b != "" {
      LexTotal(a, b);
      forall d | d in days && LexLess(b, a) && d != a ensures LexLess(b, d) {
        LexTransitive(b, a, d);
      }
      forall d | d in more && LexLess(a, b) && d != b ensures LexLess(a, d) {
        LexTransitive(a, b, d);
      }
    }
  }

  lemma LaterOf(a: string, days: set<string>, b: string, more: set<string>)
    requires Latest(a, days) && Latest(b, more) && "" !in days && "" !in more
    ensures Latest(if LexLess(a, b) then b else a, days + more)
  {
    if a != "" && b != "" {
      LexTotal(a, b);
      forall d | d in days && LexLess(a, b) && d != a ensures LexLess(d, b) {
        LexTransitive(d, a, b);
      }
      forall d | d in more && LexLess(b, a) && d != b ensures LexLess(d, a) {
        LexTransitive(d, b, a);
      }
    }
  }

  function AddTo(byCategory: map<string, int>, category: string, micros: int): map<string, int> {
    byCategory[category := Part(byCategory, category) + micros]
  }

  function Part(m: map<string, int>, c: string): int {
    if c in m then m[c] else 0
  }

  lemma CategoriesNext(byCategory: map<string, int>, log: Log, r: Row)
    requires CategoriesTotalled(byCategory, log)
    ensures CategoriesTotalled(AddTo(byCategory, r.category, r.micros), Then(log, Accepted(r)))
  {
    if r.category !in byCategory {
      NoAmountOutsideItsCategory(log, r.category);
    }
  }

  lemma SubsetSize<T>(a: set<T>, b: set<T>)
    requires a <= b
    ensures |a| <= |b|
    ensures |a| == |b| ==> a == b
  {
    assert b == a + (b - a);
  }

  /** How one more sub account changes what is named. */
  lemma SubsNext(subs: Subs, all: set<string>, a: string)
    requires SubsNamed(subs, all)
    ensures SubsNamed(subs.Take(a), all + {a})
  {
    SubsetSize(subs.named, all);
    if a in all {
      assert all + {a} == all;
    }
    if |subs.named| < MAX_SUB_ACCOUNTS {
      assert subs.named == all;
    }
  }

  /** The names one summary kept stand for all the names it met. */
  lemma SubsMerge(merged: Subs, o: Subs, all: set<string>, theirs: set<string>)
    requires SubsNamed(o, theirs) && SubsNamed(merged, all + o.named)
    ensures SubsNamed(Subs(merged.named, merged.more || o.more), all + theirs)
  {
    SubsetSize(o.named, theirs);
    SubsetSize(o.named, all + o.named);
    SubsetSize(theirs, all + theirs);
    SubsetSize(all + o.named, all + theirs);
    if !o.more {
      assert o.named == theirs;
    }
  }

  // ------------------------------------------------------------- the summary

  ghost predicate Consistent(total: int, abs: nat, counts: map<Counter, nat>, refusals: seq<string>, span: Span,
                             subs: Subs,
                             byCategory: map<string, int>, log: Log)
  {
    && total == Total(log) && abs == AbsTotal(log) <= MAX_INT64 && Counted(counts, log)
    && RefusalsNamed(refusals, log)
    && DaysSpanned(span, Days(log))
    && SubsNamed(subs, SubAccounts(log))
    && CategoriesTotalled(byCategory, log)
  }

  lemma RowFolded(total: int, abs: nat, counts: map<Counter, nat>, refusals: seq<string>, span: Span, subs: Subs,
                  byCategory: map<string, int>, log: Log, r: Row)
    requires Consistent(total, abs, counts, refusals, span, subs, byCategory, log)
    requires abs + Abs(r.micros) <= MAX_INT64 && r.day != ""
    ensures Consistent(total + r.micros, abs + Abs(r.micros), OneMore(counts, Accepted(r)), refusals, span.Take(r.day),
                       if r.subAccount != "" then subs.Take(r.subAccount) else subs,
                       AddTo(byCategory, r.category, r.micros), Then(log, Accepted(r)))
  {
    RowCounted(counts, log, r);
    RowNamed(span, subs, log, r);
    CategoriesNext(byCategory, log, r);
  }

  lemma RowCounted(counts: map<Counter, nat>, log: Log, r: Row)
    requires Counted(counts, log)
    ensures Counted(OneMore(counts, Accepted(r)), Then(log, Accepted(r)))
    ensures Reasons(Then(log, Accepted(r))) == Reasons(log)
  {
  }

  lemma RowNamed(span: Span, subs: Subs, log: Log, r: Row)
    requires DaysSpanned(span, Days(log)) && SubsNamed(subs, SubAccounts(log)) && r.day != ""
    ensures DaysSpanned(span.Take(r.day), Days(Then(log, Accepted(r))))
    ensures SubsNamed(if r.subAccount != "" then subs.Take(r.subAccount) else subs, SubAccounts(Then(log, Accepted(r))))
  {
    SetsOfARow(log, r);
    DaysNext(span, Days(log), r.day);
    SubsNext(subs, SubAccounts(log), r.subAccount);
  }

  lemma SetsOfARow(log: Log, r: Row)
    ensures var next := Then(log, Accepted(r));
            && Days(next) == Days(log) + {r.day} && Categories(next) == Categories(log) + {r.category}
            && SubAccounts(next) == if r.subAccount != "" then SubAccounts(log) + {r.subAccount} else SubAccounts(log)
  {
  }

  lemma FilesFolded(x: nat, c: map<Counter, nat>, s: Span, mine: Log,
                    y: nat, d: map<Counter, nat>, t: Span, theirs: Log, refusals: seq<string>, subs: Subs,
                    byCategory: map<string, int>)
    requires Counted(c, mine) && Counted(d, theirs)
    requires x == AbsTotal(mine) && y == AbsTotal(theirs) && x + y <= MAX_INT64
    requires DaysSpanned(s, Days(mine)) && DaysSpanned(t, Days(theirs))
    requires RefusalsNamed(refusals, mine.Plus(theirs)) && CategoriesTotalled(byCategory, mine.Plus(theirs))
    requires SubsNamed(subs, SubAccounts(mine) + SubAccounts(theirs))
    ensures Consistent(Total(mine) + Total(theirs), x + y, Added(c, d), refusals, s.Merge(t), subs, byCategory,
                       mine.Plus(theirs))
  {
    TotalsPlus(mine, theirs);
    forall k ensures Added(c, d)[k] == Count(mine.Plus(theirs), k) {
      CountPlus(mine, theirs, k);
    }
    SetsPlus(mine, theirs);
    DaysMerge(s, t, Days(mine), Days(theirs));
  }

  lemma RefusalFolded(total: int, abs: nat, counts: map<Counter, nat>, refusals: seq<string>, span: Span, subs: Subs,
                      byCategory: map<string, int>, log: Log, reason: string)
    requires Consistent(total, abs, counts, refusals, span, subs, byCategory, log)
    ensures Consistent(total, abs, OneMore(counts, Refused(reason)),
                       if |refusals| < REFUSALS_SHOWN then refusals + [reason] else refusals,
                       span, subs, byCategory, Then(log, Refused(reason)))
  {
    RefusalCounted(counts, log, reason);
    RefusalNamed(refusals, log, reason);
    SetsOfARefusal(log, reason);
    AmountsOfARefusal(total, abs, byCategory, log, reason);
  }

  lemma RefusalCounted(counts: map<Counter, nat>, log: Log, reason: string)
    requires Counted(counts, log)
    ensures Counted(OneMore(counts, Refused(reason)), Then(log, Refused(reason)))
  {
  }

  lemma RefusalNamed(named: seq<string>, log: Log, reason: string)
    requires RefusalsNamed(named, log)
    ensures RefusalsNamed(if |named| < REFUSALS_SHOWN then named + [reason] else named, Then(log, Refused(reason)))
  {
  }

  lemma AmountsOfARefusal(total: int, abs: nat, byCategory: map<string, int>, log: Log, reason: string)
    requires total == Total(log) && abs == AbsTotal(log) && CategoriesTotalled(byCategory, log)
    ensures total == Total(Then(log, Refused(reason))) && abs == AbsTotal(Then(log, Refused(reason)))
    ensures CategoriesTotalled(byCategory, Then(log, Refused(reason)))
  {
  }

  lemma SetsOfARefusal(log: Log, reason: string)
    ensures var next := Then(log, Refused(reason));
            Days(next) == Days(log) && SubAccounts(next) == SubAccounts(log) && Categories(next) == Categories(log)
  {
  }

  class Summary {
    var total: int
    var abs: nat
    var counts: map<Counter, nat>
    var refusals: seq<string>
    var span: Span
    var subs: Subs
    var byCategory: map<string, int>
    /** Everything that was folded in, in order. */
    ghost var log: Log

    /** The summary reports what one pass over all of its log reports. */
    ghost predicate Valid()
      reads this
    {
      Consistent(total, abs, counts, refusals, span, subs, byCategory, log)
    }

    constructor ()
      ensures Valid() && log == Start
    {
      total, abs, counts := 0, 0, map k | k in COUNTERS :: 0;
      refusals, span, subs, byCategory := [], Span({}, "", ""), Subs({}, false), map[];
      log := Start;
      new;
      forall k ensures k in COUNTERS {
        EveryCounter(k);
      }
    }

    method Refuse(reason: string)
      requires Valid()
      modifies this
      ensures Valid() && log == Then(old(log), Refused(reason))
    {
      RefusalFolded(total, abs, counts, refusals, span, subs, byCategory, log, reason);
      counts := OneMore(counts, Refused(reason));
      if |refusals| < REFUSALS_SHOWN {
        refusals := refusals + [reason];
      }
      log := Then(log, Refused(reason));
    }

    /** Folds one row in, or answers false when the absolute total would pass 64 bits. */
    method Accept(r: Row) returns (ok: bool)
      requires Valid() && Abs(r.micros) <= MAX_INT64 && r.day != ""
      modifies this
      ensures Valid() && ok == (AbsTotal(old(log)) + Abs(r.micros) <= MAX_INT64)
      ensures log == if ok then Then(old(log), Accepted(r)) else old(log)
    {
      if abs > MAX_INT64 - Abs(r.micros) {
        return false;
      }
      ok := true;
      RowFolded(total, abs, counts, refusals, span, subs, byCategory, log, r);
      total, abs, counts, span, subs, byCategory, log :=
        total + r.micros, abs + Abs(r.micros), OneMore(counts, Accepted(r)), span.Take(r.day),
        if r.subAccount != "" then subs.Take(r.subAccount) else subs,
        AddTo(byCategory, r.category, r.micros), Then(log, Accepted(r));
    }

    /** Folds a kept file's summary in, on the caller's check that the two absolute totals
        fit: the result is the summary of one pass over both files' records. */
    method Merge(o: Summary)
      requires Valid() && o.Valid() && o != this
      requires abs + o.abs <= MAX_INT64
      modifies this
      ensures Valid() && log == old(log).Plus(o.log)
    {
      refusals := MergedRefusals(refusals, o.refusals, log, o.log);
      subs := MergedSubs(subs, o.subs, SubAccounts(log), SubAccounts(o.log));
      byCategory := MergedCategories(byCategory, o.byCategory, log, o.log);
      FilesFolded(abs, counts, span, log, o.abs, o.counts, o.span, o.log,
                   refusals, subs, byCategory);
      total, abs, counts, span := total + o.total, abs + o.abs, Added(counts, o.counts), span.Merge(o.span);
      log := log.Plus(o.log);
    }
  }

  method MergedRefusals(named: seq<string>, theirs: seq<string>, ghost mine: Log, ghost more: Log)
    returns (merged: seq<string>)
    requires RefusalsNamed(named, mine) && RefusalsNamed(theirs, more)
    ensures RefusalsNamed(merged, mine.Plus(more))
  {
    ReasonsPlus(mine, more);
    merged := named;
    var i := 0;
    while i < |theirs|
      invariant i <= |theirs|
      invariant merged == First(Reasons(mine) + theirs[..i], REFUSALS_SHOWN)
    {
      if |merged| < REFUSALS_SHOWN {
        merged := merged + [theirs[i]];
      }
      i := i + 1;
    }
    assert theirs[..i] == theirs;
  }

  ghost function Met(all: set<string>, named: set<string>, todo: set<string>): set<string> {
    all + (named - todo)
  }

  lemma NobodyMet(all: set<string>, named: set<string>)
    ensures Met(all, named, named) == all && Met(all, named, {}) == all + named
  {
  }

  lemma OneMoreMet(all: set<string>, named: set<string>, todo: set<string>, a: string)
    requires a in todo && todo <= named
    ensures Met(all, named, todo - {a}) == Met(all, named, todo) + {a}
  {
  }

  /** Takes the other's names in whatever order its map gives them. */
  method MergedSubs(subs: Subs, o: Subs, ghost all: set<string>, ghost theirs: set<string>) returns (merged: Subs)
    requires SubsNamed(subs, all) && SubsNamed(o, theirs)
    ensures SubsNamed(merged, all + theirs)
  {
    merged := subs;
    var todo := o.named;
    NobodyMet(all, o.named);
    while todo != {}
      invariant todo <= o.named
      invariant SubsNamed(merged, Met(all, o.named, todo))
    {
      var a :| a in todo;
      SubsNext(merged, Met(all, o.named, todo), a);
      OneMoreMet(all, o.named, todo, a);
      merged := merged.Take(a);
      todo := todo - {a};
    }
    SubsMerge(merged, o, all, theirs);
    merged := Subs(merged.named, merged.more || o.more);
  }

  method MergedCategories(mine: map<string, int>, theirs: map<string, int>, ghost first: Log, ghost second: Log)
    returns (merged: map<string, int>)
    requires CategoriesTotalled(mine, first) && CategoriesTotalled(theirs, second)
    ensures CategoriesTotalled(merged, first.Plus(second))
  {
    merged := mine;
    var todo := theirs.Keys;
    while todo != {}
      invariant todo <= theirs.Keys
      invariant merged.Keys == mine.Keys + (theirs.Keys - todo)
      invariant forall c :: c in merged ==> merged[c] == Part(mine, c) + (if c in todo then 0 else Part(theirs, c))
    {
      var c :| c in todo;
      merged := AddTo(merged, c, theirs[c]);
      todo := todo - {c};
    }
    SetsPlus(first, second);
    forall c | c in merged ensures merged[c] == CategoryTotal(first.Plus(second), c) {
      CategoryPlus(first, second, c);
      if c !in mine { NoAmountOutsideItsCategory(first, c); }
      if c !in theirs { NoAmountOutsideItsCategory(second, c); }
    }
  }

  // ----------------------------------------------------- what the guard buys

  /** some keeps some of the events of all, in order. */
  ghost predicate PartOf(some: Log, all: Log) {
    match all
    case Start => some.Start?
    case Then(b, e) => PartOf(some, b) || (some.Then? && some.event == e && PartOf(some.before, b))
  }

  /** No selection of the amounts a summary accepted adds up past 64 bits, so neither the
      total, nor a category's, nor a day's group summed in any order can wrap. */
  lemma {:induction false} NoSelectionOverflows(some: Log, all: Log)
    requires PartOf(some, all)
    ensures Abs(Total(some)) <= AbsTotal(all)
  {
    if all.Then? {
      if PartOf(some, all.before) {
        NoSelectionOverflows(some, all.before);
      } else {
        NoSelectionOverflows(some.before, all.before);
      }
    }
  }

  lemma OneTable(a: map<string, int>, b: map<string, int>, log: Log)
    requires CategoriesTotalled(a, log) && CategoriesTotalled(b, log)
    ensures a == b
  {
  }

  lemma SumOfAddTo(m: map<string, int>, category: string, micros: int)
    ensures Sum(AddTo(m, category, micros)) == Sum(m) + micros
  {
    if category in m {
      SumRemove(m, category);
      SumRemove(AddTo(m, category, micros), category);
      assert m - {category} == AddTo(m, category, micros) - {category};
    } else {
      SumInsert(m, category, micros);
    }
  }

  /** The total is the sum of the category totals. */
  lemma {:induction false} TotalIsTheCategories(log: Log, byCategory: map<string, int>)
    requires CategoriesTotalled(byCategory, log)
    ensures Total(log) == Sum(byCategory)
  {
    if log.Start? {
      assert byCategory == map[];
    } else {
      var before := map c | c in Categories(log.before) :: CategoryTotal(log.before, c);
      TotalIsTheCategories(log.before, before);
      match log.event {
        case Accepted(r) =>
          CategoriesNext(before, log.before, r);
          OneTable(byCategory, AddTo(before, r.category, r.micros), log);
          SumOfAddTo(before, r.category, r.micros);
        case Refused(_) =>
          OneTable(byCategory, before, log);
      }
    }
  }
}
