/**
 The life of an anomaly: detected, taken, explained, closed, and never reopened.

 A detector may refresh what it measured but never touches a decision; a hint is written
 beside a decision and never moves one.  What follows holds over every run of the seven
 operations, whatever their order.
 */
module Anomalies {
  import opened Arith
  import opened Wrappers
  import opened Text
  import opened Sorting

  datatype State = Open | Triaged | Explained | Accepted | Dismissed

  predicate Closed(s: State) {
    s.Accepted? || s.Dismissed?
  }

  /** What a detector measured; it may measure it again over a longer history. */
  datatype Measures = Measures(amount: int, baseline: int, excess: int, driver: string)

  datatype Finding = Finding(id: string, day: string, measures: Measures)

  /** A hint answered, or a failure to get one recorded (class_ ""). */
  datatype Hint = Hint(class_: string, reason: string, at: int)

  datatype Row = Row(day: string, measures: Measures, state: State, owner: string, reason: Note, closedAt: Option<int>,
                     answer: Option<string>, hint: Option<Hint>)

  const NO_REASON := Note("", false)

  type Table = map<string, Row>

  datatype Operation = Detect(findings: seq<Finding>)
                     | Assign(id: string, analyst: string)
                     | Explain(id: string, why: Note)
                     | Accept(id: string, why: Note)
                     | Dismiss(id: string, why: Note)
                     | SaveHint(id: string, hint: Hint)

  datatype Answer = Done | NotFound | NeedReason | AlreadyClosed | NothingExplained

  // ------------------------------------------------------------------ one operation

  /** A new finding arrives open; a known one has its measures refreshed and nothing else. */
  function Upsert(rows: Table, f: Finding): Table {
    if f.id in rows then rows[f.id := rows[f.id].(measures := f.measures)]
    else rows[f.id := Row(f.day, f.measures, Open, "", NO_REASON, None, None, None)]
  }

  function DetectAll(rows: Table, findings: seq<Finding>, n: nat): Table
    requires n <= |findings|
  {
    if n == 0 then rows else Upsert(DetectAll(rows, findings, n - 1), findings[n - 1])
  }

  function AddedBy(rows: Table, findings: seq<Finding>, n: nat): nat
    requires n <= |findings|
  {
    if n == 0 then 0
    else AddedBy(rows, findings, n - 1) + (if findings[n - 1].id in DetectAll(rows, findings, n - 1) then 0 else 1)
  }

  /** Where a decision leads, and what it says. */
  function Target(op: Operation): State
    requires !op.Detect? && !op.SaveHint?
  {
    match op case Assign(_, _) => Triaged case Explain(_, _) => Explained case Accept(_, _) => Accepted
    case Dismiss(_, _) => Dismissed
  }

  function WhyOf(op: Operation): Note {
    match op case Explain(_, w) => w case Accept(_, w) => w case Dismiss(_, w) => w case _ => NO_REASON
  }

  /** Whether a decision may be taken: its reason first, then the row, then its state. */
  function Permits(rows: Table, op: Operation): Answer
    requires !op.Detect? && !op.SaveHint?
  {
    if !op.Assign? && !WhyOf(op).given then NeedReason
    else if op.id !in rows then NotFound
    else if op.Accept? then
      if rows[op.id].state.Explained? || rows[op.id].state.Triaged? then Done else NothingExplained
    else if Closed(rows[op.id].state) then AlreadyClosed
    else Done
  }

  /** The row a permitted decision leaves. */
  function Decided(row: Row, op: Operation, now: int): Row
    requires !op.Detect? && !op.SaveHint?
  {
    var closedAt := if Closed(Target(op)) then Some(now) else None;
    if op.Assign? && op.analyst != "" then row.(state := Triaged, owner := op.analyst, closedAt := closedAt)
    else row.(state := Target(op), reason := WhyOf(op), closedAt := closedAt)
  }

  /** A failure never overwrites an answer already stored. */
  function Hinted(row: Row, h: Hint): Row {
    if h.class_ == "" && row.answer.Some? then row
    else row.(answer := if h.class_ == "" then None else Some(h.class_), hint := Some(h))
  }

  function Apply(rows: Table, op: Operation, now: int): Table {
    match op
    case Detect(findings) => DetectAll(rows, findings, |findings|)
    case SaveHint(id, h) => if id in rows then rows[id := Hinted(rows[id], h)] else rows
    case _ => if Permits(rows, op).Done? then rows[op.id := Decided(rows[op.id], op, now)] else rows
  }

  // --------------------------------------------------------------- every run of them

  /** An operation and when it happened. */
  datatype Event = Event(op: Operation, now: int)

  function After(rows: Table, events: seq<Event>, n: nat): Table
    requires n <= |events|
  {
    if n == 0 then rows else Apply(After(rows, events, n - 1), events[n - 1].op, events[n - 1].now)
  }

  // ------------------------------------------------------------------ the verbs

  /** What each verb writes when it is taken: its state, the reason given or, of an assignment, who
      works on it, and the moment of closing or none. */
  lemma DecisionsLead(rows: Table, id: string, analyst: string, why: Note, now: int)
    requires id in rows
    ensures var r := rows[id];
            && (Permits(rows, Assign(id, analyst)).Done? ==>
                  Apply(rows, Assign(id, analyst), now) ==
                  rows[id := if analyst != "" then r.(state := Triaged, owner := analyst, closedAt := None)
                             else r.(state := Triaged, reason := Note("", false), closedAt := None)])
            && (Permits(rows, Explain(id, why)).Done? ==>
                  Apply(rows, Explain(id, why), now) ==
                  rows[id := r.(state := Explained, reason := why, closedAt := None)])
            && (Permits(rows, Accept(id, why)).Done? ==>
                  Apply(rows, Accept(id, why), now) ==
                  rows[id := r.(state := Accepted, reason := why, closedAt := Some(now))])
            && (Permits(rows, Dismiss(id, why)).Done? ==>
                  Apply(rows, Dismiss(id, why), now) ==
                  rows[id := r.(state := Dismissed, reason := why, closedAt := Some(now))])
  {
  }

  /** And when it is: an assignment, an explanation and a dismissal of whatever is not closed, an
      acceptance of what is explained or being worked on, all but an assignment for a reason. */
  lemma VerbIsTakenIff(rows: Table, id: string, analyst: string, why: Note)
    ensures var open := id in rows && rows[id].state in {Open, Triaged, Explained};
            && (Permits(rows, Assign(id, analyst)).Done? <==> open)
            && (Permits(rows, Explain(id, why)).Done? <==> why.given && open)
            && (Permits(rows, Dismiss(id, why)).Done? <==> why.given && open)
            && (Permits(rows, Accept(id, why)).Done? <==> why.given && open && rows[id].state != Open)
  {
  }

  /** A row is stamped closed exactly when it is, says why when it says anything final, and
      holds only answers that name a class. */
  predicate WellKept(row: Row) {
    && (row.closedAt.Some? <==> Closed(row.state))
    && (row.state.Explained? || Closed(row.state) ==> row.reason.given)
    && row.answer != Some("")
  }

  ghost predicate AllWellKept(rows: Table) {
    forall id :: id in rows ==> WellKept(rows[id])
  }

  /** What one operation may do to a row it finds: nothing at all to a closed row's decision,
      and never lose an answer. */
  predicate Follows(before: Row, after: Row) {
    && after.day == before.day
    && (Closed(before.state) ==>
          after.state == before.state && after.owner == before.owner && after.reason == before.reason
          && after.closedAt == before.closedAt)
    && (before.answer.Some? ==> after.answer.Some?)
    && (WellKept(before) ==> WellKept(after))
  }

  lemma {:induction false} DetectingKeepsDecisions(rows: Table, findings: seq<Finding>, n: nat, id: string)
    requires n <= |findings|
    ensures id in rows ==>
              id in DetectAll(rows, findings, n)
              && DetectAll(rows, findings, n)[id].(measures := rows[id].measures) == rows[id]
    ensures id !in rows && id in DetectAll(rows, findings, n) ==>
              var row := DetectAll(rows, findings, n)[id];
              row.state == Open && row.reason == NO_REASON && row.closedAt.None? && row.answer.None?
  {
    if n > 0 {
      DetectingKeepsDecisions(rows, findings, n - 1, id);
    }
  }

  lemma StepFollows(rows: Table, op: Operation, now: int, id: string)
    ensures id in rows ==> id in Apply(rows, op, now) && Follows(rows[id], Apply(rows, op, now)[id])
    ensures id !in rows && id in Apply(rows, op, now) ==> WellKept(Apply(rows, op, now)[id])
  {
    if op.Detect? {
      DetectingKeepsDecisions(rows, op.findings, |op.findings|, id);
    }
  }

  /** From an empty table every row is well kept after every run. */
  lemma {:induction false} EveryRunIsWellKept(events: seq<Event>, n: nat)
    requires n <= |events|
    ensures AllWellKept(After(map[], events, n))
  {
    if n > 0 {
      EveryRunIsWellKept(events, n - 1);
      forall id | id in After(map[], events, n) ensures WellKept(After(map[], events, n)[id]) {
        StepFollows(After(map[], events, n - 1), events[n - 1].op, events[n - 1].now, id);
      }
    }
  }

  /** Once closed, an anomaly keeps its state, owner, reason and stamp through every run that
      follows; once answered, it never goes unanswered; once known, it is never forgotten. */
  lemma {:induction false} ClosedStaysClosed(rows: Table, events: seq<Event>, m: nat, n: nat, id: string)
    requires m <= n <= |events| && id in After(rows, events, m)
    ensures id in After(rows, events, n) && Follows(After(rows, events, m)[id], After(rows, events, n)[id])
  {
    if n > m {
      ClosedStaysClosed(rows, events, m, n - 1, id);
      StepFollows(After(rows, events, n - 1), events[n - 1].op, events[n - 1].now, id);
    }
  }

  // ------------------------------------------------------------------- detecting again

  /** Each finding is stored as last measured. */
  ghost predicate Holds(rows: Table, findings: seq<Finding>) {
    forall i :: 0 <= i < |findings| ==> findings[i].id in rows && rows[findings[i].id].measures == findings[i].measures
  }

  predicate OneFindingEach(findings: seq<Finding>) {
    forall i, j :: 0 <= i < j < |findings| ==> findings[i].id != findings[j].id
  }

  lemma {:induction false} DetectedIsHeld(rows: Table, findings: seq<Finding>, n: nat)
    requires n <= |findings| && OneFindingEach(findings)
    ensures Holds(DetectAll(rows, findings, n), findings[..n])
  {
    if n > 0 {
      DetectedIsHeld(rows, findings, n - 1);
      assert forall i :: 0 <= i < n - 1 ==> findings[..n][i] == findings[..n - 1][i];
    }
  }

  lemma {:induction false} HeldChangesNothing(rows: Table, findings: seq<Finding>, n: nat)
    requires n <= |findings| && Holds(rows, findings)
    ensures DetectAll(rows, findings, n) == rows && AddedBy(rows, findings, n) == 0
  {
    if n > 0 {
      HeldChangesNothing(rows, findings, n - 1);
      SameRowAgain(rows, findings[n - 1]);
    }
  }

  lemma SameRowAgain(rows: Table, f: Finding)
    requires f.id in rows && rows[f.id].measures == f.measures
    ensures Upsert(rows, f) == rows
  {
    assert rows[f.id].(measures := f.measures) == rows[f.id];
  }

  lemma {:induction false} DecisionsKeepMeasures(rows: Table, events: seq<Event>, n: nat, findings: seq<Finding>)
    requires n <= |events| && Holds(rows, findings) && forall i :: 0 <= i < |events| ==> !events[i].op.Detect?
    ensures Holds(After(rows, events, n), findings)
  {
    if n > 0 {
      DecisionsKeepMeasures(rows, events, n - 1, findings);
    }
  }

  /** Detecting the same findings again, whatever was decided and hinted in between, adds
      nothing and changes nothing. */
  lemma DetectingAgainChangesNothing(rows: Table, findings: seq<Finding>, events: seq<Event>)
    requires OneFindingEach(findings) && forall i :: 0 <= i < |events| ==> !events[i].op.Detect?
    ensures var since := After(DetectAll(rows, findings, |findings|), events, |events|);
            DetectAll(since, findings, |findings|) == since && AddedBy(since, findings, |findings|) == 0
  {
    DetectedIsHeld(rows, findings, |findings|);
    assert findings[..|findings|] == findings;
    DecisionsKeepMeasures(DetectAll(rows, findings, |findings|), events, |events|, findings);
    HeldChangesNothing(After(DetectAll(rows, findings, |findings|), events, |events|), findings, |findings|);
  }

  // -------------------------------------------------------------- an explanation lost

  /** Assigning an anomaly keeps what it says if and only if somebody is named, it is closed, or
      there was nothing to lose: to nobody, an empty reason is written over the one it had. */
  lemma AssigningKeepsTheReasonIff(rows: Table, id: string, analyst: string, now: int)
    requires id in rows
    ensures Apply(rows, Assign(id, analyst), now)[id].reason == rows[id].reason
            <==> analyst != "" || Closed(rows[id].state) || rows[id].reason == NO_REASON
  {
  }

  /** Accepting an anomaly keeps its explanation if and only if the acceptance is refused or says
      the same: otherwise what it says is written over the explanation. */
  lemma AcceptingKeepsTheReasonIff(rows: Table, id: string, why: Note, now: int)
    requires id in rows
    ensures Apply(rows, Accept(id, why), now)[id].reason == rows[id].reason
            <==> !why.given || !(rows[id].state.Explained? || rows[id].state.Triaged?) || why == rows[id].reason
  {
  }

  /** Detected, explained, and then either handed to somebody and to nobody, or accepted. */
  function Story(accepted: bool): seq<Event> {
    [Event(Detect([Finding("a", "2026-09-01", Measures(1, 1, 1, ""))]), 0),
     Event(Explain("a", Note("a load test", true)), 1)]
    + if accepted then [Event(Accept("a", Note("answer stands", true)), 2)]
      else [Event(Assign("a", "triage-aws"), 2), Event(Assign("a", ""), 3)]
  }

  /** Either way the explanation is gone: from a row somebody was working on, and from a row
      closed with its answer. */
  lemma ExplanationIsLost()
    ensures After(map[], Story(false), 3)["a"].reason == Note("a load test", true)
    ensures After(map[], Story(false), 4)["a"].reason == NO_REASON
    ensures After(map[], Story(true), 2)["a"].reason == Note("a load test", true)
    ensures After(map[], Story(true), 3)["a"].state == Accepted
    ensures After(map[], Story(true), 3)["a"].reason == Note("answer stands", true)
  {
    ExplainedFirst(true);
    ExplainedFirst(false);
    assert After(map[], Story(false), 3)["a"].state == Triaged;
  }

  lemma ExplainedFirst(accepted: bool)
    ensures var rows := After(map[], Story(accepted), 2);
            "a" in rows && rows["a"].state == Explained && rows["a"].reason == Note("a load test", true)
  {
    var f := Finding("a", "2026-09-01", Measures(1, 1, 1, ""));
    assert After(map[], Story(accepted), 0) == map[];
    assert DetectAll(map[], [f], 1) == Upsert(DetectAll(map[], [f], 0), f);
    assert After(map[], Story(accepted), 1) == Upsert(map[], f);
  }

  // ------------------------------------------------------------------ what to ask about

  /** How a pending anomaly ranks: by money, then the later day, then its id. */
  datatype Rank = Rank(excess: nat, day: string, id: string)

  predicate RankBefore(a: Rank, b: Rank) {
    if a.excess != b.excess then a.excess > b.excess
    else if a.day != b.day then LexLess(b.day, a.day)
    else LexLess(a.id, b.id)
  }

  lemma RanksOrder(ranks: set<Rank>)
    ensures Orders(RankBefore, ranks)
  {
    forall a: Rank ensures !RankBefore(a, a) {
      LexOrder(a.id, a.id, a.id);
    }
    forall a: Rank, b: Rank | a != b ensures RankBefore(a, b) || RankBefore(b, a) {
      LexOrder(a.day, b.day, a.day);
      LexOrder(a.id, b.id, a.id);
    }
    forall a: Rank, b: Rank, c: Rank | RankBefore(a, b) && RankBefore(b, c) ensures RankBefore(a, c) {
      LexOrder(c.day, b.day, a.day);
      LexOrder(b.day, a.day, c.day);
      LexOrder(a.id, b.id, c.id);
    }
  }

  /** Still open or being worked, and unanswered. */
  predicate NeedsHint(row: Row) {
    (row.state.Open? || row.state.Triaged?) && row.answer.None?
  }

  function RankOf(id: string, row: Row): Rank {
    Rank(Abs(row.measures.excess), row.day, id)
  }

  function Pending(rows: Table): set<Rank> {
    set id | id in rows && NeedsHint(rows[id]) :: RankOf(id, rows[id])
  }

  /** asked are the first so many of the pending in rank order: no answered anomaly is asked
      about, and nothing left out outranks anything asked. */
  ghost predicate FirstPending(asked: seq<Rank>, rows: Table, limit: int) {
    && Ascending(asked, RankBefore) && Elements(asked) <= Pending(rows)
    && |asked| == (if limit <= 0 then 0 else if |Pending(rows)| <= limit then |Pending(rows)| else limit)
    && forall a, b :: a in asked && b in Pending(rows) && b !in asked ==> RankBefore(a, b)
  }

  /** As many are asked about as allowed, or all that wait.  Each is open or being worked on,
      unanswered, and described as stored; whatever is left out while something is asked about is
      worth less, or as much and earlier, or as much on that day and later by id. */
  ghost predicate LargestAsked(asked: seq<Rank>, rows: Table, limit: int) {
    && (|asked| <= limit || asked == [])
    && (|asked| < limit ==> forall id :: id in rows && Waiting(rows[id]) ==> exists a :: a in asked && a.id == id)
    && (forall a :: a in asked ==> a.id in rows && Waiting(rows[a.id]) && Describes(a, rows[a.id]))
    && (forall a, id :: a in asked && id in rows && Waiting(rows[id]) && (forall b :: b in asked ==> b.id != id) ==>
          Outranks(a, id, rows[id]))
  }

  predicate Waiting(row: Row) {
    row.state in {Open, Triaged} && row.answer == None
  }

  predicate Describes(a: Rank, row: Row) {
    a.excess == Abs(row.measures.excess) && a.day == row.day
  }

  predicate Outranks(a: Rank, id: string, row: Row) {
    || a.excess > Abs(row.measures.excess)
    || (a.excess == Abs(row.measures.excess) && LexLess(row.day, a.day))
    || (a.excess == Abs(row.measures.excess) && row.day == a.day && LexLess(a.id, id))
  }

  lemma AllAsked(asked: seq<Rank>, rows: Table, limit: int)
    requires FirstPending(asked, rows, limit) && |asked| < limit
    ensures forall id :: id in rows && Waiting(rows[id]) ==> exists a :: a in asked && a.id == id
  {
    RanksOrder(Elements(asked));
    AscendingSize(asked, RankBefore);
    SubsetOfSize(Elements(asked), Pending(rows));
    forall id | id in rows && Waiting(rows[id]) ensures exists a :: a in asked && a.id == id {
      var a := RankOf(id, rows[id]);
      assert a in Pending(rows) && a in Elements(asked) && a.id == id;
    }
  }

  lemma SubsetOfSize<T>(a: set<T>, b: set<T>)
    requires a <= b && |a| == |b|
    ensures a == b
  {
    assert b == a + (b - a);
  }

  lemma FirstAreLargest(asked: seq<Rank>, rows: Table, limit: int)
    requires FirstPending(asked, rows, limit)
    ensures LargestAsked(asked, rows, limit)
  {
    forall a | a in asked ensures a in Pending(rows) {
      assert a in Elements(asked);
    }
    if |asked| < limit {
      AllAsked(asked, rows, limit);
    }
    forall a, id | a in asked && id in rows && Waiting(rows[id]) && forall b :: b in asked ==> b.id != id
      ensures Outranks(a, id, rows[id])
    {
      var b := RankOf(id, rows[id]);
      assert b in Pending(rows) && b !in asked;
      assert RankBefore(a, b);
    }
  }

  method NeedingHint(rows: Table, limit: int) returns (asked: seq<Rank>)
    ensures FirstPending(asked, rows, limit) && LargestAsked(asked, rows, limit)
  {
    asked := FirstOfPending(rows, limit);
    FirstAreLargest(asked, rows, limit);
  }

  method FirstOfPending(rows: Table, limit: int) returns (asked: seq<Rank>)
    ensures FirstPending(asked, rows, limit)
  {
    if limit <= 0 {
      return [];
    }
    var pending := Pending(rows);
    RanksOrder(pending);
    var sorted := Sort(pending, RankBefore);
    if |sorted| <= limit {
      assert forall b :: b in pending ==> b in Elements(sorted);
      return sorted;
    }
    asked := sorted[..limit];
    forall x | x in Elements(asked) ensures x in pending {
      assert x in Elements(sorted);
    }
    forall a, b | a in asked && b in pending && b !in asked ensures RankBefore(a, b) {
      assert b in Elements(sorted);
      LaterInOrder(sorted, limit, a, b);
    }
  }

  lemma LaterInOrder(sorted: seq<Rank>, n: nat, a: Rank, b: Rank)
    requires Ascending(sorted, RankBefore) && n <= |sorted| && a in sorted[..n] && b in sorted && b !in sorted[..n]
    ensures RankBefore(a, b)
  {
    var i :| 0 <= i < n && sorted[i] == a;
    var j :| 0 <= j < |sorted| && sorted[j] == b;
    assert forall k :: 0 <= k < n ==> sorted[..n][k] == sorted[k];
    assert j >= n;
  }

  // ------------------------------------------------------------------ the book

  class Book {
    var rows: Table

    constructor ()
      ensures rows == map[]
    {
      rows := map[];
    }

    /** Reconciles a detection pass with what is stored, counting what it found and what of
        that was new. */
    method Run(findings: seq<Finding>, now: int) returns (found: nat, added: nat)
      modifies this
      ensures rows == Apply(old(rows), Detect(findings), now)
      ensures found == |findings| && added == AddedBy(old(rows), findings, |findings|)
    {
      found, added := 0, 0;
      while found < |findings|
        invariant found <= |findings| && rows == DetectAll(old(rows), findings, found)
        invariant added == AddedBy(old(rows), findings, found)
      {
        var isNew := UpsertOne(findings[found]);
        found := found + 1;
        if isNew {
          added := added + 1;
        }
      }
    }

    method UpsertOne(f: Finding) returns (isNew: bool)
      modifies this
      ensures rows == Upsert(old(rows), f) && isNew == (f.id !in old(rows))
    {
      isNew := f.id !in rows;
      if isNew {
        rows := rows[f.id := Row(f.day, f.measures, Open, "", NO_REASON, None, None, None)];
      } else {
        rows := rows[f.id := rows[f.id].(measures := f.measures)];
      }
    }

    /** The four verbs: refused with the row untouched, or taken. */
    method Transition(op: Operation, now: int) returns (r: Answer)
      requires !op.Detect? && !op.SaveHint?
      modifies this
      ensures r == Permits(old(rows), op) && rows == Apply(old(rows), op, now)
    {
      var to := Target(op);
      if !to.Triaged? && !WhyOf(op).given {
        return NeedReason;
      }
      if op.id !in rows {
        return NotFound;
      }
      var cur := rows[op.id];
      if op.Accept? {
        if !cur.state.Explained? && !cur.state.Triaged? {
          return NothingExplained;
        }
      } else if Closed(cur.state) {
        return AlreadyClosed;
      }
      var closedAt := if Closed(to) then Some(now) else None;
      if op.Assign? && op.analyst != "" {
        rows := rows[op.id := cur.(state := to, owner := op.analyst, closedAt := closedAt)];
      } else {
        rows := rows[op.id := cur.(state := to, reason := WhyOf(op), closedAt := closedAt)];
      }
      return Done;
    }

    /** Writes a hint or a recorded failure; only an answer for a row nobody knows is an
        error. */
    method Save(id: string, h: Hint) returns (r: Answer)
      modifies this
      ensures rows == Apply(old(rows), SaveHint(id, h), 0)
      ensures r == if id !in old(rows) && h.class_ != "" then NotFound else Done
    {
      var answered := h.class_ != "";
      var matches := id in rows && (answered || rows[id].answer.None?);
      if matches {
        rows := rows[id := rows[id].(answer := if answered then Some(h.class_) else None, hint := Some(h))];
      }
      return if !matches && answered && id !in rows then NotFound else Done;
    }
  }
}
