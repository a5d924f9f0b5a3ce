/**
 A model's answer to the plan it was shown.

 The answer may drop items, re-route within an item's own skill pool and lower budgets; one
 fault anywhere refuses the whole of it.  Text lengths are in characters here.
 */
module PlanAnswer {
  import opened Wrappers
  import opened Text
  import opened Routing

  const MAX_WHY: nat := 240

  /** One item as the model wrote it; None is a ref not given or not a whole number. */
  datatype WireItem = WireItem(ref: Option<int>, assignee: string, budget: RawBudget, why: string)

  /** The same with its texts as the checks read them. */
  datatype RawItem = RawItem(ref: Option<int>, assignee: string, budget: RawBudget, why: Note)

  function Trimmed(w: WireItem): RawItem {
    RawItem(w.ref, TrimSpace(w.assignee), w.budget, NoteOf(w.why))
  }

  datatype RawBudget = NotGiven | NotWhole | Cents(cents: int)

  datatype AnswerItem = AnswerItem(ref: int, assignee: string, budget: int, why: string)

  datatype Plan = Plan(items: seq<PlanItem>)

  datatype Fault = TooManyItems | NoValidRef | RefTwice | NoWhy | WhyTooLong | NotReroutable | NotOnRoster | NotActive
                 | LacksSkill | OtherDesk | NoHeadroom | BudgetNotWhole | BudgetNegative | OverGuard | OverItem

  // ------------------------------------------------------- what an accepted item is

  function AssigneeOf(raw: RawItem, det: PlanItem): string {
    if raw.assignee == "" then det.assignee else raw.assignee
  }

  function BudgetOf(raw: RawItem, det: PlanItem): int {
    if raw.budget.Cents? then raw.budget.cents else det.budget
  }

  predicate RefInRange(raw: RawItem, plan: Plan) {
    raw.ref.Some? && 1 <= raw.ref.value <= |plan.items|
  }

  /** The item may be given to this analyst: as the plan did, or within its own skill pool. */
  predicate MayTake(a: Analyst, det: PlanItem, pool: set<string>) {
    a.name == det.assignee
    || (det.skill != "" && det.skill in pool && a.state == "active" && det.skill in a.skills
        && (det.desk != "" ==> a.desk == det.desk))
  }

  /** An item taken by itself: its ref, its reason, its analyst and its budget. */
  ghost predicate Acceptable(raw: RawItem, plan: Plan, roster: map<string, Analyst>, pool: set<string>, spent: Spend) {
    RefInRange(raw, plan) && raw.why.given && |raw.why.text| <= MAX_WHY
    && var det := plan.items[raw.ref.value - 1];
       var name := AssigneeOf(raw, det);
       && name in roster && MayTake(roster[name], det, pool) && HeadroomOf(roster[name], spent) > 0
       && !raw.budget.NotWhole? && 0 <= BudgetOf(raw, det) <= roster[name].perTask && BudgetOf(raw, det) <= det.budget
  }

  function Accepted(raw: RawItem, plan: Plan): AnswerItem
    requires RefInRange(raw, plan)
  {
    var det := plan.items[raw.ref.value - 1];
    AnswerItem(raw.ref.value, AssigneeOf(raw, det), BudgetOf(raw, det), raw.why.text)
  }

  /** The refs named by the first n items. */
  function RefsNamed(raws: seq<RawItem>, n: nat): set<int>
    requires n <= |raws|
  {
    if n == 0 then {}
    else if raws[n - 1].ref.Some? then RefsNamed(raws, n - 1) + {raws[n - 1].ref.value}
    else RefsNamed(raws, n - 1)
  }

  /** Each of the first n items acceptable by itself, and none of a ref named before it. */
  ghost predicate AnswerAcceptable(raws: seq<RawItem>, n: nat, plan: Plan, roster: map<string, Analyst>,
                                   pool: set<string>,
                                   spent: Spend)
    requires n <= |raws|
  {
    n == 0 || (AnswerAcceptable(raws, n - 1, plan, roster, pool, spent)
               && Acceptable(raws[n - 1], plan, roster, pool, spent)
               && raws[n - 1].ref.value !in RefsNamed(raws, n - 1))
  }

  /** The items an acceptable answer is returned as. */
  function Returned(raws: seq<RawItem>, n: nat, plan: Plan): seq<AnswerItem>
    requires n <= |raws|
  {
    if n == 0 then []
    else if RefInRange(raws[n - 1], plan) then Returned(raws, n - 1, plan) + [Accepted(raws[n - 1], plan)]
    else Returned(raws, n - 1, plan)
  }

  predicate Named(roster: map<string, Analyst>) {
    forall n :: n in roster ==> roster[n].name == n
  }

  // ------------------------------------------------------------------ the validator

  /** The checks on one item that look at nothing else of the answer, in the source's order. */
  method Check(raw: RawItem, plan: Plan, roster: map<string, Analyst>, pool: set<string>, spent: Spend)
    returns (fault: Option<Fault>)
    requires Named(roster) && RefInRange(raw, plan)
    ensures fault.None? <==> Acceptable(raw, plan, roster, pool, spent)
  {
    var det := plan.items[raw.ref.value - 1];
    if !raw.why.given {
      return Some(NoWhy);
    }
    if |raw.why.text| > MAX_WHY {
      return Some(WhyTooLong);
    }
    var assignee := raw.assignee;
    if assignee == "" {
      assignee := det.assignee;
    }
    if assignee != det.assignee {
      if det.skill == "" || det.skill !in pool {
        return Some(NotReroutable);
      }
      if assignee !in roster {
        return Some(NotOnRoster);
      }
      var a := roster[assignee];
      if a.state != "active" {
        return Some(NotActive);
      }
      if det.skill !in a.skills {
        return Some(LacksSkill);
      }
      if det.desk != "" && a.desk != det.desk {
        return Some(OtherDesk);
      }
    }
    if assignee !in roster {
      return Some(NotOnRoster);
    }
    if HeadroomOf(roster[assignee], spent) <= 0 {
      return Some(NoHeadroom);
    }
    if raw.budget.NotWhole? {
      return Some(BudgetNotWhole);
    }
    var budget := if raw.budget.Cents? then raw.budget.cents else det.budget;
    if budget < 0 {
      return Some(BudgetNegative);
    }
    if budget > roster[assignee].perTask {
      return Some(OverGuard);
    }
    if budget > det.budget {
      return Some(OverItem);
    }
    return None;
  }

  /** An answer is accepted exactly when it has no more items than the plan, each acceptable
      by itself and no two of one ref; then it is returned item for item, and otherwise no
      part of it is. */
  method Validate(raws: seq<RawItem>, plan: Plan, roster: map<string, Analyst>, pool: set<string>, spent: Spend)
    returns (r: Result<seq<AnswerItem>, Fault>)
    requires Named(roster)
    ensures r.Ok? <==> |raws| <= |plan.items| && AnswerAcceptable(raws, |raws|, plan, roster, pool, spent)
    ensures r.Ok? ==> r.value == Returned(raws, |raws|, plan)
  {
    if |raws| > |plan.items| {
      return Err(TooManyItems);
    }
    var seen: set<int> := {};
    var out: seq<AnswerItem> := [];
    var i := 0;
    while i < |raws|
      invariant i <= |raws| && AnswerAcceptable(raws, i, plan, roster, pool, spent)
      invariant out == Returned(raws, i, plan) && seen == RefsNamed(raws, i)
    {
      var raw := raws[i];
      if !RefInRange(raw, plan) {
        FaultRefusesAll(raws, i + 1, plan, roster, pool, spent);
        return Err(NoValidRef);
      }
      if raw.ref.value in seen {
        FaultRefusesAll(raws, i + 1, plan, roster, pool, spent);
        return Err(RefTwice);
      }
      seen := seen + {raw.ref.value};
      var fault := Check(raw, plan, roster, pool, spent);
      if fault.Some? {
        FaultRefusesAll(raws, i + 1, plan, roster, pool, spent);
        return Err(fault.value);
      }
      out := out + [Accepted(raw, plan)];
      i := i + 1;
    }
    return Ok(out);
  }

  function TrimmedAll(wires: seq<WireItem>, n: nat): (raws: seq<RawItem>)
    requires n <= |wires|
    ensures |raws| == n && forall i :: 0 <= i < n ==> raws[i] == Trimmed(wires[i])
  {
    if n == 0 then [] else TrimmedAll(wires, n - 1) + [Trimmed(wires[n - 1])]
  }

  /** What an accepted item is, beside what was written and what the plan said: the ref's own item,
      its reason as written, an analyst in hand with money left, and a budget no larger than the
      plan's or the analyst's guard; another analyst than the plan's only from the item's own pool,
      at work, skilled and on its desk. */
  ghost predicate InHand(wire: WireItem, item: AnswerItem, plan: Plan, roster: map<string, Analyst>,
                         pool: set<string>, spent: Spend) {
    && wire.ref == Some(item.ref) && 1 <= item.ref <= |plan.items|
    && item.why == wire.why && TrimSpace(wire.why) != "" && |wire.why| <= 240
    && var planned, wanted := plan.items[item.ref - 1], TrimSpace(wire.assignee);
       && item.assignee == (if wanted == "" then planned.assignee else wanted) && item.assignee in roster
       && var a := roster[item.assignee];
          && Money(a, spent) > 0
          && item.budget == (if wire.budget.Cents? then wire.budget.cents else planned.budget)
          && wire.budget != NotWhole && 0 <= item.budget <= a.perTask && item.budget <= planned.budget
          && (item.assignee == planned.assignee
              || (planned.skill != "" && planned.skill in pool && a.state == "active" && planned.skill in a.skills
                  && (planned.desk == "" || a.desk == planned.desk)))
  }

  lemma AcceptedIsInHand(wire: WireItem, plan: Plan, roster: map<string, Analyst>, pool: set<string>, spent: Spend)
    requires Named(roster)
    ensures Acceptable(Trimmed(wire), plan, roster, pool, spent) <==>
            RefInRange(Trimmed(wire), plan)
            && InHand(wire, Accepted(Trimmed(wire), plan), plan, roster, pool, spent)
    ensures RefInRange(Trimmed(wire), plan) <==> exists n :: 1 <= n <= |plan.items| && wire.ref == Some(n)
  {
  }

  lemma {:induction false} ReturnedEach(raws: seq<RawItem>, n: nat, plan: Plan)
    requires n <= |raws| && forall i :: 0 <= i < n ==> RefInRange(raws[i], plan)
    ensures |Returned(raws, n, plan)| == n
    ensures forall i :: 0 <= i < n ==> Returned(raws, n, plan)[i] == Accepted(raws[i], plan)
  {
    if n > 0 {
      ReturnedEach(raws, n - 1, plan);
    }
  }

  lemma ReturnedInHand(wires: seq<WireItem>, plan: Plan, roster: map<string, Analyst>, pool: set<string>, spent: Spend)
    requires Named(roster) && AnswerAcceptable(TrimmedAll(wires, |wires|), |wires|, plan, roster, pool, spent)
    ensures var out := Returned(TrimmedAll(wires, |wires|), |wires|, plan);
            |out| == |wires| && forall i :: 0 <= i < |wires| ==> InHand(wires[i], out[i], plan, roster, pool, spent)
  {
    var raws := TrimmedAll(wires, |wires|);
    AcceptableMeans(raws, |wires|, plan, roster, pool, spent);
    forall i | 0 <= i < |wires|
      ensures RefInRange(raws[i], plan) && InHand(wires[i], Accepted(raws[i], plan), plan, roster, pool, spent)
    {
      assert Acceptable(raws[i], plan, roster, pool, spent);
      AcceptedIsInHand(wires[i], plan, roster, pool, spent);
    }
    ReturnedEach(raws, |wires|, plan);
  }

  /** The analysts by name; of two of one name, the later. */
  method ByName(roster: seq<Analyst>) returns (byName: map<string, Analyst>)
    ensures Named(byName) && forall n :: n in byName ==> byName[n] in roster
    ensures forall i :: 0 <= i < |roster| ==> roster[i].name in byName
    ensures forall i :: 0 <= i < |roster| && (forall j :: i < j < |roster| ==> roster[j].name != roster[i].name) ==>
              byName[roster[i].name] == roster[i]
  {
    byName := map[];
    var i := 0;
    while i < |roster|
      invariant i <= |roster| && Named(byName) && forall n :: n in byName ==> byName[n] in roster
      invariant forall k :: 0 <= k < i ==> roster[k].name in byName
      invariant forall k :: 0 <= k < i && (forall j :: k < j < i ==> roster[j].name != roster[k].name) ==>
                  byName[roster[k].name] == roster[k]
    {
      byName := byName[roster[i].name := roster[i]];
      i := i + 1;
    }
  }

  /** The answer as written against the roster as it stands. */
  method ValidatePlanAnswer(wires: seq<WireItem>, plan: Plan, roster: seq<Analyst>, pool: set<string>, spent: Spend)
    returns (r: Result<seq<AnswerItem>, Fault>, byName: map<string, Analyst>)
    ensures Named(byName) && forall n :: n in byName ==> byName[n] in roster
    ensures r.Ok? <==> |wires| <= |plan.items|
                       && AnswerAcceptable(TrimmedAll(wires, |wires|), |wires|, plan, byName, pool, spent)
    ensures r.Ok? ==> r.value == Returned(TrimmedAll(wires, |wires|), |wires|, plan)
    ensures r.Ok? ==> |r.value| == |wires| && forall i :: 0 <= i < |wires| ==>
              InHand(wires[i], r.value[i], plan, byName, pool, spent)
  {
    byName := ByName(roster);
    r := Validate(TrimmedAll(wires, |wires|), plan, byName, pool, spent);
    if r.Ok? {
      ReturnedInHand(wires, plan, byName, pool, spent);
    }
  }

  lemma {:induction false} FaultRefusesAll(raws: seq<RawItem>, n: nat, plan: Plan, roster: map<string, Analyst>,
                                           pool: set<string>, spent: Spend)
    requires n <= |raws| && !AnswerAcceptable(raws, n, plan, roster, pool, spent)
    ensures !AnswerAcceptable(raws, |raws|, plan, roster, pool, spent)
    decreases |raws| - n
  {
    if n < |raws| {
      FaultRefusesAll(raws, n + 1, plan, roster, pool, spent);
    }
  }

  lemma {:induction false} NamedBefore(raws: seq<RawItem>, n: nat, ref: int)
    requires n <= |raws|
    ensures ref in RefsNamed(raws, n) <==> exists k :: 0 <= k < n && raws[k].ref == Some(ref)
  {
    if n > 0 {
      NamedBefore(raws, n - 1, ref);
    }
  }

  /** That is: every item acceptable by itself, and all refs different. */
  lemma {:induction false} AcceptableMeans(raws: seq<RawItem>, n: nat, plan: Plan, roster: map<string, Analyst>,
                                           pool: set<string>, spent: Spend)
    requires n <= |raws|
    ensures AnswerAcceptable(raws, n, plan, roster, pool, spent)
            <==> (forall i :: 0 <= i < n ==> Acceptable(raws[i], plan, roster, pool, spent))
                 && (forall i, j :: 0 <= i < j < n ==> raws[i].ref != raws[j].ref)
  {
    if n > 0 {
      AcceptableMeans(raws, n - 1, plan, roster, pool, spent);
      if raws[n - 1].ref.Some? {
        NamedBefore(raws, n - 1, raws[n - 1].ref.value);
      }
    }
  }

  // ------------------------------------------------------------- the answer and the plan

  function Budgets(items: seq<PlanItem>, n: nat): int
    requires n <= |items|
  {
    if n == 0 then 0 else Budgets(items, n - 1) + items[n - 1].budget
  }

  function Answered(items: seq<AnswerItem>, n: nat): int
    requires n <= |items|
  {
    if n == 0 then 0 else Answered(items, n - 1) + items[n - 1].budget
  }

  /** What the plan says of the refs an answer names. */
  function PlannedFor(refs: set<int>, plan: Plan, n: nat): int
    requires n <= |plan.items|
  {
    if n == 0 then 0 else PlannedFor(refs, plan, n - 1) + (if n in refs then plan.items[n - 1].budget else 0)
  }

  lemma {:induction false} NamingOneMore(refs: set<int>, ref: int, plan: Plan, n: nat)
    requires n <= |plan.items| && ref !in refs
    ensures PlannedFor(refs + {ref}, plan, n)
            == PlannedFor(refs, plan, n) + (if 1 <= ref <= n then plan.items[ref - 1].budget else 0)
  {
    if n > 0 {
      NamingOneMore(refs, ref, plan, n - 1);
    }
  }

  lemma {:induction false} NoMoreThanPlanned(refs: set<int>, plan: Plan, n: nat)
    requires n <= |plan.items| && forall i :: 0 <= i < |plan.items| ==> plan.items[i].budget >= 0
    ensures PlannedFor(refs, plan, n) <= Budgets(plan.items, n)
  {
    if n > 0 {
      NoMoreThanPlanned(refs, plan, n - 1);
    }
  }

  function Refs(items: seq<AnswerItem>, n: nat): set<int>
    requires n <= |items|
  {
    if n == 0 then {} else Refs(items, n - 1) + {items[n - 1].ref}
  }

  lemma {:induction false} NewRef(items: seq<AnswerItem>, n: nat)
    requires n < |items| && forall i, j :: 0 <= i < j < |items| ==> items[i].ref != items[j].ref
    ensures forall m :: n <= m < |items| ==> items[m].ref !in Refs(items, n)
  {
    if n > 0 {
      NewRef(items, n - 1);
    }
  }

  /** items keeps within the plan: distinct refs of it, each at no more than the item's own
      budget. */
  predicate Within(items: seq<AnswerItem>, plan: Plan) {
    && (forall i :: 0 <= i < |items| ==> 1 <= items[i].ref <= |plan.items|)
    && (forall i :: 0 <= i < |items| ==> items[i].budget <= plan.items[items[i].ref - 1].budget)
    && (forall i, j :: 0 <= i < j < |items| ==> items[i].ref != items[j].ref)
  }

  lemma {:induction false} BoundedByWhatItNames(items: seq<AnswerItem>, plan: Plan, n: nat)
    requires Within(items, plan) && n <= |items|
    ensures Answered(items, n) <= PlannedFor(Refs(items, n), plan, |plan.items|)
  {
    if n > 0 {
      BoundedByWhatItNames(items, plan, n - 1);
      NewRef(items, n - 1);
      NamingOneMore(Refs(items, n - 1), items[n - 1].ref, plan, |plan.items|);
    } else {
      NothingNamed(plan, |plan.items|);
    }
  }

  lemma {:induction false} NothingNamed(plan: Plan, n: nat)
    requires n <= |plan.items|
    ensures PlannedFor({}, plan, n) == 0
  {
    if n > 0 {
      NothingNamed(plan, n - 1);
    }
  }

  lemma {:induction false} ReturnedIsWithin(raws: seq<RawItem>, n: nat, plan: Plan, roster: map<string, Analyst>,
                                            pool: set<string>, spent: Spend)
    requires n <= |raws| && AnswerAcceptable(raws, n, plan, roster, pool, spent)
    ensures var items := Returned(raws, n, plan);
            && |items| == n && Within(items, plan)
            && forall i :: 0 <= i < n ==> items[i].ref in RefsNamed(raws, n)
  {
    if n > 0 {
      ReturnedIsWithin(raws, n - 1, plan, roster, pool, spent);
      NeverMoreThanItsItem(raws[n - 1], plan, roster, pool, spent);
    }
  }

  lemma NeverMoreThanItsItem(raw: RawItem, plan: Plan, roster: map<string, Analyst>, pool: set<string>, spent: Spend)
    requires Acceptable(raw, plan, roster, pool, spent)
    ensures Accepted(raw, plan).budget <= plan.items[raw.ref.value - 1].budget
  {
  }

  /** An accepted answer can only shrink the plan: its total is at most the plan's, item for
      item and in all, wherever the plan's own budgets are not negative. */
  lemma AnswerNeverGrowsThePlan(raws: seq<RawItem>, plan: Plan, roster: map<string, Analyst>, pool: set<string>,
                                spent: Spend)
    requires AnswerAcceptable(raws, |raws|, plan, roster, pool, spent)
    requires forall i :: 0 <= i < |plan.items| ==> plan.items[i].budget >= 0
    ensures var items := Returned(raws, |raws|, plan);
            |items| == |raws| && Within(items, plan) && Answered(items, |items|) <= Budgets(plan.items, |plan.items|)
  {
    var items := Returned(raws, |raws|, plan);
    ReturnedIsWithin(raws, |raws|, plan, roster, pool, spent);
    BoundedByWhatItNames(items, plan, |items|);
    NoMoreThanPlanned(Refs(items, |items|), plan, |plan.items|);
  }
}
