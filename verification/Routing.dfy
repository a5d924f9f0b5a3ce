/**
 Who a planned item goes to.

 Routing makes no model call: it filters the roster to the active analysts who hold a skill,
 drops those with nothing left to spend this month, and takes the first by preferred engine,
 headroom and name.  What is left over goes to the supervisor at no budget.
 */
module Routing {
  import opened Wrappers
  import opened Text

  const SKILL_ANOMALY_TRIAGE: string := "anomaly-triage"
  const ENGINE_CHEAP: string := "openrouter"
  const ENGINE_STRONG: string := "anthropic"

  datatype Analyst = Analyst(name: string, desk: string, state: string, skills: seq<string>, engine: string,
                             perTask: int, monthly: int, cadence: string)

  /** Skill is "" where nobody was chosen by a skill. */
  datatype PlanItem = PlanItem(assignee: string, desk: string, budget: int, skill: string)

  const TO_SUPERVISOR := PlanItem("supervisor", "management", 0, "")

  type Spend = map<string, int>

  function HeadroomOf(a: Analyst, spent: Spend): int {
    a.monthly - (if a.name in spent then spent[a.name] else 0)
  }

  function PreferredEngine(class_: string): string {
    if class_ == SKILL_ANOMALY_TRIAGE || class_ == "variance-commentary" then ENGINE_CHEAP
    else if class_ == "decision-framing" || class_ == "exec-reporting" || class_ == "commitment-modelling"
    then ENGINE_STRONG
    else ""
  }

  // ------------------------------------------------------------------ candidates

  predicate Qualifies(a: Analyst, skill: string, desk: string) {
    a.state == "active" && (desk == "" || a.desk == desk) && skill in a.skills
  }

  function Qualified(roster: seq<Analyst>, n: nat, skill: string, desk: string): seq<Analyst>
    requires n <= |roster|
  {
    if n == 0 then []
    else if Qualifies(roster[n - 1], skill, desk) then Qualified(roster, n - 1, skill, desk) + [roster[n - 1]]
    else Qualified(roster, n - 1, skill, desk)
  }

  /** Every active analyst of the desk, or of any, holding the skill: nobody else, nobody
      left out, each as often as the roster has them. */
  lemma {:induction false} QualifiedAreThoseWhoQualify(roster: seq<Analyst>, n: nat, skill: string, desk: string,
                                                       a: Analyst)
    requires n <= |roster|
    ensures multiset(Qualified(roster, n, skill, desk))[a]
            == if Qualifies(a, skill, desk) then multiset(roster[..n])[a] else 0
  {
    if n > 0 {
      QualifiedAreThoseWhoQualify(roster, n - 1, skill, desk, a);
      assert roster[..n] == roster[..n - 1] + [roster[n - 1]];
      OneMore(roster[..n - 1], roster[n - 1], a);
      OneMore(Qualified(roster, n - 1, skill, desk), roster[n - 1], a);
    }
  }

  lemma OneMore(s: seq<Analyst>, x: Analyst, a: Analyst)
    ensures multiset(s + [x])[a] == multiset(s)[a] + (if x == a then 1 else 0)
  {
  }

  method CandidatesWithSkill(roster: seq<Analyst>, skill: string, desk: string) returns (out: seq<Analyst>)
    ensures out == Qualified(roster, |roster|, skill, desk)
    ensures forall a :: a in out ==> a in roster && Qualifies(a, skill, desk)
    ensures forall a :: a in out <==>
              a in roster && a.state == "active" && (desk == "" || a.desk == desk) && skill in a.skills
  {
    out := [];
    var i := 0;
    while i < |roster|
      invariant i <= |roster| && out == Qualified(roster, i, skill, desk)
      invariant forall a :: a in out ==> a in roster && Qualifies(a, skill, desk)
      invariant forall a :: a in out <==> a in roster[..i] && Qualifies(a, skill, desk)
    {
      if Qualifies(roster[i], skill, desk) {
        out := out + [roster[i]];
      }
      i := i + 1;
    }
    assert roster[..i] == roster;
  }

  // ------------------------------------------------------------------- the choice

  /** a is preferred to b for a class of work. */
  predicate Before(a: Analyst, b: Analyst, preferred: string, spent: Spend) {
    var first, second := a.engine == preferred, b.engine == preferred;
    if preferred != "" && first != second then first
    else if HeadroomOf(a, spent) != HeadroomOf(b, spent) then HeadroomOf(a, spent) > HeadroomOf(b, spent)
    else LexLess(a.name, b.name)
  }

  /** The preference goes one way, tells any two names apart and carries over. */
  lemma BeforeOrders(a: Analyst, b: Analyst, c: Analyst, preferred: string, spent: Spend)
    ensures Before(a, b, preferred, spent) ==> !Before(b, a, preferred, spent)
    ensures a.name != b.name ==> Before(a, b, preferred, spent) || Before(b, a, preferred, spent)
    ensures !Before(b, a, preferred, spent) && !Before(c, b, preferred, spent) ==> !Before(c, a, preferred, spent)
  {
    LexOrder(a.name, b.name, c.name);
    LexOrder(c.name, b.name, a.name);
    LexOrder(c.name, a.name, b.name);
    LexOrder(b.name, a.name, c.name);
    LexOrder(b.name, c.name, a.name);
  }

  ghost predicate Ranked(s: seq<Analyst>, preferred: string, spent: Spend) {
    forall i, j :: 0 <= i < j < |s| ==> !Before(s[j], s[i], preferred, spent)
  }

  /** A stable sort: an analyst goes behind those it does not come before. */
  method Rank(viable: seq<Analyst>, preferred: string, spent: Spend) returns (ranked: seq<Analyst>)
    ensures Ranked(ranked, preferred, spent) && multiset(ranked) == multiset(viable)
  {
    ranked := [];
    var i := 0;
    while i < |viable|
      invariant i <= |viable| && Ranked(ranked, preferred, spent)
      invariant multiset(ranked) == multiset(viable[..i])
    {
      assert viable[..i + 1] == viable[..i] + [viable[i]];
      ranked := Place(ranked, viable[i], preferred, spent);
      i := i + 1;
    }
    assert viable[..i] == viable;
  }

  method Place(ranked: seq<Analyst>, a: Analyst, preferred: string, spent: Spend) returns (longer: seq<Analyst>)
    requires Ranked(ranked, preferred, spent)
    ensures Ranked(longer, preferred, spent) && multiset(longer) == multiset(ranked) + multiset{a}
  {
    var k := |ranked|;
    while k > 0 && Before(a, ranked[k - 1], preferred, spent)
      invariant 0 <= k <= |ranked| && forall j :: k <= j < |ranked| ==> Before(a, ranked[j], preferred, spent)
    {
      k := k - 1;
    }
    forall j | 0 <= j < k ensures !Before(a, ranked[j], preferred, spent) {
      BeforeOrders(ranked[j], ranked[k - 1], a, preferred, spent);
    }
    forall j | k <= j < |ranked| ensures !Before(ranked[j], a, preferred, spent) {
      BeforeOrders(a, ranked[j], a, preferred, spent);
    }
    PlacedAt(ranked, a, k, preferred, spent);
    longer := ranked[..k] + [a] + ranked[k..];
  }

  lemma PlacedAt(ranked: seq<Analyst>, a: Analyst, k: nat, preferred: string, spent: Spend)
    requires Ranked(ranked, preferred, spent) && k <= |ranked|
    requires forall j :: 0 <= j < k ==> !Before(a, ranked[j], preferred, spent)
    requires forall j :: k <= j < |ranked| ==> !Before(ranked[j], a, preferred, spent)
    ensures Ranked(ranked[..k] + [a] + ranked[k..], preferred, spent)
    ensures multiset(ranked[..k] + [a] + ranked[k..]) == multiset(ranked) + multiset{a}
  {
    assert ranked == ranked[..k] + ranked[k..];
    var longer := ranked[..k] + [a] + ranked[k..];
    forall i, j | 0 <= i < j < |longer| ensures !Before(longer[j], longer[i], preferred, spent) {
      PlacedPair(ranked, a, k, i, j, preferred, spent);
    }
  }

  lemma PlacedPair(ranked: seq<Analyst>, a: Analyst, k: nat, i: nat, j: nat, preferred: string, spent: Spend)
    requires Ranked(ranked, preferred, spent) && i < j <= |ranked| && k <= |ranked|
    requires forall j :: 0 <= j < k ==> !Before(a, ranked[j], preferred, spent)
    requires forall j :: k <= j < |ranked| ==> !Before(ranked[j], a, preferred, spent)
    ensures var longer := ranked[..k] + [a] + ranked[k..]; !Before(longer[j], longer[i], preferred, spent)
  {
    var longer := ranked[..k] + [a] + ranked[k..];
    assert longer[i] == if i < k then ranked[i] else if i == k then a else ranked[i - 1];
    assert longer[j] == if j < k then ranked[j] else if j == k then a else ranked[j - 1];
  }

  /** chosen is one with headroom that no other with headroom is preferred to. */
  ghost predicate BestOf(chosen: Analyst, candidates: seq<Analyst>, class_: string, spent: Spend) {
    && chosen in candidates && HeadroomOf(chosen, spent) > 0
    && forall a :: a in candidates && HeadroomOf(a, spent) > 0 ==> !Before(a, chosen, PreferredEngine(class_), spent)
  }

  function Money(a: Analyst, spent: Spend): int {
    if a.name in spent then a.monthly - spent[a.name] else a.monthly
  }

  /** chosen has money left; nobody with money left runs on the engine unless chosen does, and none
      that is level there has more money left, or as much and an earlier name. */
  ghost predicate Leads(chosen: Analyst, candidates: seq<Analyst>, engine: string, spent: Spend) {
    && chosen in candidates && Money(chosen, spent) > 0
    && forall a :: a in candidates && Money(a, spent) > 0 ==>
         && (engine != "" && a.engine == engine ==> chosen.engine == engine)
         && (engine == "" || (a.engine == engine <==> chosen.engine == engine) ==>
               Money(a, spent) < Money(chosen, spent)
               || (Money(a, spent) == Money(chosen, spent) && !LexLess(a.name, chosen.name)))
  }

  /** The best of a class of work leads on the cheap engine for triage and commentary, on the strong
      one for framing, reporting and commitments, and on none for anything else. */
  lemma BestLeads(chosen: Analyst, candidates: seq<Analyst>, class_: string, spent: Spend)
    ensures class_ in {"anomaly-triage", "variance-commentary"} ==>
              (BestOf(chosen, candidates, class_, spent) <==> Leads(chosen, candidates, "openrouter", spent))
    ensures class_ in {"decision-framing", "exec-reporting", "commitment-modelling"} ==>
              (BestOf(chosen, candidates, class_, spent) <==> Leads(chosen, candidates, "anthropic", spent))
    ensures class_ !in {"anomaly-triage", "variance-commentary", "decision-framing", "exec-reporting",
                        "commitment-modelling"} ==>
              (BestOf(chosen, candidates, class_, spent) <==> Leads(chosen, candidates, "", spent))
  {
    BestLeadsOn(chosen, candidates, class_, spent);
  }

  lemma BestLeadsOn(chosen: Analyst, candidates: seq<Analyst>, class_: string, spent: Spend)
    ensures BestOf(chosen, candidates, class_, spent) <==> Leads(chosen, candidates, PreferredEngine(class_), spent)
  {
    forall a ensures HeadroomOf(a, spent) == Money(a, spent) {
    }
  }

  predicate UniqueNames(candidates: seq<Analyst>) {
    forall i, j :: 0 <= i < |candidates| && 0 <= j < |candidates| && candidates[i].name == candidates[j].name ==>
      candidates[i] == candidates[j]
  }

  function Skipped(candidates: seq<Analyst>, n: nat, spent: Spend): seq<string>
    requires n <= |candidates|
  {
    if n == 0 then []
    else Skipped(candidates, n - 1, spent)
         + (if HeadroomOf(candidates[n - 1], spent) <= 0 then [candidates[n - 1].name] else [])
  }

  /** The best candidate with headroom, or none exactly when all of them lack it; everybody
      dropped for want of headroom is named. */
  method ChooseAnalyst(candidates: seq<Analyst>, class_: string, spent: Spend)
    returns (chosen: Option<Analyst>, skipped: seq<string>)
    ensures chosen.None? <==> forall a :: a in candidates ==> HeadroomOf(a, spent) <= 0
    ensures chosen.Some? ==> BestOf(chosen.value, candidates, class_, spent)
    ensures skipped == Skipped(candidates, |candidates|, spent)
  {
    var viable: seq<Analyst> := [];
    skipped := [];
    var i := 0;
    while i < |candidates|
      invariant i <= |candidates| && skipped == Skipped(candidates, i, spent)
      invariant forall a :: a in viable <==> a in candidates[..i] && HeadroomOf(a, spent) > 0
    {
      if HeadroomOf(candidates[i], spent) <= 0 {
        skipped := skipped + [candidates[i].name];
      } else {
        viable := viable + [candidates[i]];
      }
      i := i + 1;
    }
    assert candidates[..i] == candidates;
    if |viable| == 0 {
      forall a | a in candidates ensures HeadroomOf(a, spent) <= 0 {
        assert a !in viable;
      }
      return None, skipped;
    }
    var ranked := Rank(viable, PreferredEngine(class_), spent);
    assert ranked[0] in multiset(viable);
    forall a | a in viable ensures !Before(a, ranked[0], PreferredEngine(class_), spent) {
      assert a in multiset(ranked);
      var j :| 0 <= j < |ranked| && ranked[j] == a;
      BeforeOrders(a, a, a, PreferredEngine(class_), spent);
    }
    return Some(ranked[0]), skipped;
  }

  /** Names being unique, the choice depends on who the candidates are and not on the order
      they come in, and every other one with headroom comes after. */
  lemma ChoiceIsOrderFree(a: Analyst, first: seq<Analyst>, b: Analyst, second: seq<Analyst>, class_: string,
                          spent: Spend)
    requires UniqueNames(first) && forall x :: x in first <==> x in second
    requires BestOf(a, first, class_, spent) && BestOf(b, second, class_, spent)
    ensures a == b
    ensures forall x :: x in first && HeadroomOf(x, spent) > 0 && x != a ==>
              Before(a, x, PreferredEngine(class_), spent)
  {
    assert b in first && a in second;
    forall x | x in first && HeadroomOf(x, spent) > 0 && x != a ensures Before(a, x, PreferredEngine(class_), spent) {
      assert x.name != a.name by {
        var i :| 0 <= i < |first| && first[i] == x;
        var j :| 0 <= j < |first| && first[j] == a;
      }
      BeforeOrders(a, x, x, PreferredEngine(class_), spent);
    }
  }

  // ------------------------------------------------------------------- routed items

  /** The item goes to an active, skilled analyst of the desk with money left, at its own
      guard, or to the supervisor at none. */
  ghost predicate WellRouted(item: PlanItem, roster: seq<Analyst>, skill: string, desk: string, spent: Spend) {
    || item == TO_SUPERVISOR
    || exists a :: a in roster && Qualifies(a, skill, desk) && HeadroomOf(a, spent) > 0
                   && item == PlanItem(a.name, a.desk, a.perTask, skill)
  }

  /** The item goes to the best candidate at its own guard. */
  ghost predicate RoutedToBest(item: PlanItem, candidates: seq<Analyst>, class_: string, spent: Spend) {
    exists a :: BestOf(a, candidates, class_, spent) && item == PlanItem(a.name, a.desk, a.perTask, class_)
  }

  method RoutedItem(candidates: seq<Analyst>, class_: string, spent: Spend) returns (item: PlanItem)
    ensures if exists a :: a in candidates && HeadroomOf(a, spent) > 0
            then RoutedToBest(item, candidates, class_, spent) else item == TO_SUPERVISOR
    ensures (forall a :: a in candidates ==> Money(a, spent) <= 0) ==>
              item == PlanItem("supervisor", "management", 0, "")
  {
    var chosen, _ := ChooseAnalyst(candidates, class_, spent);
    if chosen.None? {
      return TO_SUPERVISOR;
    }
    return PlanItem(chosen.value.name, chosen.value.desk, chosen.value.perTask, class_);
  }

  function TriageDesk(source: string): string {
    if source == "aws" || source == "gcp" || source == "azure" then "triage-" + source
    else if source == "ai" then "triage-ai"
    else if source == "saas" then "saas-manager"
    else "investigator-onprem"
  }

  const UNKNOWN_TRIAGE_BUDGET: int := 1_500

  function Find(roster: seq<Analyst>, name: string): (a: Option<Analyst>)
    ensures a.Some? ==> a.value in roster && a.value.name == name
    ensures a.None? ==> forall i :: 0 <= i < |roster| ==> roster[i].name != name
  {
    if roster == [] then None
    else if roster[0].name == name then Some(roster[0])
    else Find(roster[1..], name)
  }

  /** An open anomaly's item.  With two triage analysts or more on the desk it is routed;
      with one or none it names the desk's triage analyst whoever that is. */
  method AnomalyItem(roster: seq<Analyst>, source: string, spent: Spend) returns (item: PlanItem)
    ensures var few := |Qualified(roster, |roster|, SKILL_ANOMALY_TRIAGE, source)| <= 1;
            && (!few ==> WellRouted(item, roster, SKILL_ANOMALY_TRIAGE, source, spent))
            && (!few ==>
                  var candidates := Qualified(roster, |roster|, SKILL_ANOMALY_TRIAGE, source);
                  if exists a :: a in candidates && HeadroomOf(a, spent) > 0
                  then RoutedToBest(item, candidates, "anomaly-triage", spent) else item == TO_SUPERVISOR)
            && (few ==> item == NamedItem(roster, source))
  {
    var candidates := CandidatesWithSkill(roster, SKILL_ANOMALY_TRIAGE, source);
    if |candidates| <= 1 {
      return NamedItem(roster, source);
    }
    item := RoutedItem(candidates, SKILL_ANOMALY_TRIAGE, spent);
  }

  function NamedItem(roster: seq<Analyst>, source: string): PlanItem {
    var a := Find(roster, TriageDesk(source));
    var budget := if a.Some? then a.value.perTask else UNKNOWN_TRIAGE_BUDGET;
    PlanItem(TriageDesk(source), source, budget, SKILL_ANOMALY_TRIAGE)
  }

  /** Who that is, and for how much: the triage analyst of a cloud's or the gateway's desk, the
      manager of a subscription's, the investigator of anything else, at the guard of whoever bears
      the name or at fifteen. */
  lemma WhoIsNamed(roster: seq<Analyst>, source: string)
    ensures var item := NamedItem(roster, source);
            && item.assignee == (if source in {"aws", "gcp", "azure", "ai"} then "triage-" + source
                                 else if source == "saas" then "saas-manager" else "investigator-onprem")
            && item.desk == source && item.skill == "anomaly-triage"
            && ((forall a :: a in roster ==> a.name != item.assignee) ==> item.budget == 1_500)
            && ((exists a :: a in roster && a.name == item.assignee) ==>
                  exists a :: a in roster && a.name == item.assignee && item.budget == a.perTask)
  {
    assert "triage-" + "ai" == "triage-ai";
  }

  /** So where one triage analyst at most is active on a desk, an anomaly is well routed exactly
      when the analyst of the desk's triage name is on the roster and the desk, qualifies and has
      money left. */
  lemma NamedIsWellRoutedIff(roster: seq<Analyst>, source: string, spent: Spend)
    requires UniqueNames(roster)
    ensures WellRouted(NamedItem(roster, source), roster, SKILL_ANOMALY_TRIAGE, source, spent)
            <==> var a := Find(roster, TriageDesk(source));
                 && a.Some? && a.value.desk == source
                 && Qualifies(a.value, SKILL_ANOMALY_TRIAGE, source) && HeadroomOf(a.value, spent) > 0
  {
    var item, found := NamedItem(roster, source), Find(roster, TriageDesk(source));
    assert item.skill != TO_SUPERVISOR.skill;
    if WellRouted(item, roster, SKILL_ANOMALY_TRIAGE, source, spent) {
      var a :| a in roster && Qualifies(a, SKILL_ANOMALY_TRIAGE, source) && HeadroomOf(a, spent) > 0
               && item == PlanItem(a.name, a.desk, a.perTask, SKILL_ANOMALY_TRIAGE);
      var i :| 0 <= i < |roster| && roster[i] == a;
      var j :| 0 <= j < |roster| && roster[j] == found.value;
    }
  }

  /** A desk whose one triage analyst is suspended still gives that analyst its anomalies. */
  lemma SuspendedTriageIsNamed(a: Analyst, spent: Spend)
    requires a.name == "triage-aws" && a.desk == "aws" && a.state == "suspended"
    ensures Qualified([a], 1, SKILL_ANOMALY_TRIAGE, "aws") == []
    ensures NamedItem([a], "aws").assignee == a.name
    ensures !WellRouted(NamedItem([a], "aws"), [a], SKILL_ANOMALY_TRIAGE, "aws", spent)
  {
    NamedIsWellRoutedIff([a], "aws", spent);
    assert "triage-" + "aws" == "triage-aws";
  }
}
