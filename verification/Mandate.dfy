/**
 The mandate an older seeding left blank, filled in at startup until nothing changes.

 Four passes over the roster run on every start: one fills what is blank, one gives analysts still
 with the seeding account to their desk's owner, one drops rights nothing stands behind any more,
 one renames retired skills and adds the rights the new names earn.  What a role says and when
 somebody was hired are parameters.
 */
module Mandate {
  import opened Wrappers
  import opened Text
  import opened Lists

  const SUPERVISOR: string := "supervisor"
  const SUSPENDED: string := "suspended"
  const RESTRICTED: string := "restricted"
  const FLOOR: string := "figures-read"

  /** One analyst's row as read: a NULL column is an empty text. */
  datatype Row = Row(name: string, role: string, desk: string, state: string, skills: string, mission: string,
                     rights: string, parent: string, hired: string, owner: string, cadence: string, audience: string)

  /** What the passes are given: the words for each name and desk, the staggered hire dates,
      the date a seed script leaves on everybody, what each skill and right has become, and who
      answers for each desk. */
  datatype World = World(missions: map<Post, string>, cadences: map<string, string>, audiences: map<Post, string>,
                         hires: map<string, string>, lastDay: string, earns: map<string, seq<string>>,
                         retiredRights: set<string>, newNames: map<string, string>,
                         deskOwners: map<string, string>)

  datatype Post = Post(name: string, desk: string)

  // ------------------------------------------------------------------ what each column should hold

  function WhereFor(desk: string): string {
    if desk == "management" then "the whole estate" else "the " + desk + " desk"
  }

  function MissionFor(r: Row, w: World): string {
    var p := Post(r.name, r.desk);
    if p in w.missions && w.missions[p] != "" then w.missions[p] else r.role + " for " + WhereFor(r.desk) + "."
  }

  function CadenceFor(r: Row, w: World): string {
    if r.name in w.cadences && w.cadences[r.name] != "" then w.cadences[r.name] else "weekly"
  }

  function AudienceFor(r: Row, w: World): string {
    var p := Post(r.name, r.desk);
    if p in w.audiences && w.audiences[p] != "" then w.audiences[p] else "the " + r.desk + " desk"
  }

  predicate IsPartner(name: string) {
    "partner-" <= name
  }

  function ParentFor(r: Row, partners: set<string>): string {
    if r.name == SUPERVISOR then ""
    else if IsPartner(r.name) then SUPERVISOR
    else if r.desk in partners then "partner-" + r.desk
    else SUPERVISOR
  }

  /** The rights every skill of a list earns. */
  function Earned(skills: seq<string>, w: World): seq<string> {
    if skills == [] then []
    else (if skills[0] in w.earns then w.earns[skills[0]] else []) + Earned(skills[1..], w)
  }

  predicate Spoken(right: string) {
    right == "channel-post" || right == "publish-explainer" || right == "export-data"
  }

  function WithoutSpoken(rights: seq<string>): seq<string> {
    if rights == [] then []
    else if Spoken(rights[0]) then WithoutSpoken(rights[1..])
    else [rights[0]] + WithoutSpoken(rights[1..])
  }

  /** Each text once. */
  function Once(items: seq<string>): seq<string> {
    if items == [] then []
    else if items[0] in items[1..] then Once(items[1..])
    else [items[0]] + Once(items[1..])
  }

  /** What a list of skills may do: nothing when suspended, and nothing in anybody's name when
      restricted. */
  function RightsFor(skills: seq<string>, state: string, w: World): seq<string> {
    if state == SUSPENDED then []
    else
      var all := [FLOOR] + Earned(skills, w);
      SortTexts(Once(if state == RESTRICTED then WithoutSpoken(all) else all))
  }

  // ------------------------------------------------------------------ the first pass

  predicate FlatDate(r: Row, w: World) {
    r.hired == "" || r.hired == w.lastDay
  }

  predicate Unowned(r: Row) {
    r.owner == "" || r.owner == "unclaimed"
  }

  /** Nothing that the pass looks for is missing. */
  predicate Complete(r: Row, w: World) {
    r.mission != "" && r.rights != "" && !FlatDate(r, w) && !Unowned(r)
  }

  function HiredFor(r: Row, w: World): string {
    if FlatDate(r, w) && r.name in w.hires then w.hires[r.name] else r.hired
  }

  function OwnerFor(r: Row, owner: string): string {
    if Unowned(r) && owner != "" then owner else r.owner
  }

  function ParentKept(r: Row, partners: set<string>): string {
    if r.parent == "" || r.parent == SUPERVISOR then ParentFor(r, partners) else r.parent
  }

  /** The row the pass wants, column by column, as the code compares it. */
  function Want(r: Row, w: World, owner: string, partners: set<string>): Row {
    r.(mission := if r.mission == "" then MissionFor(r, w) else r.mission,
       rights := if r.rights == "" then Join(RightsFor(SplitList(r.skills), r.state, w)) else r.rights,
       cadence := if r.cadence == "" || r.cadence == "weekly" then CadenceFor(r, w) else r.cadence,
       audience := if r.audience == "" || r.audience == "the desk" then AudienceFor(r, w) else r.audience,
       parent := ParentKept(r, partners), hired := HiredFor(r, w), owner := OwnerFor(r, owner))
  }

  /** The statement that is run: four columns guarded by their own contents, three assigned. */
  function Updated(r: Row, mission: string, rights: string, cadence: string, audience: string, parent: string,
                   hired: string, owned: string): Row {
    r.(mission := if r.mission == "" then mission else r.mission,
       rights := if r.rights == "" then rights else r.rights,
       cadence := if r.cadence in ["", "weekly"] then cadence else r.cadence,
       audience := if r.audience in ["", "the desk"] then audience else r.audience,
       parent := parent, hired := hired, owner := owned)
  }

  /** The statement leaves exactly the row the code compared with, so the rows counted are
      the rows that differ. */
  lemma StatementWritesWhatWasWanted(r: Row, w: World, owner: string, partners: set<string>)
    ensures Updated(r, MissionFor(r, w), Join(RightsFor(SplitList(r.skills), r.state, w)), CadenceFor(r, w),
                    AudienceFor(r, w), ParentKept(r, partners), HiredFor(r, w), OwnerFor(r, owner))
            == Want(r, w, owner, partners)
  {
  }

  function Backfilled(r: Row, w: World, owner: string, partners: set<string>): Row {
    if Complete(r, w) then r else Want(r, w, owner, partners)
  }

  /** What the pass writes into a row that lacks something: a blank mission, cadence or audience, or a
      default one, takes the role's own words or else the house's; a parent nobody chose is the
      desk's partner or the supervisor; nothing else moves but blank rights, date and owner. */
  lemma BackfillFillsIn(r: Row, w: World, owner: string, partners: set<string>)
    requires r.mission == "" || r.rights == "" || r.hired in {"", w.lastDay} || r.owner in {"", "unclaimed"}
    ensures var b, post := Backfilled(r, w, owner, partners), Post(r.name, r.desk);
            && b.mission == (if r.mission != "" then r.mission
                             else if post in w.missions && w.missions[post] != "" then w.missions[post]
                             else if r.desk == "management" then r.role + " for the whole estate."
                             else r.role + " for the " + r.desk + " desk.")
            && b.cadence == (if r.cadence !in {"", "weekly"} then r.cadence
                             else if r.name in w.cadences && w.cadences[r.name] != "" then w.cadences[r.name]
                             else "weekly")
            && b.audience == (if r.audience !in {"", "the desk"} then r.audience
                              else if post in w.audiences && w.audiences[post] != "" then w.audiences[post]
                              else "the " + r.desk + " desk")
            && b.parent == (if r.parent !in {"", "supervisor"} then r.parent
                            else if r.name == "supervisor" then ""
                            else if !("partner-" <= r.name) && r.desk in partners then "partner-" + r.desk
                            else "supervisor")
            && b.hired == (if r.hired in {"", w.lastDay} && r.name in w.hires then w.hires[r.name] else r.hired)
            && b.owner == (if r.owner in {"", "unclaimed"} && owner != "" then owner else r.owner)
            && b.rights == (if r.rights != "" then r.rights else Join(RightsFor(SplitList(r.skills), r.state, w)))
            && b.(mission := r.mission, cadence := r.cadence, audience := r.audience, parent := r.parent,
                  hired := r.hired, owner := r.owner, rights := r.rights) == r
  {
    WordsOfTheDesk(r.role, r.desk);
  }

  lemma WordsOfTheDesk(role: string, desk: string)
    ensures role + " for " + "the whole estate" + "." == role + " for the whole estate."
    ensures role + " for " + ("the " + desk + " desk") + "." == role + " for the " + desk + " desk."
  {
    assert " for " + "the whole estate" == " for the whole estate";
    assert role + " for " + ("the " + desk + " desk") + "." == role + (" for " + "the ") + desk + (" desk" + ".");
    assert " for " + "the " == " for the ";
    assert " desk" + "." == " desk.";
    assert role + " for " + "the whole estate" + "." == role + (" for " + "the whole estate" + ".");
  }

  /** And a row that lacks none of these is left alone. */
  lemma WholeRowIsLeftAlone(r: Row, w: World, owner: string, partners: set<string>)
    requires r.mission != "" && r.rights != "" && r.hired !in {"", w.lastDay} && r.owner !in {"", "unclaimed"}
    ensures Backfilled(r, w, owner, partners) == r
  {
  }

  /** The parents the pass gives lead to the supervisor in two steps at most: nobody is put under
      themselves, a partner under the supervisor, and anybody else under one of these. */
  lemma ParentsClimb(r: Row, partners: set<string>)
    ensures ParentFor(r, partners) != r.name
    ensures ParentFor(r, partners) == "" <==> r.name == "supervisor"
    ensures "partner-" <= r.name ==> ParentFor(r, partners) == "supervisor"
    ensures r.name != "supervisor" ==>
              ParentFor(r, partners) == "supervisor" || ("partner-" <= ParentFor(r, partners) && r.desk in partners)
  {
    assert "partner-"[0] != "supervisor"[0];
  }

  /** Wanting again wants no more. */
  lemma WantTwiceIsWantOnce(r: Row, w: World, owner: string, partners: set<string>)
    ensures Want(Want(r, w, owner, partners), w, owner, partners) == Want(r, w, owner, partners)
  {
  }

  lemma BackfillTwiceIsBackfillOnce(r: Row, w: World, owner: string, partners: set<string>)
    ensures Backfilled(Backfilled(r, w, owner, partners), w, owner, partners) == Backfilled(r, w, owner, partners)
  {
    WantTwiceIsWantOnce(r, w, owner, partners);
  }

  /** The parent, cadence or audience is the word the pass takes for nobody's choice, and the
      role says another. */
  predicate TakesParent(r: Row, partners: set<string>) {
    (r.parent == "" || r.parent == SUPERVISOR) && ParentFor(r, partners) != r.parent
  }

  predicate TakesCadence(r: Row, w: World) {
    (r.cadence == "" || r.cadence == "weekly") && CadenceFor(r, w) != r.cadence
  }

  predicate TakesAudience(r: Row, w: World) {
    (r.audience == "" || r.audience == "the desk") && AudienceFor(r, w) != r.audience
  }

  /** What of a row stands.  A mission, rights, an owner and a date of one's own always do; a
      parent, cadence or audience is overwritten exactly when something else is missing from the
      row, it is a default word, and the role's own word is another. */
  lemma DecisionsStandIff(r: Row, w: World, owner: string, partners: set<string>)
    ensures var b := Backfilled(r, w, owner, partners);
            && (b.parent == r.parent <==> Complete(r, w) || !TakesParent(r, partners))
            && (b.cadence == r.cadence <==> Complete(r, w) || !TakesCadence(r, w))
            && (b.audience == r.audience <==> Complete(r, w) || !TakesAudience(r, w))
            && (b.mission == r.mission <==> r.mission != "" || MissionFor(r, w) == "")
            && (b.rights == r.rights <==> r.rights != "" || Join(RightsFor(SplitList(r.skills), r.state, w)) == "")
            && (b.owner == r.owner <==> !Unowned(r) || owner == "" || owner == r.owner)
            && (b.hired == r.hired <==> !FlatDate(r, w) || r.name !in w.hires || w.hires[r.name] == r.hired)
            && b.name == r.name && b.role == r.role && b.desk == r.desk && b.state == r.state && b.skills == r.skills
  {
  }

  /** Both parents the hire form offers, its weekly report and its audience are such words: an
      analyst hired with no right ticked keeps none of them against the role's own. */
  lemma FormDefaultsAreOverwritten(r: Row, w: World, owner: string, partners: set<string>)
    requires r.rights == "" && r.name != SUPERVISOR && !IsPartner(r.name)
    requires (r.parent == SUPERVISOR || r.parent == "") && r.cadence == "weekly" && r.audience == "the desk"
    ensures var b := Backfilled(r, w, owner, partners);
            && b.parent == (if r.desk in partners then "partner-" + r.desk else SUPERVISOR)
            && b.cadence == CadenceFor(r, w) && b.audience == AudienceFor(r, w)
  {
  }

  function FormHire(parent: string): Row {
    Row("triage-two", "analyst", "aws", "active", "anomaly-triage", "to look", "", parent, "2026-09-01", "somebody",
        "weekly", "the desk")
  }

  /** One hired under the supervisor on a desk with a partner, and one under nobody. */
  lemma ChosenParentIsOverwritten(w: World, owner: string)
    ensures Backfilled(FormHire(SUPERVISOR), w, owner, {"aws"}).parent != SUPERVISOR
    ensures Backfilled(FormHire(""), w, owner, {}).parent != ""
  {
    var name := FormHire("").name;
    assert name[0] == 't' && SUPERVISOR[0] == 's' && "partner-"[0] == 'p';
    assert ("partner-" + "aws")[0] == 'p';
    FormDefaultsAreOverwritten(FormHire(SUPERVISOR), w, owner, {"aws"});
    FormDefaultsAreOverwritten(FormHire(""), w, owner, {});
  }

  /** The desks that have a partner. */
  function PartnersOf(rows: seq<Row>, n: nat): set<string>
    requires n <= |rows|
  {
    if n == 0 then {}
    else if IsPartner(rows[n - 1].name) then PartnersOf(rows, n - 1) + {rows[n - 1].desk}
    else PartnersOf(rows, n - 1)
  }

  function EachBackfilled(rows: seq<Row>, w: World, owner: string, partners: set<string>): (after: seq<Row>)
    ensures |after| == |rows|
  {
    if rows == [] then []
    else EachBackfilled(rows[..|rows| - 1], w, owner, partners) + [Backfilled(rows[|rows| - 1], w, owner, partners)]
  }

  lemma {:induction false} BackfilledRow(rows: seq<Row>, w: World, owner: string, partners: set<string>, i: nat)
    requires i < |rows|
    ensures EachBackfilled(rows, w, owner, partners)[i] == Backfilled(rows[i], w, owner, partners)
  {
    if i < |rows| - 1 {
      BackfilledRow(rows[..|rows| - 1], w, owner, partners, i);
    } else if i > 0 {
      BackfilledRow(rows[..|rows| - 1], w, owner, partners, i - 1);
    }
  }

  lemma BackfilledRows(rows: seq<Row>, w: World, owner: string, partners: set<string>)
    ensures var after := EachBackfilled(rows, w, owner, partners);
            forall i :: 0 <= i < |rows| ==> after[i] == Backfilled(rows[i], w, owner, partners)
  {
    forall i | 0 <= i < |rows|
      ensures EachBackfilled(rows, w, owner, partners)[i] == Backfilled(rows[i], w, owner, partners)
    {
      BackfilledRow(rows, w, owner, partners, i);
    }
  }

  /** How many of the first n rows differ. */
  function Changed(before: seq<Row>, after: seq<Row>, n: nat): nat
    requires n <= |before| && n <= |after|
  {
    if n == 0 then 0 else Changed(before, after, n - 1) + (if before[n - 1] != after[n - 1] then 1 else 0)
  }

  lemma {:induction false} SamePartners(rows: seq<Row>, n: nat, w: World, owner: string, partners: set<string>)
    requires n <= |rows|
    ensures PartnersOf(EachBackfilled(rows, w, owner, partners), n) == PartnersOf(rows, n)
  {
    if n > 0 {
      BackfilledRow(rows, w, owner, partners, n - 1);
      SamePartners(rows, n - 1, w, owner, partners);
      DecisionsStandIff(rows[n - 1], w, owner, partners);
    }
  }

  lemma {:induction false} NothingChanged(rows: seq<Row>, n: nat)
    requires n <= |rows|
    ensures Changed(rows, rows, n) == 0
  {
    if n > 0 {
      NothingChanged(rows, n - 1);
    }
  }

  function Backfill(rows: seq<Row>, w: World, owner: string): seq<Row> {
    EachBackfilled(rows, w, owner, PartnersOf(rows, |rows|))
  }

  /** A second pass with the same owner writes no row, a suspended analyst's rightly empty
      rights notwithstanding. */
  lemma SecondBackfillWritesNothing(rows: seq<Row>, w: World, owner: string)
    ensures var once := Backfill(rows, w, owner);
            Backfill(once, w, owner) == once && Changed(once, Backfill(once, w, owner), |once|) == 0
  {
    var partners := PartnersOf(rows, |rows|);
    var once := Backfill(rows, w, owner);
    SamePartners(rows, |rows|, w, owner, partners);
    BackfilledRows(rows, w, owner, partners);
    BackfilledRows(once, w, owner, partners);
    forall i | 0 <= i < |rows| ensures Backfilled(once[i], w, owner, partners) == once[i] {
      BackfillTwiceIsBackfillOnce(rows[i], w, owner, partners);
    }
    assert Backfill(once, w, owner) == once;
    NothingChanged(once, |once|);
  }

  lemma {:induction false} ChangedSoFar(before: seq<Row>, a: seq<Row>, b: seq<Row>, n: nat)
    requires n <= |before| && n <= |a| && n <= |b| && forall i :: 0 <= i < n ==> a[i] == b[i]
    ensures Changed(before, a, n) == Changed(before, b, n)
  {
    if n > 0 {
      ChangedSoFar(before, a, b, n - 1);
    }
  }

  lemma OneMoreRow(all: seq<Row>, rows: seq<Row>, i: nat, r: Row)
    requires i < |all| && |rows| == i
    ensures Changed(all, rows + [r], i + 1) == Changed(all, rows, i) + (if all[i] == r then 0 else 1)
  {
    ChangedSoFar(all, rows, rows + [r], i);
  }

  lemma OneMoreBackfilled(all: seq<Row>, i: nat, w: World, owner: string, partners: set<string>, r: Row)
    requires i < |all| && r == Backfilled(all[i], w, owner, partners)
    ensures EachBackfilled(all[..i + 1], w, owner, partners) == EachBackfilled(all[..i], w, owner, partners) + [r]
  {
    assert all[..i + 1][..i] == all[..i];
  }

  // ------------------------------------------------------------------ retired rights

  function NotRetired(rights: seq<string>, w: World): seq<string> {
    if rights == [] then []
    else if rights[0] in w.retiredRights then NotRetired(rights[1..], w)
    else [rights[0]] + NotRetired(rights[1..], w)
  }

  predicate HoldsRetired(rights: seq<string>, w: World) {
    exists i :: 0 <= i < |rights| && rights[i] in w.retiredRights
  }

  function Dropped(r: Row, w: World): Row {
    if HoldsRetired(SplitList(r.rights), w) then r.(rights := Join(NotRetired(SplitList(r.rights), w))) else r
  }

  lemma {:induction false} NotRetiredKeeps(rights: seq<string>, w: World)
    ensures forall x :: x in NotRetired(rights, w) <==> x in rights && x !in w.retiredRights
  {
    if rights != [] {
      NotRetiredKeeps(rights[1..], w);
    }
  }

  lemma {:induction false} NotRetiredInOrder(rights: seq<string>, w: World)
    requires InOrder(rights)
    ensures InOrder(NotRetired(rights, w))
  {
    if rights != [] {
      NotRetiredInOrder(rights[1..], w);
      NotRetiredKeeps(rights[1..], w);
      var rest := NotRetired(rights[1..], w);
      forall j | 0 <= j < |rest| ensures !LexLess(rest[j], rights[0]) {
        assert rest[j] in rest;
        var k :| 0 <= k < |rights[1..]| && rights[1..][k] == rest[j];
        assert rights[k + 1] == rest[j];
      }
    }
  }

  lemma ItemsAmong(some: seq<string>, all: seq<string>)
    requires AllItems(all) && forall x :: x in some ==> x in all
    ensures AllItems(some)
  {
    forall i | 0 <= i < |some| ensures IsItem(some[i]) {
      assert some[i] in some;
    }
  }

  /** Dropping leaves no retired right and every other one, in a list that reads back. */
  lemma DroppedReadsBack(r: Row, w: World)
    ensures SplitList(Dropped(r, w).rights) == NotRetired(SplitList(r.rights), w)
    ensures !HoldsRetired(SplitList(Dropped(r, w).rights), w)
  {
    var list := SplitList(r.rights);
    ReadListIsItems(r.rights);
    NotRetiredKeeps(list, w);
    if HoldsRetired(list, w) {
      NotRetiredInOrder(list, w);
      ItemsAmong(NotRetired(list, w), list);
      JoinedListReadsBack(NotRetired(list, w));
    } else {
      NothingRetired(list, w);
    }
    forall i | 0 <= i < |NotRetired(list, w)| ensures NotRetired(list, w)[i] !in w.retiredRights {
      assert NotRetired(list, w)[i] in NotRetired(list, w);
    }
  }

  lemma {:induction false} NothingRetired(rights: seq<string>, w: World)
    requires !HoldsRetired(rights, w)
    ensures NotRetired(rights, w) == rights
  {
    if rights != [] {
      assert rights[0] !in w.retiredRights;
      assert forall i :: 0 <= i < |rights[1..]| ==> rights[1..][i] == rights[i + 1];
      NothingRetired(rights[1..], w);
    }
  }

  /** Right by right: what is left is what was there and is not retired. */
  lemma DroppedIff(r: Row, w: World, x: string)
    ensures x in SplitList(Dropped(r, w).rights) <==> x in SplitList(r.rights) && x !in w.retiredRights
    ensures (forall s :: s in SplitList(r.rights) ==> s !in w.retiredRights) ==> Dropped(r, w) == r
  {
    DroppedReadsBack(r, w);
    NotRetiredKeeps(SplitList(r.rights), w);
  }

  lemma DropTwiceIsDropOnce(r: Row, w: World)
    ensures Dropped(Dropped(r, w), w) == Dropped(r, w)
  {
    DroppedReadsBack(r, w);
  }
}
