/**
 The passes of every start, one after another, and how soon they stop changing anything.

 Each pass by itself is done after one start.  Together they are not: a row whose rights were
 all retired is emptied by a later pass after the first has gone by it, and is filled on the
 next start.
 */
module Startup {
  import opened Wrappers
  import opened Text
  import opened Sorting
  import opened Lists
  import opened Mandate

  // ------------------------------------------------------------------ skills renamed

  function NewNames(skills: seq<string>, w: World): seq<string> {
    if skills == [] then []
    else [if skills[0] in w.newNames then w.newNames[skills[0]] else skills[0]] + NewNames(skills[1..], w)
  }

  predicate HoldsOldName(skills: seq<string>, w: World) {
    exists i :: 0 <= i < |skills| && skills[i] in w.newNames
  }

  function RenamedSkills(r: Row, w: World): seq<string> {
    SortTexts(NewNames(SplitList(r.skills), w))
  }

  /** The rights a renamed row has: what it had and what its skills now earn. */
  function MergedRights(r: Row, w: World): seq<string> {
    SortTexts(Once(SplitList(r.rights) + RightsFor(RenamedSkills(r, w), r.state, w)))
  }

  function Renamed(r: Row, w: World): Row {
    if HoldsOldName(SplitList(r.skills), w)
    then r.(skills := Join(RenamedSkills(r, w)), rights := Join(MergedRights(r, w)))
    else r
  }

  /** The tables fit together: every right is a list item and not retired, a new name is a list
      item and not itself an old one, and a desk's owner is somebody. */
  ghost predicate Sound(w: World) {
    && FLOOR !in w.retiredRights
    && (forall s, i :: s in w.earns && 0 <= i < |w.earns[s]| ==>
          IsItem(w.earns[s][i]) && w.earns[s][i] !in w.retiredRights)
    && (forall s :: s in w.newNames ==> IsItem(w.newNames[s]) && w.newNames[s] !in w.newNames)
    && (forall d :: d in w.deskOwners ==> w.deskOwners[d] != "" && w.deskOwners[d] != "unclaimed")
  }

  lemma FloorIsItem()
    ensures IsItem(FLOOR)
  {
    assert forall i :: 0 <= i < |FLOOR| ==> NameChar(FLOOR[i]);
    NameTrims(FLOOR);
  }

  lemma {:induction false} OnceKeeps(items: seq<string>)
    ensures forall x :: x in Once(items) <==> x in items
  {
    if items != [] {
      OnceKeeps(items[1..]);
      assert items == [items[0]] + items[1..];
    }
  }

  lemma {:induction false} WithoutSpokenKeeps(rights: seq<string>)
    ensures forall x :: x in WithoutSpoken(rights) <==> x in rights && !Spoken(x)
  {
    if rights != [] {
      WithoutSpokenKeeps(rights[1..]);
    }
  }

  /** A right that may be granted: a list item nothing has retired. */
  predicate Grantable(right: string, w: World) {
    IsItem(right) && right !in w.retiredRights
  }

  lemma {:induction false} EarnedAreGrantable(skills: seq<string>, w: World)
    requires Sound(w)
    ensures forall x :: x in Earned(skills, w) ==> Grantable(x, w)
  {
    if skills != [] {
      EarnedAreGrantable(skills[1..], w);
    }
  }

  lemma SortedMembers(items: seq<string>)
    ensures forall x :: x in SortTexts(items) <==> x in items
  {
    SortKeeps(items);
    forall x ensures x in SortTexts(items) <==> x in items {
      assert x in SortTexts(items) <==> x in multiset(SortTexts(items));
      assert x in items <==> x in multiset(items);
    }
  }

  lemma {:induction false} EarnedIff(skills: seq<string>, w: World, x: string)
    ensures x in Earned(skills, w) <==> exists s :: s in skills && s in w.earns && x in w.earns[s]
  {
    if skills != [] {
      EarnedIff(skills[1..], w, x);
      assert skills == [skills[0]] + skills[1..];
    }
  }

  /** Which rights somebody has: none suspended, and otherwise the floor and what the skills earn,
      less, restricted, what speaks to others. */
  lemma RightsForIff(skills: seq<string>, state: string, w: World, x: string)
    ensures x in RightsFor(skills, state, w) <==>
            && state != "suspended"
            && (x == "figures-read" || exists s :: s in skills && s in w.earns && x in w.earns[s])
            && !(state == "restricted" && x in {"channel-post", "publish-explainer", "export-data"})
  {
    if state != SUSPENDED {
      var all := [FLOOR] + Earned(skills, w);
      var kept := if state == RESTRICTED then WithoutSpoken(all) else all;
      EarnedIff(skills, w, x);
      WithoutSpokenKeeps(all);
      OnceKeeps(kept);
      SortedMembers(Once(kept));
    }
  }

  /** And each of them once. */
  lemma NoRightTwice(skills: seq<string>, state: string, w: World, x: string)
    ensures multiset(RightsFor(skills, state, w))[x] <= 1
  {
    if state != SUSPENDED {
      var all := [FLOOR] + Earned(skills, w);
      var kept := if state == RESTRICTED then WithoutSpoken(all) else all;
      OnceIsOnce(kept, x);
      SortKeeps(Once(kept));
    }
  }

  lemma {:induction false} OnceIsOnce(items: seq<string>, x: string)
    ensures multiset(Once(items))[x] <= 1
  {
    if items != [] {
      OnceIsOnce(items[1..], x);
      OnceKeeps(items[1..]);
    }
  }

  lemma {:induction false} NewNamesIff(skills: seq<string>, w: World, x: string)
    ensures x in NewNames(skills, w) <==>
            exists s :: s in skills && x == if s in w.newNames then w.newNames[s] else s
  {
    if skills != [] {
      NewNamesIff(skills[1..], w, x);
      assert skills == [skills[0]] + skills[1..];
    }
  }

  /** After renaming an analyst has each skill under its new name where it has one, and no other. */
  lemma RenamedSkillsIff(r: Row, w: World, x: string)
    ensures x in RenamedSkills(r, w) <==>
            exists s :: s in SplitList(r.skills) && x == if s in w.newNames then w.newNames[s] else s
  {
    NewNamesIff(SplitList(r.skills), w, x);
    SortedMembers(NewNames(SplitList(r.skills), w));
  }

  /** Rights are grantable, and anybody who is not suspended has at least the floor. */
  lemma RightsAreGrantable(skills: seq<string>, state: string, w: World)
    requires Sound(w)
    ensures forall x :: x in RightsFor(skills, state, w) ==> Grantable(x, w)
    ensures state != SUSPENDED ==> FLOOR in RightsFor(skills, state, w)
  {
    if state != SUSPENDED {
      var all := [FLOOR] + Earned(skills, w);
      var kept := if state == RESTRICTED then WithoutSpoken(all) else all;
      FloorIsItem();
      EarnedAreGrantable(skills, w);
      WithoutSpokenKeeps(all);
      assert FLOOR in all && !Spoken(FLOOR);
      OnceKeeps(kept);
      SortedMembers(Once(kept));
    }
  }

  lemma {:induction false} NewNamesAreItems(skills: seq<string>, w: World)
    requires Sound(w) && AllItems(skills)
    ensures AllItems(NewNames(skills, w)) && !HoldsOldName(NewNames(skills, w), w)
  {
    if skills != [] {
      assert forall i :: 0 <= i < |skills[1..]| ==> skills[1..][i] == skills[i + 1];
      NewNamesAreItems(skills[1..], w);
    }
  }

  /** Renaming leaves no old name, in a list that reads back. */
  lemma RenamedReadsBack(r: Row, w: World)
    requires Sound(w)
    ensures !HoldsOldName(SplitList(Renamed(r, w).skills), w)
    ensures HoldsOldName(SplitList(r.skills), w) ==> SplitList(Renamed(r, w).skills) == RenamedSkills(r, w)
  {
    if HoldsOldName(SplitList(r.skills), w) {
      var names := NewNames(SplitList(r.skills), w);
      ReadListIsItems(r.skills);
      NewNamesAreItems(SplitList(r.skills), w);
      SortKeeps(names);
      ItemsAsPermuted(names, SortTexts(names));
      JoinedListReadsBack(SortTexts(names));
      SortedMembers(names);
      forall i | 0 <= i < |SortTexts(names)| ensures SortTexts(names)[i] !in w.newNames {
        assert SortTexts(names)[i] in SortTexts(names);
      }
    }
  }

  /** Whatever the row held, it then has each of its skills under the new name where there is one,
      no other, and so no old name; a row without an old name is left alone. */
  lemma RenamedIff(r: Row, w: World, x: string)
    requires Sound(w)
    ensures x in SplitList(Renamed(r, w).skills) <==>
            exists s :: s in SplitList(r.skills) && x == if s in w.newNames then w.newNames[s] else s
    ensures x in SplitList(Renamed(r, w).skills) ==> x !in w.newNames
    ensures (forall s :: s in SplitList(r.skills) ==> s !in w.newNames) ==> Renamed(r, w) == r
  {
    var list := SplitList(r.skills);
    RenamedSkillsIff(r, w, x);
    RenamedReadsBack(r, w);
    if HoldsOldName(list, w) {
      var i :| 0 <= i < |list| && list[i] in w.newNames;
      assert list[i] in list;
    } else {
      forall s | s in list ensures s !in w.newNames {
        var i :| 0 <= i < |list| && list[i] == s;
      }
    }
  }

  lemma RenameTwiceIsRenameOnce(r: Row, w: World)
    requires Sound(w)
    ensures Renamed(Renamed(r, w), w) == Renamed(r, w)
  {
    RenamedReadsBack(r, w);
  }

  /** Renaming only adds rights: none is lost, and what is added the renamed skills earn. */
  lemma RenamingOnlyAddsRights(r: Row, w: World)
    requires Sound(w)
    ensures forall x :: x in SplitList(r.rights) ==> x in SplitList(Renamed(r, w).rights)
    ensures HoldsOldName(SplitList(r.skills), w) ==>
              forall x :: x in SplitList(Renamed(r, w).rights)
                <==> x in SplitList(r.rights) || x in RightsFor(RenamedSkills(r, w), r.state, w)
  {
    if HoldsOldName(SplitList(r.skills), w) {
      MergedReadsBack(r, w);
      var all := SplitList(r.rights) + RightsFor(RenamedSkills(r, w), r.state, w);
      OnceKeeps(all);
      SortedMembers(Once(all));
    }
  }

  lemma MergedReadsBack(r: Row, w: World)
    requires Sound(w)
    ensures SplitList(Join(MergedRights(r, w))) == MergedRights(r, w)
  {
    var rights := RightsFor(RenamedSkills(r, w), r.state, w);
    var all := SplitList(r.rights) + rights;
    ReadListIsItems(r.rights);
    RightsAreGrantable(RenamedSkills(r, w), r.state, w);
    forall i | 0 <= i < |all| ensures IsItem(all[i]) {
      if i >= |SplitList(r.rights)| {
        assert all[i] in rights;
      }
    }
    OnceKeeps(all);
    ItemsAmong(Once(all), all);
    SortKeeps(Once(all));
    ItemsAsPermuted(Once(all), MergedRights(r, w));
    JoinedListReadsBack(MergedRights(r, w));
  }

  // ------------------------------------------------------------------ the owners' pass

  /** The account a roster is seeded under when nobody is named. */
  function SeededOwner(owner: string): string {
    if owner == "" then "unclaimed" else owner
  }

  /** An analyst still owned by the seeding account goes to the owner of the desk. */
  function Placed(r: Row, w: World, owner: string): Row {
    if r.owner == SeededOwner(owner) && r.desk in w.deskOwners then r.(owner := w.deskOwners[r.desk]) else r
  }

  /** Whoever owns an analyst keeps it if and only if that is not the seeding account, or the desk
      has no other owner: one deliberately given to that account is moved like the rest. */
  lemma PlacementStandsIff(r: Row, w: World, owner: string)
    ensures Placed(r, w, owner) == r
            <==> r.owner != SeededOwner(owner) || r.desk !in w.deskOwners || w.deskOwners[r.desk] == r.owner
    ensures SeededOwner(owner) == (if owner == "" then "unclaimed" else owner)
    ensures Placed(r, w, owner) != r ==> Placed(r, w, owner) == r.(owner := w.deskOwners[r.desk])
    ensures Placed(Placed(r, w, owner), w, owner) == Placed(r, w, owner)
  {
  }

  // ------------------------------------------------------------------ one start after another

  /** A row filled in and placed, before its lists are gone through. */
  function Seated(r: Row, w: World, owner: string, partners: set<string>): Row {
    Placed(Backfilled(r, w, owner, partners), w, owner)
  }

  /** What one start makes of a row. */
  function Started(r: Row, w: World, owner: string, partners: set<string>): Row {
    Renamed(Dropped(Seated(r, w, owner, partners), w), w)
  }

  /** Nothing in the row is left for the passes over its lists. */
  ghost predicate Current(r: Row, w: World) {
    !HoldsRetired(SplitList(r.rights), w) && !HoldsOldName(SplitList(r.skills), w)
  }

  lemma CurrentIsLeftAlone(r: Row, w: World)
    requires Current(r, w)
    ensures Dropped(r, w) == r && Renamed(r, w) == r
  {
  }

  lemma StartedIsCurrent(r: Row, w: World, owner: string, partners: set<string>)
    requires Sound(w)
    ensures Current(Started(r, w, owner, partners), w)
  {
    var s := Seated(r, w, owner, partners);
    var d := Dropped(s, w);
    DroppedReadsBack(s, w);
    RenamedReadsBack(d, w);
    RenamingOnlyAddsRights(d, w);
    if HoldsOldName(SplitList(d.skills), w) {
      RightsAreGrantable(RenamedSkills(d, w), d.state, w);
      var rights := SplitList(Renamed(d, w).rights);
      forall i | 0 <= i < |rights| ensures rights[i] !in w.retiredRights {
        assert rights[i] in rights;
        if rights[i] in SplitList(d.rights) {
          var k :| 0 <= k < |SplitList(d.rights)| && SplitList(d.rights)[k] == rights[i];
        }
      }
    }
  }

  /** The other columns are the first two passes' alone. */
  lemma OnlyListsMoveAfterwards(r: Row, w: World, owner: string, partners: set<string>)
    ensures var s, d := Seated(r, w, owner, partners), Started(r, w, owner, partners);
            d.(skills := s.skills, rights := s.rights) == s
  {
  }

  /** Neither of the first two passes has anything left to say about the owner. */
  predicate OwnerSettled(r: Row, w: World, owner: string) {
    Placed(r, w, owner) == r && OwnerFor(r, owner) == r.owner
  }

  lemma SeatedIsSettled(r: Row, w: World, owner: string, partners: set<string>)
    requires Sound(w)
    ensures OwnerSettled(Seated(r, w, owner, partners), w, owner)
    ensures OwnerSettled(Started(r, w, owner, partners), w, owner)
  {
    var s := Seated(r, w, owner, partners);
    PlacementStandsIff(Backfilled(r, w, owner, partners), w, owner);
    OnlyListsMoveAfterwards(r, w, owner, partners);
    assert OwnerFor(s, owner) == s.owner;
  }

  /** A row that comes out of a start with rights is done. */
  lemma DoneWithRights(r: Row, w: World, owner: string, partners: set<string>)
    requires Sound(w) && Started(r, w, owner, partners).rights != ""
    ensures var d := Started(r, w, owner, partners); Started(d, w, owner, partners) == d
  {
    var d := Started(r, w, owner, partners);
    OnlyListsMoveAfterwards(r, w, owner, partners);
    SeatedIsSettled(r, w, owner, partners);
    SeatedStands(r, d, w, owner, partners);
    StartedIsCurrent(r, w, owner, partners);
    CurrentIsLeftAlone(d, w);
  }

  lemma SeatedStands(r: Row, d: Row, w: World, owner: string, partners: set<string>)
    requires Sound(w) && d.rights != "" && OwnerSettled(d, w, owner)
    requires var s := Seated(r, w, owner, partners); d.(skills := s.skills, rights := s.rights) == s
    ensures Seated(d, w, owner, partners) == d
  {
    if !Complete(d, w) {
      assert Want(d, w, owner, partners) == d;
    }
  }

  /** A row that comes out of a start without rights is filled by the next. */
  lemma FilledNextTime(d: Row, w: World, owner: string, partners: set<string>)
    requires Sound(w) && Current(d, w) && d.rights == "" && OwnerSettled(d, w, owner)
    ensures Started(d, w, owner, partners) == Want(d, w, owner, partners)
    ensures Started(d, w, owner, partners).rights != "" <==> d.state != SUSPENDED
  {
    var rights := RightsFor(SplitList(d.skills), d.state, w);
    RightsAreGrantable(SplitList(d.skills), d.state, w);
    RightsReadBack(SplitList(d.skills), d.state, w);
    var next := Want(d, w, owner, partners);
    assert next.rights == Join(rights) && next.skills == d.skills;
    if rights != [] {
      JoinIsNotBlank(rights);
    }
    forall i | 0 <= i < |rights| ensures rights[i] !in w.retiredRights {
      assert rights[i] in rights;
    }
    assert Seated(d, w, owner, partners) == next;
    CurrentIsLeftAlone(next, w);
  }

  lemma RightsReadBack(skills: seq<string>, state: string, w: World)
    requires Sound(w)
    ensures var rights := RightsFor(skills, state, w); AllItems(rights) && SplitList(Join(rights)) == rights
  {
    var rights := RightsFor(skills, state, w);
    RightsAreGrantable(skills, state, w);
    forall i | 0 <= i < |rights| ensures IsItem(rights[i]) {
      assert rights[i] in rights;
    }
    if state != SUSPENDED {
      var all := [FLOOR] + Earned(skills, w);
      SortKeeps(Once(if state == RESTRICTED then WithoutSpoken(all) else all));
    }
    JoinedListReadsBack(rights);
  }

  /** However a row was left, the second start is the last to change it. */
  lemma SecondStartIsTheLast(r: Row, w: World, owner: string, partners: set<string>)
    requires Sound(w)
    ensures var twice := Started(Started(r, w, owner, partners), w, owner, partners);
            Started(twice, w, owner, partners) == twice
  {
    var once := Started(r, w, owner, partners);
    var twice := Started(once, w, owner, partners);
    StartedIsCurrent(r, w, owner, partners);
    StartedIsCurrent(once, w, owner, partners);
    SeatedIsSettled(r, w, owner, partners);
    SeatedIsSettled(once, w, owner, partners);
    if once.rights != "" {
      DoneWithRights(r, w, owner, partners);
    } else if twice.rights != "" {
      DoneWithRights(once, w, owner, partners);
    } else {
      FilledNextTime(once, w, owner, partners);
      FilledNextTime(twice, w, owner, partners);
      WantTwiceIsWantOnce(once, w, owner, partners);
    }
  }

  /** The rights are a list of retired ones and nothing else. */
  predicate OnlyRetired(rights: string, w: World) {
    SplitList(rights) != [] && forall x :: x in SplitList(rights) ==> x in w.retiredRights
  }

  predicate AllRetired(rights: string, w: World) {
    forall x :: x in SplitList(rights) ==> x in w.retiredRights
  }

  /** What of a row keeps the first start from being the last: it comes out without rights, and the
      next start fills them in or, of a suspended analyst, has a default word to overwrite. */
  predicate TakesTwoStarts(r: Row, w: World, partners: set<string>) {
    if r.state != SUSPENDED then OnlyRetired(r.rights, w) && !HoldsOldName(SplitList(r.skills), w)
    else
      && Complete(r, w) && AllRetired(r.rights, w)
      && (SplitList(r.rights) != [] || HoldsOldName(SplitList(r.skills), w))
      && (TakesParent(r, partners) || TakesCadence(r, w) || TakesAudience(r, w))
  }

  /** The first start is the last to change a row exactly when the row does not take two: for an
      analyst at work when the rights were not all retired, or a skill is renamed and earns some. */
  lemma FirstStartIsTheLastIff(r: Row, w: World, owner: string, partners: set<string>)
    requires Sound(w)
    ensures var once := Started(r, w, owner, partners);
            Started(once, w, owner, partners) == once <==> !TakesTwoStarts(r, w, partners)
  {
    var once := Started(r, w, owner, partners);
    StartedIsCurrent(r, w, owner, partners);
    SeatedIsSettled(r, w, owner, partners);
    if r.state != SUSPENDED {
      RightsAfterOneStart(r, w, owner, partners);
    } else {
      SuspendedWantsMore(r, w, owner, partners);
    }
    if once.rights != "" {
      DoneWithRights(r, w, owner, partners);
    } else {
      FilledNextTime(once, w, owner, partners);
    }
  }

  /** Of a suspended analyst left without rights the next start wants more exactly when the first
      had passed the row by. */
  lemma SuspendedWantsMore(r: Row, w: World, owner: string, partners: set<string>)
    requires Sound(w) && r.state == SUSPENDED
    ensures var once := Started(r, w, owner, partners);
            once.rights == "" && Want(once, w, owner, partners) != once <==> TakesTwoStarts(r, w, partners)
  {
    var once := Started(r, w, owner, partners);
    OnlyListsMoveAfterwards(r, w, owner, partners);
    SeatedIsSettled(r, w, owner, partners);
    if Complete(r, w) {
      SuspendedRightsAfterOneStart(r, w, owner, partners);
      if once.rights == "" {
        SuspendedRowWanted(r, once, w, owner, partners);
      }
    } else {
      SuspendedWantStands(r, once, w, owner, partners);
    }
  }

  lemma SuspendedRowWanted(r: Row, once: Row, w: World, owner: string, partners: set<string>)
    requires r.state == SUSPENDED && Complete(r, w) && once.rights == "" && OwnerFor(once, owner) == once.owner
    requires once.(skills := r.skills, rights := r.rights, owner := r.owner) == r
    ensures Want(once, w, owner, partners) == once
            <==> !(TakesParent(r, partners) || TakesCadence(r, w) || TakesAudience(r, w))
  {
    assert Want(once, w, owner, partners).rights == "";
  }

  lemma SuspendedWantStands(r: Row, once: Row, w: World, owner: string, partners: set<string>)
    requires r.state == SUSPENDED && OwnerFor(once, owner) == once.owner
    requires var b := Want(r, w, owner, partners); once.(skills := b.skills, rights := b.rights, owner := b.owner) == b
    ensures once.rights == "" ==> Want(once, w, owner, partners) == once
  {
  }

  lemma SuspendedRightsAfterOneStart(r: Row, w: World, owner: string, partners: set<string>)
    requires Sound(w) && r.state == SUSPENDED && Complete(r, w)
    ensures Started(r, w, owner, partners).rights == "" <==>
            AllRetired(r.rights, w) && (SplitList(r.rights) != [] || HoldsOldName(SplitList(r.skills), w))
  {
    var s := Placed(r, w, owner);
    var d := Dropped(s, w);
    RightsAfterDrop(s, w);
    if HoldsOldName(SplitList(d.skills), w) {
      SuspendedMerge(d, w);
      KeptIffNotAllRetired(s, w);
    }
  }

  lemma KeptIffNotAllRetired(r: Row, w: World)
    ensures SplitList(Dropped(r, w).rights) == [] <==> AllRetired(r.rights, w)
  {
    var list := SplitList(r.rights);
    DroppedReadsBack(r, w);
    NotRetiredKeeps(list, w);
    if NotRetired(list, w) != [] {
      assert NotRetired(list, w)[0] in NotRetired(list, w);
    }
  }

  /** A suspended analyst's renamed skills earn nothing, so no right is left only where none was. */
  lemma SuspendedMerge(d: Row, w: World)
    requires Sound(w) && d.state == SUSPENDED
    ensures Join(MergedRights(d, w)) == "" <==> SplitList(d.rights) == []
  {
    var all := SplitList(d.rights) + RightsFor(RenamedSkills(d, w), d.state, w);
    assert all == SplitList(d.rights);
    OnceKeeps(all);
    SortedMembers(Once(all));
    MergedReadsBack(d, w);
    assert Blank("");
    if all != [] {
      assert all[0] in MergedRights(d, w);
    }
  }

  /** An analyst holding just the one retired right takes two starts. */
  lemma RetiredRightTakesTwoStarts(r: Row, w: World, owner: string, partners: set<string>)
    requires Sound(w) && w.retiredRights == {"requests-read"}
    requires r.state == "active" && r.rights == "requests-read" && r.skills == ""
    ensures var once := Started(r, w, owner, partners); Started(once, w, owner, partners) != once
  {
    OneRetiredRight(w);
    assert SUSPENDED[0] == 's' && "active"[0] == 'a';
    FirstStartIsTheLastIff(r, w, owner, partners);
  }

  lemma OneRetiredRight(w: World)
    requires w.retiredRights == {"requests-read"}
    ensures OnlyRetired("requests-read", w) && !HoldsOldName(SplitList(""), w)
  {
    var right := "requests-read";
    assert forall i :: 0 <= i < |right| ==> NameChar(right[i]);
    NamesAreItems([right]);
    JoinedListReadsBack([right]);
    assert Blank("");
  }

  lemma RightsAfterOneStart(r: Row, w: World, owner: string, partners: set<string>)
    requires Sound(w) && r.state != SUSPENDED
    ensures Started(r, w, owner, partners).rights == ""
            <==> OnlyRetired(r.rights, w) && !HoldsOldName(SplitList(r.skills), w)
  {
    var s := Seated(r, w, owner, partners);
    var d := Dropped(s, w);
    RightsAfterBackfill(r, w, owner, partners);
    RightsAfterDrop(s, w);
    if HoldsOldName(SplitList(d.skills), w) {
      MergedHasTheFloor(d, w);
    }
  }

  lemma RightsAfterBackfill(r: Row, w: World, owner: string, partners: set<string>)
    requires Sound(w) && r.state != SUSPENDED
    ensures var b := Backfilled(r, w, owner, partners);
            && b.rights != "" && b.skills == r.skills && b.state == r.state
            && (OnlyRetired(b.rights, w) <==> OnlyRetired(r.rights, w))
  {
    var rights := RightsFor(SplitList(r.skills), r.state, w);
    RightsAreGrantable(SplitList(r.skills), r.state, w);
    RightsReadBack(SplitList(r.skills), r.state, w);
    JoinIsNotBlank(rights);
    assert Blank("");
  }

  lemma RightsAfterDrop(b: Row, w: World)
    requires b.rights != ""
    ensures Dropped(b, w).rights == "" <==> OnlyRetired(b.rights, w)
  {
    var list := SplitList(b.rights);
    var kept := NotRetired(list, w);
    NotRetiredKeeps(list, w);
    ReadListIsItems(b.rights);
    ItemsAmong(kept, list);
    if kept != [] {
      JoinIsNotBlank(kept);
      assert kept[0] in kept;
    } else {
      forall x | x in list ensures x in w.retiredRights {
        assert x !in kept;
      }
      if list != [] {
        assert list[0] in w.retiredRights;
      }
    }
  }

  lemma MergedHasTheFloor(d: Row, w: World)
    requires Sound(w) && d.state != SUSPENDED
    ensures Join(MergedRights(d, w)) != ""
  {
    var all := SplitList(d.rights) + RightsFor(RenamedSkills(d, w), d.state, w);
    RightsAreGrantable(RenamedSkills(d, w), d.state, w);
    assert FLOOR in all;
    OnceKeeps(all);
    SortedMembers(Once(all));
    MergedReadsBack(d, w);
    assert Blank("");
  }

  // ------------------------------------------------------------------ a pass over the table

  /** What a pass finds to write for a row, or none. */
  function DropOf(r: Row, w: World): Option<Row> {
    if HoldsRetired(SplitList(r.rights), w) then Some(Dropped(r, w)) else None
  }

  function RenameOf(r: Row, w: World): Option<Row> {
    if HoldsOldName(SplitList(r.skills), w) then Some(Renamed(r, w)) else None
  }

  function Drops(rows: seq<Row>, w: World): seq<Option<Row>> {
    if rows == [] then [] else Drops(rows[..|rows| - 1], w) + [DropOf(rows[|rows| - 1], w)]
  }

  function Renames(rows: seq<Row>, w: World): seq<Option<Row>> {
    if rows == [] then [] else Renames(rows[..|rows| - 1], w) + [RenameOf(rows[|rows| - 1], w)]
  }

  /** How many rows there are to write among the first n. */
  function Writes(changes: seq<Option<Row>>, n: nat): nat
    requires n <= |changes|
  {
    if n == 0 then 0 else Writes(changes, n - 1) + (if changes[n - 1].Some? then 1 else 0)
  }

  function RowAfter(row: Row, change: Option<Row>): Row {
    if change.Some? then change.value else row
  }

  /** The pass found each row's change, in the order of the rows. */
  lemma {:induction false} DropsOfEach(rows: seq<Row>, w: World, i: nat)
    requires i < |rows|
    ensures |Drops(rows, w)| == |rows| && Drops(rows, w)[i] == DropOf(rows[i], w)
    ensures RowAfter(rows[i], Drops(rows, w)[i]) == Dropped(rows[i], w)
  {
    if i < |rows| - 1 {
      DropsOfEach(rows[..|rows| - 1], w, i);
    } else if i > 0 {
      DropsOfEach(rows[..|rows| - 1], w, i - 1);
    }
  }

  lemma {:induction false} RenamesOfEach(rows: seq<Row>, w: World, i: nat)
    requires i < |rows|
    ensures |Renames(rows, w)| == |rows| && Renames(rows, w)[i] == RenameOf(rows[i], w)
    ensures RowAfter(rows[i], Renames(rows, w)[i]) == Renamed(rows[i], w)
  {
    if i < |rows| - 1 {
      RenamesOfEach(rows[..|rows| - 1], w, i);
    } else if i > 0 {
      RenamesOfEach(rows[..|rows| - 1], w, i - 1);
    }
  }

  /** The analysts table as the passes write it. */
  class Analysts {
    var rows: seq<Row>

    constructor (rows: seq<Row>)
      ensures this.rows == rows
    {
      this.rows := rows;
    }

    /** Fills in what an older seeding left blank, and counts the rows it changed. */
    method BackfillMandate(w: World, owner: string) returns (n: nat)
      modifies this
      ensures rows == Backfill(old(rows), w, owner)
      ensures n == Changed(old(rows), rows, |rows|)
    {
      var partners := Partners(rows);
      rows, n := FillAll(rows, w, owner, partners);
    }

    static method FillAll(all: seq<Row>, w: World, owner: string, partners: set<string>)
      returns (rows: seq<Row>, n: nat)
      ensures rows == EachBackfilled(all, w, owner, partners) && n == Changed(all, rows, |all|)
    {
      rows, n := [], 0;
      var i := 0;
      while i < |all|
        invariant i <= |all| && |rows| == i
        invariant rows == EachBackfilled(all[..i], w, owner, partners) && n == Changed(all, rows, i)
      {
        var next := FillRow(all[i], w, owner, partners);
        var row := if next.Some? then next.value else all[i];
        OneMoreBackfilled(all, i, w, owner, partners, row);
        OneMoreRow(all, rows, i, row);
        rows, n := rows + [row], n + (if next.Some? then 1 else 0);
        i := i + 1;
      }
      assert all[..i] == all;
    }

    /** The desks with a partner among the rows read. */
    static method Partners(rows: seq<Row>) returns (partners: set<string>)
      ensures partners == PartnersOf(rows, |rows|)
    {
      partners := {};
      var i := 0;
      while i < |rows|
        invariant i <= |rows| && partners == PartnersOf(rows, i)
      {
        if IsPartner(rows[i].name) {
          partners := partners + {rows[i].desk};
        }
        i := i + 1;
      }
    }

    /** The row the update writes, or none when writing would change nothing. */
    static method FillRow(r: Row, w: World, owner: string, partners: set<string>) returns (next: Option<Row>)
      ensures next == if Backfilled(r, w, owner, partners) == r then None else Some(Backfilled(r, w, owner, partners))
    {
      if Complete(r, w) {
        return None;
      }
      var rights := Join(RightsFor(SplitList(r.skills), r.state, w));
      var parent, hired, owned := ParentKept(r, partners), HiredFor(r, w), OwnerFor(r, owner);
      if Want(r, w, owner, partners) == r {
        return None;
      }
      StatementWritesWhatWasWanted(r, w, owner, partners);
      return Some(Updated(r, MissionFor(r, w), rights, CadenceFor(r, w), AudienceFor(r, w), parent, hired, owned));
    }

    /** Gives each desk's analysts who are still with the seeding account to the desk's owner. */
    method SeedOwners(w: World, owner: string)
      modifies this
      ensures |rows| == |old(rows)| && forall i :: 0 <= i < |rows| ==> rows[i] == Placed(old(rows)[i], w, owner)
    {
      var todo := w.deskOwners.Keys;
      while todo != {}
        invariant todo <= w.deskOwners.Keys && |rows| == |old(rows)|
        invariant forall i :: 0 <= i < |rows| ==>
                    rows[i] == if old(rows)[i].desk in todo then old(rows)[i] else Placed(old(rows)[i], w, owner)
      {
        var desk :| desk in todo;
        rows := PlaceDesk(rows, desk, w.deskOwners[desk], SeededOwner(owner));
        todo := todo - {desk};
      }
    }

    /** UPDATE analysts SET owner=? WHERE desk=? AND owner=? */
    static method PlaceDesk(all: seq<Row>, desk: string, to: string, from: string) returns (rows: seq<Row>)
      ensures |rows| == |all|
      ensures forall i :: 0 <= i < |all| ==>
                rows[i] == if all[i].desk == desk && all[i].owner == from then all[i].(owner := to) else all[i]
    {
      rows := seq(|all|, i requires 0 <= i < |all| =>
        if all[i].desk == desk && all[i].owner == from then all[i].(owner := to) else all[i]);
    }

    /** Removes the rights nothing stands behind any more, and counts the rows it removed one
        from. */
    method DropRetiredRights(w: World) returns (n: nat)
      modifies this
      ensures |rows| == |old(rows)| && forall i :: 0 <= i < |rows| ==> rows[i] == Dropped(old(rows)[i], w)
      ensures |Drops(old(rows), w)| == |rows| && n == Writes(Drops(old(rows), w), |rows|)
    {
      var changes := FindDrops(rows, w);
      forall i | 0 <= i < |rows| ensures RowAfter(rows[i], Drops(rows, w)[i]) == Dropped(rows[i], w) {
        DropsOfEach(rows, w, i);
      }
      rows, n := Write(rows, changes);
    }

    static method FindDrops(all: seq<Row>, w: World) returns (changes: seq<Option<Row>>)
      ensures changes == Drops(all, w) && |changes| == |all|
    {
      changes := [];
      var i := 0;
      while i < |all|
        invariant i <= |all| && changes == Drops(all[..i], w) && |changes| == i
      {
        assert all[..i + 1][..i] == all[..i];
        var change := DropRow(all[i], w);
        changes := changes + [change];
        i := i + 1;
      }
      assert all[..i] == all;
    }

    /** The row without its retired rights, or none when it holds none. */
    static method DropRow(r: Row, w: World) returns (next: Option<Row>)
      ensures next == DropOf(r, w)
    {
      var list := SplitList(r.rights);
      var kept := NotRetired(list, w);
      if !HoldsRetired(list, w) {
        return None;
      }
      return Some(r.(rights := Join(kept)));
    }

    /** Rewrites retired skill names and tops up the rights, and counts the rows it renamed. */
    method RenameRetiredSkills(w: World) returns (n: nat)
      modifies this
      ensures |rows| == |old(rows)| && forall i :: 0 <= i < |rows| ==> rows[i] == Renamed(old(rows)[i], w)
      ensures |Renames(old(rows), w)| == |rows| && n == Writes(Renames(old(rows), w), |rows|)
    {
      var changes := FindRenames(rows, w);
      forall i | 0 <= i < |rows| ensures RowAfter(rows[i], Renames(rows, w)[i]) == Renamed(rows[i], w) {
        RenamesOfEach(rows, w, i);
      }
      rows, n := Write(rows, changes);
    }

    static method FindRenames(all: seq<Row>, w: World) returns (changes: seq<Option<Row>>)
      ensures changes == Renames(all, w) && |changes| == |all|
    {
      changes := [];
      var i := 0;
      while i < |all|
        invariant i <= |all| && changes == Renames(all[..i], w) && |changes| == i
      {
        assert all[..i + 1][..i] == all[..i];
        var change := RenameRow(all[i], w);
        changes := changes + [change];
        i := i + 1;
      }
      assert all[..i] == all;
    }

    /** The row under its skills' new names, or none when it has no old one. */
    static method RenameRow(r: Row, w: World) returns (next: Option<Row>)
      ensures next == RenameOf(r, w)
    {
      if !HoldsOldName(SplitList(r.skills), w) {
        return None;
      }
      return Some(r.(skills := Join(RenamedSkills(r, w)), rights := Join(MergedRights(r, w))));
    }

    /** The changes written one by one, and how many there were. */
    static method Write(all: seq<Row>, changes: seq<Option<Row>>) returns (rows: seq<Row>, n: nat)
      requires |changes| == |all|
      ensures |rows| == |all| && forall i :: 0 <= i < |all| ==> rows[i] == RowAfter(all[i], changes[i])
      ensures n == Writes(changes, |changes|)
    {
      rows, n := all, 0;
      var i := 0;
      while i < |all|
        invariant i <= |all| == |rows| && n == Writes(changes, i)
        invariant forall j :: 0 <= j < |all| ==> rows[j] == if j < i then RowAfter(all[j], changes[j]) else all[j]
      {
        if changes[i].Some? {
          rows := rows[i := changes[i].value];
          n := n + 1;
        }
        i := i + 1;
      }
    }
  }
}
