/**
 Stopping a desk's crew and starting it again.

 A halt suspends every active analyst on the desk and remembers their names, joined by
 commas, on its own row; lifting it reactivates those and no others.
 */
module Halts {
  import opened Wrappers
  import opened Text
  import opened Sorting
  import opened Lists

  const ACTIVE: string := "active"
  const SUSPENDED: string := "suspended"

  predicate IsState(s: string) {
    s == ACTIVE || s == SUSPENDED || s == "restricted" || s == "probation" || s == "onboarding"
  }

  datatype Member = Member(name: string, desk: string, state: string, reason: string)

  datatype Halt = Halt(reason: string, started: int, appliedBy: string, owner: string, suspended: string)

  /** The roster by name, and the halted desks. */
  datatype Crew = Crew(roster: seq<Member>, halts: map<string, Halt>)

  datatype Error = NoDesk | NeedReason | NoSuchState | NoSuchAnalyst | NotHalted

  predicate ByName(roster: seq<Member>) {
    forall i, j :: 0 <= i < j < |roster| ==> LexLess(roster[i].name, roster[j].name)
  }

  predicate NamesOk(roster: seq<Member>) {
    forall i :: 0 <= i < |roster| ==> IsName(roster[i].name)
  }

  predicate WellFormed(c: Crew) {
    ByName(c.roster) && NamesOk(c.roster)
  }

  predicate OnRoster(roster: seq<Member>, name: string) {
    exists i :: 0 <= i < |roster| && roster[i].name == name
  }

  // ------------------------------------------------------------------ one state

  function WithState(roster: seq<Member>, name: string, state: string, reason: string): seq<Member> {
    seq(|roster|, i requires 0 <= i < |roster| =>
      if roster[i].name == name then roster[i].(state := state, reason := reason) else roster[i])
  }

  /** Taking an analyst off the rota needs a reason; putting one back clears it. */
  function SetState(roster: seq<Member>, name: string, state: string, reason: Note): Result<seq<Member>, Error> {
    if !IsState(state) then Err(NoSuchState)
    else if state != ACTIVE && !reason.given then Err(NeedReason)
    else if !OnRoster(roster, name) then Err(NoSuchAnalyst)
    else Ok(WithState(roster, name, state, if state == ACTIVE then "" else reason.text))
  }

  // ------------------------------------------------------------------ a desk halted

  predicate Working(m: Member, desk: string) {
    m.desk == desk && m.state == ACTIVE
  }

  function Halted(m: Member, desk: string, reason: string): Member {
    if Working(m, desk) then m.(state := SUSPENDED, reason := reason) else m
  }

  /** The roster when the first n of it have been gone through. */
  function HaltedUpTo(roster: seq<Member>, n: nat, desk: string, reason: string): seq<Member> {
    seq(|roster|, i requires 0 <= i < |roster| => if i < n then Halted(roster[i], desk, reason) else roster[i])
  }

  /** Who of the first n is at work on a desk. */
  function AtWork(roster: seq<Member>, n: nat, desk: string): seq<string>
    requires n <= |roster|
  {
    if n == 0 then []
    else if Working(roster[n - 1], desk) then AtWork(roster, n - 1, desk) + [roster[n - 1].name]
    else AtWork(roster, n - 1, desk)
  }

  function Applied(c: Crew, desk: string, reason: Note, today: int, who: string, owner: string): Crew {
    if desk == "" || !reason.given || desk in c.halts then c
    else
      Crew(HaltedUpTo(c.roster, |c.roster|, desk, reason.text),
           c.halts[desk := Halt(reason.text, today, who, owner, Join(AtWork(c.roster, |c.roster|, desk)))])
  }

  // ------------------------------------------------------------------ a desk released

  function Reactivated(roster: seq<Member>, names: seq<string>): seq<Member> {
    seq(|roster|, i requires 0 <= i < |roster| =>
      if roster[i].name in names then roster[i].(state := ACTIVE, reason := "") else roster[i])
  }

  /** The first of the names that is not on the roster, or their number. */
  function FirstMissing(roster: seq<Member>, names: seq<string>, n: nat): (k: nat)
    requires n <= |names|
    ensures n <= k <= |names| && (k < |names| ==> !OnRoster(roster, names[k]))
    ensures forall i :: n <= i < k ==> OnRoster(roster, names[i])
    decreases |names| - n
  {
    if n == |names| || !OnRoster(roster, names[n]) then n else FirstMissing(roster, names, n + 1)
  }

  function Lifted(c: Crew, desk: string, reason: Note): Crew {
    if !reason.given || desk !in c.halts then c
    else
      var names := SplitList(c.halts[desk].suspended);
      var k := FirstMissing(c.roster, names, 0);
      Crew(Reactivated(c.roster, names[..k]), if k == |names| then c.halts - {desk} else c.halts)
  }

  // ------------------------------------------------------------------ the lists are sound

  lemma {:induction false} AtWorkIsOrdered(roster: seq<Member>, n: nat, desk: string)
    requires n <= |roster| && ByName(roster) && NamesOk(roster)
    ensures Ascending(AtWork(roster, n, desk), LexLess) && AllNames(AtWork(roster, n, desk))
    ensures forall x :: x in AtWork(roster, n, desk) <==>
              exists i :: 0 <= i < n && roster[i].name == x && Working(roster[i], desk)
  {
    if n > 0 {
      AtWorkIsOrdered(roster, n - 1, desk);
      var s := AtWork(roster, n - 1, desk);
      forall i | 0 <= i < |s| ensures LexLess(s[i], roster[n - 1].name) {
        assert s[i] in s;
      }
    }
  }

  /** Everybody who was at work on the desk is suspended for the reason given, nobody else is moved,
      and nobody on the desk is at work. */
  ghost predicate DeskIsStopped(before: seq<Member>, after: seq<Member>, desk: string, reason: string) {
    && |after| == |before|
    && forall i :: 0 <= i < |before| ==>
         && (before[i].desk == desk && before[i].state == "active" ==>
               after[i] == Member(before[i].name, desk, "suspended", reason))
         && (before[i].desk != desk || before[i].state != "active" ==> after[i] == before[i])
         && (after[i].desk == desk ==> after[i].state != "active")
  }

  lemma HaltStopsTheDesk(c: Crew, desk: string, reason: Note, today: int, who: string, owner: string)
    requires desk != "" && reason.given && desk !in c.halts
    ensures var h := Applied(c, desk, reason, today, who, owner);
            && DeskIsStopped(c.roster, h.roster, desk, reason.text) && desk in h.halts && h.halts - {desk} == c.halts
            && h.halts[desk].(suspended := "") == Halt(reason.text, today, who, owner, "")
  {
    var h := Applied(c, desk, reason, today, who, owner);
    assert h.halts - {desk} == c.halts;
  }

  /** An analyst is put in one of five states, out of work only for a reason, or nothing changes; back
      at work no reason is kept. */
  lemma SetStateIff(roster: seq<Member>, name: string, state: string, reason: Note)
    ensures SetState(roster, name, state, reason).Ok? <==>
            && state in {"active", "suspended", "restricted", "probation", "onboarding"}
            && (state == "active" || reason.given) && exists m :: m in roster && m.name == name
    ensures SetState(roster, name, state, reason).Ok? ==>
              var now := SetState(roster, name, state, reason).value;
              |now| == |roster| && forall i :: 0 <= i < |roster| ==>
                now[i] == if roster[i].name == name
                          then Member(name, roster[i].desk, state, if state == "active" then "" else reason.text)
                          else roster[i]
  {
    if OnRoster(roster, name) {
      var i :| 0 <= i < |roster| && roster[i].name == name;
      assert roster[i] in roster;
    }
  }

  /** The names a fresh halt remembers are those who were at work, read back exactly. */
  lemma HaltRemembersWhoWorked(c: Crew, desk: string, reason: Note, today: int, who: string, owner: string)
    requires WellFormed(c) && desk != "" && reason.given && desk !in c.halts
    ensures var h := Applied(c, desk, reason, today, who, owner).halts[desk];
            SplitList(h.suspended) == AtWork(c.roster, |c.roster|, desk)
  {
    AtWorkIsOrdered(c.roster, |c.roster|, desk);
    NamesAreItems(AtWork(c.roster, |c.roster|, desk));
    AscendingIsInOrder(AtWork(c.roster, |c.roster|, desk));
    JoinedListReadsBack(AtWork(c.roster, |c.roster|, desk));
  }

  /** Halting a halted desk changes nothing, its start day and reason included. */
  lemma HaltTwiceIsHaltOnce(c: Crew, desk: string, reason: Note, today: int, who: string, owner: string,
                            again: Note, later: int, other: string, whose: string)
    requires desk in Applied(c, desk, reason, today, who, owner).halts
    ensures var once := Applied(c, desk, reason, today, who, owner);
            Applied(once, desk, again, later, other, whose) == once
  {
  }

  /** An active analyst carries no reason. */
  predicate Tidy(roster: seq<Member>) {
    forall i :: 0 <= i < |roster| && roster[i].state == ACTIVE ==> roster[i].reason == ""
  }

  /** Halting a desk and lifting the halt, nothing else happening between, gives everybody
      back the state they had, and the crew it was. */
  lemma ApplyThenLiftRestores(c: Crew, desk: string, reason: Note, today: int, who: string, owner: string, why: Note)
    requires WellFormed(c) && desk != "" && reason.given && why.given && desk !in c.halts
    ensures var back := Lifted(Applied(c, desk, reason, today, who, owner), desk, why);
            && back.halts == c.halts && |back.roster| == |c.roster|
            && (forall i :: 0 <= i < |c.roster| ==> back.roster[i].(reason := "") == c.roster[i].(reason := ""))
            && (Tidy(c.roster) ==> back == c)
  {
    var halted := Applied(c, desk, reason, today, who, owner);
    var names := AtWork(c.roster, |c.roster|, desk);
    HaltRemembersWhoWorked(c, desk, reason, today, who, owner);
    AtWorkIsOrdered(c.roster, |c.roster|, desk);
    AllStillThere(c, desk, reason.text);
    assert FirstMissing(halted.roster, names, 0) == |names|;
    assert names[..|names|] == names;
    RestoresEach(c, desk, reason.text, names);
    assert halted.halts - {desk} == c.halts;
  }

  lemma AllStillThere(c: Crew, desk: string, reason: string)
    requires WellFormed(c)
    ensures forall x :: x in AtWork(c.roster, |c.roster|, desk) ==>
              OnRoster(HaltedUpTo(c.roster, |c.roster|, desk, reason), x)
  {
    AtWorkIsOrdered(c.roster, |c.roster|, desk);
    forall x | x in AtWork(c.roster, |c.roster|, desk)
      ensures OnRoster(HaltedUpTo(c.roster, |c.roster|, desk, reason), x)
    {
      var i :| 0 <= i < |c.roster| && c.roster[i].name == x && Working(c.roster[i], desk);
      assert HaltedUpTo(c.roster, |c.roster|, desk, reason)[i].name == x;
    }
  }

  lemma RestoresEach(c: Crew, desk: string, reason: string, names: seq<string>)
    requires WellFormed(c) && names == AtWork(c.roster, |c.roster|, desk)
    ensures var back := Reactivated(HaltedUpTo(c.roster, |c.roster|, desk, reason), names);
            && (forall i :: 0 <= i < |c.roster| ==> back[i].(reason := "") == c.roster[i].(reason := ""))
            && (Tidy(c.roster) ==> back == c.roster)
  {
    AtWorkIsOrdered(c.roster, |c.roster|, desk);
    forall i | 0 <= i < |c.roster| ensures c.roster[i].name in names <==> Working(c.roster[i], desk) {
      if c.roster[i].name in names {
        var j :| 0 <= j < |c.roster| && c.roster[j].name == c.roster[i].name && Working(c.roster[j], desk);
        LexOrder(c.roster[i].name, c.roster[j].name, c.roster[i].name);
        assert i == j;
      }
    }
  }

  /** A lift that is reasoned succeeds exactly when everybody the halt suspended is still on
      the roster. */
  lemma LiftSucceedsIff(c: Crew, desk: string, why: Note)
    requires desk in c.halts && why.given
    ensures desk !in Lifted(c, desk, why).halts
            <==> forall x :: x in SplitList(c.halts[desk].suspended) ==> OnRoster(c.roster, x)
  {
    var names := SplitList(c.halts[desk].suspended);
    var k := FirstMissing(c.roster, names, 0);
    if k < |names| {
      assert names[k] in names;
    }
  }

  /** Removing somebody a halt suspended makes every lift of it fail: the halt stands, and
      stands through any number of further tries. */
  lemma LiftFailsWhileSomebodyIsGone(c: Crew, desk: string, why: Note, x: string)
    requires desk in c.halts && x in SplitList(c.halts[desk].suspended) && !OnRoster(c.roster, x)
    ensures Lifted(c, desk, why).halts == c.halts && !OnRoster(Lifted(c, desk, why).roster, x)
  {
    if why.given {
      LiftSucceedsIff(c, desk, why);
      var names := SplitList(c.halts[desk].suspended);
      var back := Reactivated(c.roster, names[..FirstMissing(c.roster, names, 0)]);
      assert forall i :: 0 <= i < |back| ==> back[i].name == c.roster[i].name;
    }
  }

  // ------------------------------------------------------------------ decided during a halt

  /** Whom a lift puts back to work. */
  function Released(c: Crew, desk: string): seq<string>
    requires desk in c.halts
  {
    var names := SplitList(c.halts[desk].suspended);
    names[..FirstMissing(c.roster, names, 0)]
  }

  /** A reasoned lift keeps the state and reason somebody has if and only if it does not put them
      back to work, or they are at work without a reason already. */
  lemma LiftKeepsADecisionIff(c: Crew, desk: string, why: Note, i: nat)
    requires desk in c.halts && why.given && i < |c.roster|
    ensures |Lifted(c, desk, why).roster| == |c.roster|
    ensures Lifted(c, desk, why).roster[i] == c.roster[i]
            <==> c.roster[i].name !in Released(c, desk) || (c.roster[i].state == ACTIVE && c.roster[i].reason == "")
  {
  }

  /** With everybody remembered still on the roster, a lift puts back whoever is remembered, in
      whatever state they are. */
  lemma LiftPutsBack(c: Crew, desk: string, why: Note, i: nat)
    requires desk in c.halts && why.given && i < |c.roster|
    requires forall x :: x in SplitList(c.halts[desk].suspended) ==> OnRoster(c.roster, x)
    requires c.roster[i].name in SplitList(c.halts[desk].suspended)
    ensures |Lifted(c, desk, why).roster| == |c.roster|
    ensures Lifted(c, desk, why).roster[i] == c.roster[i].(state := ACTIVE, reason := "")
  {
    var names := SplitList(c.halts[desk].suspended);
    var k := FirstMissing(c.roster, names, 0);
    assert names[..|names|] == names;
  }

  lemma SetKeepsTheNames(roster: seq<Member>, name: string, state: string, reason: string, x: string)
    requires OnRoster(roster, x)
    ensures OnRoster(WithState(roster, name, state, reason), x)
  {
    var j :| 0 <= j < |roster| && roster[j].name == x;
    assert WithState(roster, name, state, reason)[j].name == x;
  }

  lemma RememberedInAHalt(c: Crew, desk: string, halt: Note, today: int, who: string, owner: string, i: nat)
    requires WellFormed(c) && desk != "" && desk !in c.halts && halt.given
    requires i < |c.roster| && Working(c.roster[i], desk)
    ensures var halted := Applied(c, desk, halt, today, who, owner);
            var names := SplitList(halted.halts[desk].suspended);
            && |halted.roster| == |c.roster| && halted.roster[i].name == c.roster[i].name && c.roster[i].name in names
            && halted.roster[i].(state := "", reason := "") == c.roster[i].(state := "", reason := "")
            && forall x :: x in names ==> OnRoster(halted.roster, x)
  {
    HaltRemembersWhoWorked(c, desk, halt, today, who, owner);
    AtWorkIsOrdered(c.roster, |c.roster|, desk);
    AllStillThere(c, desk, halt.text);
  }

  /** Somebody at work when the desk was halted, and given another state with a reason while it
      was, is put back to work by the lift with the reason cleared. */
  lemma DecisionDuringAHaltIsLost(c: Crew, desk: string, halt: Note, today: int, who: string, owner: string, i: nat,
                                  state: string, decided: Note, lift: Note)
    requires WellFormed(c) && desk != "" && desk !in c.halts && halt.given && decided.given && lift.given
    requires i < |c.roster| && Working(c.roster[i], desk) && IsState(state) && state != ACTIVE
    ensures var halted := Applied(c, desk, halt, today, who, owner);
            var name := c.roster[i].name;
            var set_ := Crew(WithState(halted.roster, name, state, decided.text), halted.halts);
            && SetState(halted.roster, name, state, decided) == Ok(set_.roster)
            && |set_.roster| == |Lifted(set_, desk, lift).roster| == |c.roster|
            && set_.roster[i].state == state && set_.roster[i].reason == decided.text
            && Lifted(set_, desk, lift).roster[i] == c.roster[i].(state := ACTIVE, reason := "")
  {
    var halted := Applied(c, desk, halt, today, who, owner);
    var name := c.roster[i].name;
    var set_ := Crew(WithState(halted.roster, name, state, decided.text), halted.halts);
    RememberedInAHalt(c, desk, halt, today, who, owner, i);
    assert OnRoster(halted.roster, name);
    forall x | x in SplitList(set_.halts[desk].suspended) ensures OnRoster(set_.roster, x) {
      SetKeepsTheNames(halted.roster, name, state, decided.text, x);
    }
    LiftPutsBack(set_, desk, lift, i);
  }

  // ------------------------------------------------------------------ every run

  datatype Operation = Apply(desk: string, why: Note, today: int, who: string, owner: string)
                     | Lift(desk: string, why: Note)
                     | Set(name: string, state: string, why: Note)
                     | Hire(member: Member)
                     | Remove(name: string)

  function Inserted(roster: seq<Member>, m: Member): seq<Member> {
    if roster == [] || LexLess(m.name, roster[0].name) then [m] + roster else [roster[0]] + Inserted(roster[1..], m)
  }

  function Without(roster: seq<Member>, name: string): seq<Member> {
    if roster == [] then []
    else if roster[0].name == name then Without(roster[1..], name)
    else [roster[0]] + Without(roster[1..], name)
  }

  /** Removing takes a name off the roster and nobody else; hiring puts a proper name that is new on
      it and moves nobody. */
  lemma {:induction false} RemovedIff(roster: seq<Member>, name: string, m: Member)
    ensures m in Without(roster, name) <==> m in roster && m.name != name
  {
    if roster != [] {
      RemovedIff(roster[1..], name, m);
      assert roster == [roster[0]] + roster[1..];
    }
  }

  lemma {:induction false} InsertedIff(roster: seq<Member>, who: Member, m: Member)
    ensures m in Inserted(roster, who) <==> m in roster || m == who
  {
    if roster != [] && !LexLess(who.name, roster[0].name) {
      InsertedIff(roster[1..], who, m);
      assert roster == [roster[0]] + roster[1..];
    }
  }

  lemma RosterChanges(c: Crew, name: string, who: Member, m: Member)
    ensures Step(c, Remove(name)).halts == c.halts == Step(c, Hire(who)).halts
    ensures m in Step(c, Remove(name)).roster <==> m in c.roster && m.name != name
    ensures m in Step(c, Hire(who)).roster <==>
            m in c.roster || (m == who && IsName(who.name) && forall o :: o in c.roster ==> o.name != who.name)
  {
    RemovedIff(c.roster, name, m);
    InsertedIff(c.roster, who, m);
    if OnRoster(c.roster, who.name) {
      var i :| 0 <= i < |c.roster| && c.roster[i].name == who.name;
      assert c.roster[i] in c.roster;
    }
  }

  function Step(c: Crew, op: Operation): Crew {
    match op
    case Apply(desk, why, today, who, owner) => Applied(c, desk, why, today, who, owner)
    case Lift(desk, why) => Lifted(c, desk, why)
    case Set(name, state, why) =>
      (match SetState(c.roster, name, state, why) case Ok(r) => Crew(r, c.halts) case Err(_) => c)
    case Hire(m) => if IsName(m.name) && !OnRoster(c.roster, m.name) then Crew(Inserted(c.roster, m), c.halts) else c
    case Remove(name) => Crew(Without(c.roster, name), c.halts)
  }

  function After(c: Crew, ops: seq<Operation>, n: nat): Crew
    requires n <= |ops|
  {
    if n == 0 then c else Step(After(c, ops, n - 1), ops[n - 1])
  }

  lemma {:induction false} InsertedIsByName(roster: seq<Member>, m: Member)
    requires ByName(roster) && NamesOk(roster) && IsName(m.name) && !OnRoster(roster, m.name)
    ensures ByName(Inserted(roster, m)) && NamesOk(Inserted(roster, m))
    ensures forall k :: 0 <= k < |Inserted(roster, m)| ==>
              Inserted(roster, m)[k] == m || Inserted(roster, m)[k] in roster
  {
    if roster != [] {
      LexOrder(m.name, roster[0].name, m.name);
      if LexLess(m.name, roster[0].name) {
        forall i | 0 <= i < |roster| ensures LexLess(m.name, roster[i].name) {
          LexOrder(m.name, roster[0].name, roster[i].name);
        }
      } else {
        assert m.name != roster[0].name;
        assert forall i :: 0 <= i < |roster[1..]| ==> roster[1..][i] == roster[i + 1];
        InsertedIsByName(roster[1..], m);
        HeadStaysFirst(roster, m);
      }
    }
  }

  lemma HeadStaysFirst(roster: seq<Member>, m: Member)
    requires roster != [] && ByName(roster) && LexLess(roster[0].name, m.name) && IsName(roster[0].name)
    requires var rest := Inserted(roster[1..], m);
             ByName(rest) && NamesOk(rest) && forall k :: 0 <= k < |rest| ==> rest[k] == m || rest[k] in roster[1..]
    ensures var s := [roster[0]] + Inserted(roster[1..], m); ByName(s) && NamesOk(s)
  {
    var rest := Inserted(roster[1..], m);
    forall k | 0 <= k < |rest| ensures LexLess(roster[0].name, rest[k].name) {
      if rest[k] != m {
        var i :| 0 <= i < |roster[1..]| && roster[1..][i] == rest[k];
        assert roster[i + 1] == rest[k];
      }
    }
    Prepended(roster[0], rest);
  }

  lemma Prepended(first: Member, rest: seq<Member>)
    requires ByName(rest) && NamesOk(rest) && IsName(first.name)
    requires forall k :: 0 <= k < |rest| ==> LexLess(first.name, rest[k].name)
    ensures ByName([first] + rest) && NamesOk([first] + rest)
  {
  }

  lemma {:induction false} WithoutIsByName(roster: seq<Member>, name: string)
    requires ByName(roster) && NamesOk(roster)
    ensures ByName(Without(roster, name)) && NamesOk(Without(roster, name))
    ensures forall k :: 0 <= k < |Without(roster, name)| ==> Without(roster, name)[k] in roster
  {
    if roster != [] {
      var tail := roster[1..];
      assert forall i :: 0 <= i < |tail| ==> tail[i] == roster[i + 1];
      WithoutIsByName(tail, name);
      var rest := Without(tail, name);
      if roster[0].name != name {
        forall k | 0 <= k < |rest| ensures LexLess(roster[0].name, rest[k].name) {
          var i :| 0 <= i < |tail| && tail[i] == rest[k];
        }
        Prepended(roster[0], rest);
      }
      assert forall m :: m in tail ==> m in roster;
    }
  }

  lemma StepIsWellFormed(c: Crew, op: Operation)
    requires WellFormed(c)
    ensures WellFormed(Step(c, op))
  {
    match op
    case Hire(m) => if IsName(m.name) && !OnRoster(c.roster, m.name) { InsertedIsByName(c.roster, m); }
    case Remove(name) => WithoutIsByName(c.roster, name);
    case _ =>
  }

  lemma {:induction false} RunIsWellFormed(c: Crew, ops: seq<Operation>, n: nat)
    requires n <= |ops| && WellFormed(c)
    ensures WellFormed(After(c, ops, n))
  {
    if n > 0 {
      RunIsWellFormed(c, ops, n - 1);
      StepIsWellFormed(After(c, ops, n - 1), ops[n - 1]);
    }
  }

  /** When the halt a desk is under began. */
  function Began(c: Crew, ops: seq<Operation>, n: nat, desk: string): (m: nat)
    requires n <= |ops| && c.halts == map[] && desk in After(c, ops, n).halts
    ensures m < n
  {
    if desk in After(c, ops, n - 1).halts then Began(c, ops, n - 1, desk) else n - 1
  }

  /** A desk's halt began with an application to it when it was not halted, and has stood as
      written ever since. */
  lemma {:induction false} HaltStandsAsWritten(c: Crew, ops: seq<Operation>, n: nat, desk: string)
    requires n <= |ops| && c.halts == map[] && desk in After(c, ops, n).halts
    ensures var m := Began(c, ops, n, desk);
            && ops[m].Apply? && ops[m].desk == desk && ops[m].why.given && desk != "" && desk !in After(c, ops, m).halts
            && After(c, ops, n).halts[desk] == After(c, ops, m + 1).halts[desk]
  {
    OneMoreOperation(c, ops, n, desk);
    if desk in After(c, ops, n - 1).halts {
      HaltStandsAsWritten(c, ops, n - 1, desk);
    }
  }

  lemma OneMoreOperation(c: Crew, ops: seq<Operation>, n: nat, desk: string)
    requires n <= |ops| && c.halts == map[] && desk in After(c, ops, n).halts
    ensures n > 0
    ensures if desk in After(c, ops, n - 1).halts
            then After(c, ops, n).halts[desk] == After(c, ops, n - 1).halts[desk]
            else ops[n - 1].Apply? && ops[n - 1].desk == desk && ops[n - 1].why.given && desk != ""
  {
    HaltAfter(After(c, ops, n - 1), ops[n - 1], desk);
  }

  /** A desk is halted after an operation as it was before, or because the operation halted it. */
  lemma HaltAfter(c: Crew, op: Operation, desk: string)
    requires desk in Step(c, op).halts
    ensures if desk in c.halts then Step(c, op).halts[desk] == c.halts[desk]
            else op.Apply? && op.desk == desk && op.why.given && desk != ""
  {
  }

  /** Whoever a lift reactivates was on the desk and active when its halt was applied, and
      the halt's start day and reason are those of that application. */
  lemma ReactivatedWereActiveAtTheHalt(c: Crew, ops: seq<Operation>, n: nat, desk: string, x: string)
    requires n <= |ops| && WellFormed(c) && c.halts == map[] && desk in After(c, ops, n).halts
    requires x in SplitList(After(c, ops, n).halts[desk].suspended)
    ensures var m := Began(c, ops, n, desk);
            && (exists i :: 0 <= i < |After(c, ops, m).roster|
                  && After(c, ops, m).roster[i].name == x && Working(After(c, ops, m).roster[i], desk))
            && ops[m].Apply? && After(c, ops, n).halts[desk].started == ops[m].today
            && After(c, ops, n).halts[desk].reason == ops[m].why.text
  {
    var m := Began(c, ops, n, desk);
    HaltStandsAsWritten(c, ops, n, desk);
    RunIsWellFormed(c, ops, m);
    var then_ := After(c, ops, m);
    HaltRemembersWhoWorked(then_, desk, ops[m].why, ops[m].today, ops[m].who, ops[m].owner);
    AtWorkIsOrdered(then_.roster, |then_.roster|, desk);
  }

  // ------------------------------------------------------------------ the operations

  class Console {
    var roster: seq<Member>
    var halts: map<string, Halt>

    constructor (c: Crew)
      ensures Now() == c
    {
      roster, halts := c.roster, c.halts;
    }

    function Now(): Crew
      reads this
    {
      Crew(roster, halts)
    }

    /** Suspends every active analyst of the desk and records the halt with their names; a
        desk already halted is left alone.  The desk's name is trimmed here, and only here. */
    method ApplyHalt(typed: string, reason: string, today: int, who: string, owner: string)
      returns (suspended: seq<string>, already: bool, error: Option<Error>)
      requires WellFormed(Now())
      modifies this
      ensures Now() == Applied(old(Now()), TrimSpace(typed), NoteOf(reason), today, who, owner)
      ensures already <==> TrimSpace(typed) in old(halts) && TrimSpace(typed) != "" && NoteOf(reason).given
      ensures error.None? <==> TrimSpace(typed) != "" && NoteOf(reason).given
      ensures error.None? && !already ==> suspended == AtWork(old(roster), |old(roster)|, TrimSpace(typed))
      ensures error.None? && !already ==> DeskIsStopped(old(roster), roster, TrimSpace(typed), reason)
    {
      if TrimSpace(typed) != "" && NoteOf(reason).given && TrimSpace(typed) !in halts {
        HaltStopsTheDesk(Now(), TrimSpace(typed), NoteOf(reason), today, who, owner);
      }
      suspended, already, error := ApplyTrimmed(TrimSpace(typed), NoteOf(reason), today, who, owner);
    }

    method ApplyTrimmed(desk: string, reason: Note, today: int, who: string, owner: string)
      returns (suspended: seq<string>, already: bool, error: Option<Error>)
      requires WellFormed(Now())
      modifies this
      ensures Now() == Applied(old(Now()), desk, reason, today, who, owner)
      ensures already <==> desk in old(halts) && desk != "" && reason.given
      ensures error.None? <==> desk != "" && reason.given
      ensures error.None? && !already ==> suspended == AtWork(old(roster), |old(roster)|, desk)
    {
      suspended, already := [], false;
      if desk == "" {
        return suspended, already, Some(NoDesk);
      }
      if !reason.given {
        return suspended, already, Some(NeedReason);
      }
      if desk in halts {
        return suspended, true, None;
      }
      roster, suspended := SuspendAll(roster, desk, reason.text);
      halts := halts[desk := Halt(reason.text, today, who, owner, Join(suspended))];
      return suspended, false, None;
    }

    /** Reactivates whom the halt suspended, in order, and clears it; somebody gone from the
        roster stops it there with the halt standing. */
    method LiftHalt(desk: string, reason: Note) returns (reactivated: seq<string>, error: Option<Error>)
      modifies this
      ensures Now() == Lifted(old(Now()), desk, reason)
      ensures error.None? <==> reason.given && desk in old(halts) && desk !in halts
      ensures reactivated == if reason.given && desk in old(halts)
                             then var names := SplitList(old(halts)[desk].suspended);
                                  names[..FirstMissing(old(roster), names, 0)]
                             else []
      ensures |roster| == |old(roster)| && forall i :: 0 <= i < |roster| ==>
                roster[i] == if roster[i].name in reactivated
                             then Member(roster[i].name, old(roster)[i].desk, "active", "") else old(roster)[i]
      ensures error.None? ==> desk in old(halts) && halts == old(halts) - {desk}
                              && reactivated == SplitList(old(halts)[desk].suspended)
      ensures error.Some? ==> halts == old(halts)
    {
      reactivated := [];
      if !reason.given {
        return reactivated, Some(NeedReason);
      }
      if desk !in halts {
        return reactivated, Some(NotHalted);
      }
      var names := SplitList(halts[desk].suspended);
      var back, k := Reactivate(roster, names);
      roster := back;
      if k < |names| {
        return names[..k], Some(NoSuchAnalyst);
      }
      halts := halts - {desk};
      assert names[..k] == names;
      return names, None;
    }
  }

  /** Takes everybody at work on the desk off the rota, in roster order. */
  method SuspendAll(all: seq<Member>, desk: string, reason: string) returns (now: seq<Member>, suspended: seq<string>)
    requires ByName(all)
    ensures now == HaltedUpTo(all, |all|, desk, reason) && suspended == AtWork(all, |all|, desk)
  {
    now, suspended := all, [];
    var i := 0;
    while i < |all|
      invariant i <= |all| && now == HaltedUpTo(all, i, desk, reason) && suspended == AtWork(all, i, desk)
    {
      if all[i].desk == desk && all[i].state == ACTIVE {
        OneMoreHalted(all, i, desk, reason);
        now := WithState(now, all[i].name, SUSPENDED, reason);
        suspended := suspended + [all[i].name];
      }
      i := i + 1;
    }
  }

  /** Puts the named back on the rota one by one, up to the first who is not there. */
  method Reactivate(was: seq<Member>, names: seq<string>) returns (now: seq<Member>, k: nat)
    ensures k == FirstMissing(was, names, 0) && now == Reactivated(was, names[..k])
  {
    now, k := was, 0;
    NobodyBack(was, names);
    while k < |names|
      invariant k <= |names| && now == Reactivated(was, names[..k])
      invariant FirstMissing(was, names, 0) == FirstMissing(was, names, k)
    {
      SameNames(was, names[..k], names[k]);
      var r := Activate(now, names[k]);
      if r.None? {
        return;
      }
      OneMoreBack(was, names, k);
      now := r.value;
      k := k + 1;
    }
  }

  method Activate(roster: seq<Member>, name: string) returns (r: Option<seq<Member>>)
    ensures r == if OnRoster(roster, name) then Some(WithState(roster, name, ACTIVE, "")) else None
  {
    var s := SetState(roster, name, ACTIVE, Note("", false));
    r := if s.Ok? then Some(s.value) else None;
  }

  lemma OneMoreHalted(all: seq<Member>, i: nat, desk: string, reason: string)
    requires ByName(all) && i < |all| && Working(all[i], desk)
    ensures WithState(HaltedUpTo(all, i, desk, reason), all[i].name, SUSPENDED, reason)
            == HaltedUpTo(all, i + 1, desk, reason)
  {
    forall j | 0 <= j < |all| && j != i ensures all[j].name != all[i].name {
      LexOrder(all[i].name, all[j].name, all[i].name);
    }
  }

  lemma NobodyBack(roster: seq<Member>, names: seq<string>)
    ensures Reactivated(roster, names[..0]) == roster
  {
  }

  lemma SameNames(roster: seq<Member>, names: seq<string>, x: string)
    ensures OnRoster(Reactivated(roster, names), x) <==> OnRoster(roster, x)
  {
    forall i | 0 <= i < |roster| ensures Reactivated(roster, names)[i].name == roster[i].name {
    }
    if OnRoster(roster, x) {
      var i :| 0 <= i < |roster| && roster[i].name == x;
      assert Reactivated(roster, names)[i].name == x;
    }
  }

  lemma OneMoreBack(roster: seq<Member>, names: seq<string>, k: nat)
    requires k < |names|
    ensures WithState(Reactivated(roster, names[..k]), names[k], ACTIVE, "") == Reactivated(roster, names[..k + 1])
  {
    assert names[..k + 1] == names[..k] + [names[k]];
  }
}
