/** Recurring work that has fallen due, skipping halted desks and saying so. */
module Cadence {
  import opened Wrappers
  import opened Text
  import opened Routing

  /** The newest posted deliverable of an analyst; a date that cannot be read counts as due. */
  datatype Posted = Never | Unreadable | On(day: int)

  function CadenceDays(word: string): Option<int> {
    if word == "daily" then Some(1)
    else if word == "weekly" then Some(7)
    else if word == "fortnightly" then Some(14)
    else if word == "monthly" then Some(30)
    else None
  }

  function UntilSpace(s: string): string {
    if s == "" || IsSpace(s[0]) then "" else [s[0]] + UntilSpace(s[1..])
  }

  function DropCommas(s: string): string {
    if s != "" && s[|s| - 1] == ',' then DropCommas(s[..|s| - 1]) else s
  }

  /** The first word of a cadence, its commas dropped; "" when there is none. */
  function FirstWord(cadence: string): string {
    DropCommas(UntilSpace(TrimLeft(cadence)))
  }

  /** The cadence is known and the last posting is older than it allows. */
  predicate IsDue(a: Analyst, start: int, posted: Posted) {
    FirstWord(a.cadence) != "on-request" && CadenceDays(FirstWord(a.cadence)).Some?
    && match posted
       case Never => true
       case Unreadable => true
       case On(day) => day < start - CadenceDays(FirstWord(a.cadence)).value
  }

  /** Nothing posted that day or later, as far as can be read. */
  predicate NothingSince(posted: Posted, day: int) {
    match posted case Never => true case Unreadable => true case On(d) => d < day
  }

  /** Work falls due a day, a week, a fortnight or thirty days after the last, and on no other word. */
  lemma DueIff(a: Analyst, start: int, posted: map<string, Posted>)
    ensures var word := FirstWord(a.cadence);
            IsDue(a, start, PostedBy(posted, a.name)) <==>
            && word in {"daily", "weekly", "fortnightly", "monthly"}
            && (a.name in posted ==>
                  && (word == "daily" ==> NothingSince(posted[a.name], start - 1))
                  && (word == "weekly" ==> NothingSince(posted[a.name], start - 7))
                  && (word == "fortnightly" ==> NothingSince(posted[a.name], start - 14))
                  && (word == "monthly" ==> NothingSince(posted[a.name], start - 30)))
  {
  }

  predicate Spaces(s: string) {
    forall i :: 0 <= i < |s| ==> IsSpace(s[i])
  }

  /** The word that counts is the first, whatever white space is before it and commas and further
      words are behind it. */
  lemma FirstWordReads(before: string, word: string, commas: string, rest: string)
    requires Spaces(before) && (rest == "" || IsSpace(rest[0]))
    requires word != "" && word[|word| - 1] != ',' && forall i :: 0 <= i < |word| ==> !IsSpace(word[i])
    requires forall i :: 0 <= i < |commas| ==> commas[i] == ','
    ensures FirstWord(before + (word + commas + rest)) == word
  {
    TrimsBefore(before, word + commas + rest);
    assert forall i :: 0 <= i < |word + commas| ==> !IsSpace((word + commas)[i]);
    StopsAtSpace(word + commas, rest);
    DropsCommas(word, commas);
  }

  lemma {:induction false} TrimsBefore(before: string, s: string)
    requires Spaces(before) && s != "" && !IsSpace(s[0])
    ensures TrimLeft(before + s) == s
  {
    if before == "" {
      assert before + s == s;
    } else {
      TrimsBefore(before[1..], s);
      assert (before + s)[1..] == before[1..] + s;
    }
  }

  lemma {:induction false} StopsAtSpace(s: string, rest: string)
    requires (forall i :: 0 <= i < |s| ==> !IsSpace(s[i])) && (rest == "" || IsSpace(rest[0]))
    ensures UntilSpace(s + rest) == s
  {
    if s == "" {
      assert s + rest == rest;
    } else {
      StopsAtSpace(s[1..], rest);
      assert (s + rest)[1..] == s[1..] + rest;
      assert s == [s[0]] + s[1..];
    }
  }

  lemma {:induction false} DropsCommas(word: string, commas: string)
    requires word != "" && word[|word| - 1] != ',' && forall i :: 0 <= i < |commas| ==> commas[i] == ','
    ensures DropCommas(word + commas) == word
  {
    if commas == "" {
      assert word + commas == word;
    } else {
      var n := |commas| - 1;
      DropsCommas(word, commas[..n]);
      assert (word + commas)[..|word + commas| - 1] == word + commas[..n];
    }
  }

  function PostedBy(posted: map<string, Posted>, name: string): Posted {
    if name in posted then posted[name] else Never
  }

  /** What the pass makes of one analyst. */
  function ItemFor(a: Analyst, halted: set<string>, start: int, spent: Spend,
                   posted: map<string, Posted>): seq<PlanItem> {
    if a.state != "active" || a.desk in halted || !IsDue(a, start, PostedBy(posted, a.name)) then []
    else if HeadroomOf(a, spent) <= 0 then [TO_SUPERVISOR]
    else [PlanItem(a.name, a.desk, a.perTask, "")]
  }

  function DueItems(roster: seq<Analyst>, n: nat, halted: set<string>, start: int, spent: Spend,
                    posted: map<string, Posted>)
    : seq<PlanItem>
    requires n <= |roster|
  {
    if n == 0 then []
    else DueItems(roster, n - 1, halted, start, spent, posted) + ItemFor(roster[n - 1], halted, start, spent, posted)
  }

  function Set(desks: seq<string>): set<string> {
    set d | d in desks
  }

  function Notes(n: nat): seq<PlanItem> {
    if n == 0 then [] else Notes(n - 1) + [TO_SUPERVISOR]
  }

  /** A note to the supervisor for each halted desk, then the due items in roster order; an
      unreadable start measures nothing. */
  method CadenceDue(roster: seq<Analyst>, halts: seq<string>, start: Option<int>, spent: Spend,
                    posted: map<string, Posted>)
    returns (items: seq<PlanItem>)
    ensures items == if start.None? then []
                     else Notes(|halts|) + DueItems(roster, |roster|, Set(halts), start.value, spent, posted)
  {
    if start.None? {
      return [];
    }
    var halted: set<string>;
    items, halted := NoteHalts(halts);
    ghost var notes := items;
    NothingBefore(notes);
    var i := 0;
    while i < |roster|
      invariant i <= |roster|
      invariant items == notes + DueItems(roster, i, halted, start.value, spent, posted)
    {
      var more := ItemsOf(roster[i], halted, start.value, spent, posted);
      Joined(notes, DueItems(roster, i, halted, start.value, spent, posted), more);
      items := items + more;
      i := i + 1;
    }
  }

  lemma NothingBefore(items: seq<PlanItem>)
    ensures items + [] == items
  {
  }

  lemma Joined(a: seq<PlanItem>, b: seq<PlanItem>, c: seq<PlanItem>)
    ensures a + b + c == a + (b + c)
  {
  }

  /** A note to the supervisor for each halted desk, and which desks they are. */
  method NoteHalts(halts: seq<string>) returns (items: seq<PlanItem>, halted: set<string>)
    ensures items == Notes(|halts|) && halted == Set(halts)
  {
    halted := {};
    items := [];
    var h := 0;
    while h < |halts|
      invariant h <= |halts| && items == Notes(h) && halted == Set(halts[..h])
    {
      OneMoreDesk(halts, h);
      halted := halted + {halts[h]};
      items := items + [TO_SUPERVISOR];
      h := h + 1;
    }
    assert halts[..h] == halts;
  }

  lemma OneMoreDesk(halts: seq<string>, h: nat)
    requires h < |halts|
    ensures Set(halts[..h + 1]) == Set(halts[..h]) + {halts[h]}
  {
    assert halts[..h + 1] == halts[..h] + [halts[h]];
  }

  method ItemsOf(a: Analyst, halted: set<string>, start: int, spent: Spend, posted: map<string, Posted>)
    returns (items: seq<PlanItem>)
    ensures items == ItemFor(a, halted, start, spent, posted)
  {
    if a.state != "active" || a.desk in halted {
      return [];
    }
    var word := FirstWord(a.cadence);
    if word == "on-request" || CadenceDays(word).None? {
      return [];
    }
    var last := PostedBy(posted, a.name);
    var due := last.Never?;
    if last.Unreadable? || (last.On? && last.day < start - CadenceDays(word).value) {
      due := true;
    }
    if !due {
      return [];
    }
    return [if HeadroomOf(a, spent) <= 0 then TO_SUPERVISOR else PlanItem(a.name, a.desk, a.perTask, "")];
  }

  /** Whoever the pass funds is active, due, has money left and sits on a desk that is not
      halted. */
  lemma {:induction false} NobodyFundedOnAHaltedDesk(roster: seq<Analyst>, n: nat, halted: set<string>, start: int,
                                                     spent: Spend, posted: map<string, Posted>, item: PlanItem)
    requires n <= |roster| && item in DueItems(roster, n, halted, start, spent, posted)
    ensures item == TO_SUPERVISOR || exists i :: 0 <= i < n && Funds(roster[i], halted, start, spent, posted, item)
  {
    if n > 0 && item !in DueItems(roster, n - 1, halted, start, spent, posted) {
      assert item in ItemFor(roster[n - 1], halted, start, spent, posted);
    } else if n > 0 {
      NobodyFundedOnAHaltedDesk(roster, n - 1, halted, start, spent, posted, item);
    }
  }

  predicate Funds(a: Analyst, halted: set<string>, start: int, spent: Spend, posted: map<string, Posted>,
                  item: PlanItem) {
    && item == PlanItem(a.name, a.desk, a.perTask, "")
    && a.state == "active" && a.desk !in halted && IsDue(a, start, PostedBy(posted, a.name)) && HeadroomOf(a, spent) > 0
  }

  /** And nobody who meets all of that is left out. */
  lemma {:induction false} EverybodyDueIsFunded(roster: seq<Analyst>, n: nat, halted: set<string>, start: int,
                                                spent: Spend, posted: map<string, Posted>, i: nat)
    requires i < n <= |roster|
    requires var a := roster[i];
             Funds(a, halted, start, spent, posted, PlanItem(a.name, a.desk, a.perTask, ""))
    ensures PlanItem(roster[i].name, roster[i].desk, roster[i].perTask, "")
            in DueItems(roster, n, halted, start, spent, posted)
  {
    if i < n - 1 {
      EverybodyDueIsFunded(roster, n - 1, halted, start, spent, posted, i);
    }
  }
}
