/**
 What the call ledger feeds: the daily charges and the attribution of a service's day to
 the agent that spent most on it.  Both leave out blocked calls and calls the gateway priced
 at a basis other than its book.
 */
module CallCharges {
  import opened Wrappers
  import opened Tables
  import opened Text
  import opened Grouping
  import opened Charges
  import opened CallLedger

  const GATEWAY := Ledger("tokenfuse-focus", true)

  /** Settled at a basis other than the gateway's price book: an estimate, not a bill. */
  predicate FallbackPriced(c: Call) {
    !c.blocked && c.priceBasis.Some? && c.priceBasis.value != ""
    && c.priceBasis.value != "book" && c.priceBasis.value != "known"
  }

  predicate Spend(c: Call) {
    !c.blocked && !FallbackPriced(c)
  }

  function Service(provider: string): string {
    provider + " API"
  }

  function ChargeGroup(c: Call): ChargeKey {
    ChargeKey(Some(GATEWAY.provenance), "ai", c.day, Service(c.provider), c.team, "Usage", c.model, c.invoice)
  }

  function ChargeEntries(calls: Calls): map<RowId, ChargeEntry> {
    map id | id in calls && Spend(calls[id].call) ::
      Entry(ChargeGroup(calls[id].call), calls[id].call.micros, calls[id].call.tokensIn + calls[id].call.tokensOut)
  }

  function Days(f: Export): set<string> {
    set n | 0 <= n < |f.lines| && f.lines[n].Accepted? :: f.lines[n].call.day
  }

  /** The days of the rows the two DELETEs of supersede remove. */
  function SupersededDays(written: Calls, f: Export): set<string> {
    DisplacedByFileDays(written, f) + DisplacedInFileDays(WithoutOlder(written, f), f)
  }

  function DisplacedByFileDays(calls: Calls, f: Export): set<string> {
    set id | id in calls && DisplacedByFile(calls, f, id) :: calls[id].call.day
  }

  function DisplacedInFileDays(calls: Calls, f: Export): set<string> {
    set id | id in calls && DisplacedInFile(calls, f, id) :: calls[id].call.day
  }

  function StepDays(calls: Calls, f: Export): set<string> {
    if f.complete then Days(f) + SupersededDays(Insert(calls, f), f) else {}
  }

  /** The days a series of reads reports. */
  function RunDays(calls: Calls, files: seq<Export>): set<string> {
    if files == [] then {}
    else
      var n := |files| - 1;
      RunDays(calls, files[..n]) + StepDays(Run(calls, files[..n]), files[n])
  }

  /** The days reported for the two DELETEs are those of the rows they delete, and no others. */
  lemma SupersededAreTheDeleted(t: Calls, f: Export)
    ensures SupersededDays(t, f) == set id | id in t && id !in Supersede(t, f) :: t[id].call.day
  {
    var u := WithoutOlder(t, f);
    forall id | id in t ensures id !in Supersede(t, f) <==>
      DisplacedByFile(t, f, id) || (id in u && DisplacedInFile(u, f, id))
    {
    }
  }

  ghost predicate StoredAsRead(calls: Calls, f: Export) {
    forall id :: id in calls && Holds(f, id) ==> calls[id].call == RowOf(f, id).call
  }

  /** Two ledgers that hold the same calls on every day outside days. */
  ghost predicate SameOff(a: Calls, b: Calls, days: set<string>) {
    && (forall id :: id in a && a[id].call.day !in days ==> id in b && b[id].call == a[id].call)
    && (forall id :: id in b && b[id].call.day !in days ==> id in a && a[id].call == b[id].call)
  }

  /** One file moves rows of the days it reports and of no other day. */
  lemma StepTouches(calls: Calls, f: Export)
    requires StoredAsRead(calls, f)
    ensures SameOff(calls, Step(calls, f), StepDays(calls, f))
  {
    if f.complete {
      InsertTouches(calls, f);
      SupersedeTouches(Insert(calls, f), f);
      SameOffTransitive(calls, Insert(calls, f), Supersede(Insert(calls, f), f), Days(f),
                        SupersededDays(Insert(calls, f), f));
    }
  }

  lemma SupersedeTouches(t: Calls, f: Export)
    ensures SameOff(t, Supersede(t, f), SupersededDays(t, f))
  {
    WithoutOlderTouches(t, f);
    WithoutOutdatedTouches(WithoutOlder(t, f), f);
    SameOffTransitive(t, WithoutOlder(t, f), Supersede(t, f), DisplacedByFileDays(t, f),
                      DisplacedInFileDays(WithoutOlder(t, f), f));
  }

  lemma InsertTouches(calls: Calls, f: Export)
    requires StoredAsRead(calls, f)
    ensures SameOff(calls, Insert(calls, f), Days(f))
  {
    forall id | Holds(f, id) ensures RowOf(f, id).call.day in Days(f) {
    }
  }

  lemma WithoutOlderTouches(calls: Calls, f: Export)
    ensures SameOff(calls, WithoutOlder(calls, f), DisplacedByFileDays(calls, f))
  {
  }

  lemma WithoutOutdatedTouches(calls: Calls, f: Export)
    ensures SameOff(calls, WithoutOutdated(calls, f), DisplacedInFileDays(calls, f))
  {
  }

  lemma SameOffTransitive(a: Calls, b: Calls, c: Calls, first: set<string>, second: set<string>)
    requires SameOff(a, b, first) && SameOff(b, c, second)
    ensures SameOff(a, c, first + second)
  {
  }

  lemma SameCallsSameEntries(a: Calls, b: Calls, days: set<string>)
    requires SameOff(a, b, days)
    ensures AgreeOff(ChargeEntries(a), ChargeEntries(b), days)
  {
  }

  /** What is stored under a file's hash is what the file holds. */
  lemma HistoryStoredAsRead(h: seq<Export>, f: Export)
    requires OneContent(h + [f])
    ensures StoredAsRead(Run(map[], h), f)
  {
    HistoryPrefix(h, f);
    LedgerIsExactlyTheHistory(h);
    forall id | id in Run(map[], h) && Holds(f, id)
      ensures Run(map[], h)[id].call == RowOf(f, id).call
    {
      assert AsHistory(Run(map[], h), h, id);
    }
  }

  // ---------------------------------------------------------------- attribution

  datatype AgentGroup = AgentGroup(team: string, provider: string, agent: string)

  datatype AttributionKey = AttributionKey(source: string, team: string, service: string, start: string, end: string)

  type AttributionTable = map<AttributionKey, string>

  function AgentEntries(calls: Calls, day: string): map<RowId, Entry<AgentGroup>> {
    map id | id in calls && calls[id].call.day == day && Spend(calls[id].call) ::
      Entry(AgentGroup(calls[id].call.team, calls[id].call.provider, calls[id].call.agent), calls[id].call.micros, 0)
  }

  function KeyFor(g: AgentGroup, day: string): AttributionKey {
    AttributionKey("ai", g.team, Service(g.provider), day, day)
  }

  function LiveKeys(calls: Calls, day: string): set<AttributionKey> {
    set g | g in Groups(AgentEntries(calls, day)) :: KeyFor(g, day)
  }

  /** The order the winner is picked by: most money first, then the agent's own name. */
  predicate Ahead(a: string, spentA: int, b: string, spentB: int) {
    spentA > spentB || (spentA == spentB && (a == b || LexLess(a, b)))
  }

  ghost function SpentBy(calls: Calls, day: string, g: AgentGroup): int {
    Sum(GroupMicros(AgentEntries(calls, day), g))
  }

  /** The agent with the largest exact share of a team's service on a day. */
  ghost predicate TopAgent(calls: Calls, day: string, key: AttributionKey, agent: string) {
    exists g :: g in Groups(AgentEntries(calls, day)) && KeyFor(g, day) == key && g.agent == agent
      && forall o :: o in Groups(AgentEntries(calls, day)) && KeyFor(o, day) == key ==>
           Ahead(agent, SpentBy(calls, day, g), o.agent, SpentBy(calls, day, o))
  }

  lemma OneTopAgent(calls: Calls, day: string, key: AttributionKey, a: string, b: string)
    requires TopAgent(calls, day, key, a) && TopAgent(calls, day, key, b)
    ensures a == b
  {
    var g :| g in Groups(AgentEntries(calls, day)) && KeyFor(g, day) == key && g.agent == a
      && forall o :: o in Groups(AgentEntries(calls, day)) && KeyFor(o, day) == key ==>
           Ahead(a, SpentBy(calls, day, g), o.agent, SpentBy(calls, day, o));
    var k :| k in Groups(AgentEntries(calls, day)) && KeyFor(k, day) == key && k.agent == b
      && forall o :: o in Groups(AgentEntries(calls, day)) && KeyFor(o, day) == key ==>
           Ahead(b, SpentBy(calls, day, k), o.agent, SpentBy(calls, day, o));
    if LexLess(a, b) {
      LexAsymmetric(a, b);
    }
  }

  lemma AheadTotal(a: string, spentA: int, b: string, spentB: int)
    ensures Ahead(a, spentA, b, spentB) || Ahead(b, spentB, a, spentA)
  {
    LexTotal(a, b);
  }

  lemma AheadTransitive(a: string, spentA: int, b: string, spentB: int, c: string, spentC: int)
    requires Ahead(a, spentA, b, spentB) && Ahead(b, spentB, c, spentC)
    ensures Ahead(a, spentA, c, spentC)
  {
    if spentA == spentC && a != b && b != c {
      LexTransitive(a, b, c);
    }
  }

  /** The leader of every team and service among the groups looked at so far. */
  ghost predicate Leaders(leaders: map<AttributionKey, AgentGroup>, sums: map<AgentGroup, (int, int)>,
                          seen: set<AgentGroup>, day: string)
    requires seen <= sums.Keys
  {
    && (forall g :: g in seen ==> KeyFor(g, day) in leaders)
    && (forall key :: key in leaders ==>
          && leaders[key] in seen && KeyFor(leaders[key], day) == key
          && forall o :: o in seen && KeyFor(o, day) == key ==>
               Ahead(leaders[key].agent, sums[leaders[key]].0, o.agent, sums[o].0))
  }

  lemma NextLeader(leaders: map<AttributionKey, AgentGroup>, sums: map<AgentGroup, (int, int)>,
                   seen: set<AgentGroup>, day: string, g: AgentGroup)
    requires seen <= sums.Keys && g in sums && Leaders(leaders, sums, seen, day)
    ensures var key := KeyFor(g, day);
            var take := key !in leaders
                        || Ahead(g.agent, sums[g].0, leaders[key].agent, sums[leaders[key]].0);
            Leaders(if take then leaders[key := g] else leaders, sums, seen + {g}, day)
  {
    var key := KeyFor(g, day);
    AheadTotal(g.agent, sums[g].0, g.agent, sums[g].0);
    if key in leaders {
      var l := leaders[key];
      AheadTotal(g.agent, sums[g].0, l.agent, sums[l].0);
      if Ahead(g.agent, sums[g].0, l.agent, sums[l].0) {
        forall o | o in seen && KeyFor(o, day) == key ensures Ahead(g.agent, sums[g].0, o.agent, sums[o].0) {
          AheadTransitive(g.agent, sums[g].0, l.agent, sums[l].0, o.agent, sums[o].0);
        }
      }
    }
  }

  lemma LeadersAreTopAgents(leaders: map<AttributionKey, AgentGroup>, sums: map<AgentGroup, (int, int)>,
                            calls: Calls, day: string)
    requires Grouped(sums, AgentEntries(calls, day)) && Leaders(leaders, sums, sums.Keys, day)
    ensures leaders.Keys == LiveKeys(calls, day)
    ensures forall key :: key in leaders ==> TopAgent(calls, day, key, leaders[key].agent)
  {
    var groups := Groups(AgentEntries(calls, day));
    assert sums.Keys == groups;
    forall key | key in leaders ensures TopAgent(calls, day, key, leaders[key].agent) {
      LeaderIsTopAgent(leaders, sums, calls, day, key);
    }
  }

  lemma LeaderIsTopAgent(leaders: map<AttributionKey, AgentGroup>, sums: map<AgentGroup, (int, int)>,
                         calls: Calls, day: string, key: AttributionKey)
    requires Grouped(sums, AgentEntries(calls, day)) && Leaders(leaders, sums, sums.Keys, day) && key in leaders
    ensures TopAgent(calls, day, key, leaders[key].agent)
  {
    var g := leaders[key];
    forall o | o in Groups(AgentEntries(calls, day)) && KeyFor(o, day) == key
      ensures Ahead(g.agent, SpentBy(calls, day, g), o.agent, SpentBy(calls, day, o))
    {
      assert o in sums;
    }
  }

  /** The leaders' rows replaced, every other row as it was. */
  function Overwritten(now: AttributionTable, leaders: map<AttributionKey, AgentGroup>): AttributionTable {
    map key | key in now.Keys + leaders.Keys :: if key in leaders then leaders[key].agent else now[key]
  }

  lemma DayReattributed(now: AttributionTable, leaders: map<AttributionKey, AgentGroup>, calls: Calls,
                        day: string, d: string)
    requires leaders.Keys == LiveKeys(calls, day)
    requires forall key :: key in leaders ==> TopAgent(calls, day, key, leaders[key].agent)
    requires d == day || LiveAttributed(now, calls, d)
    ensures LiveAttributed(Overwritten(now, leaders), calls, d)
  {
    if d != day {
      forall key | key in LiveKeys(calls, d) ensures key !in leaders {
      }
    }
  }

  /** One more day's live services replaced. */
  lemma ReattributedNext(before: AttributionTable, now: AttributionTable, leaders: map<AttributionKey, AgentGroup>,
                         calls: Calls, days: set<string>, day: string)
    requires Reattributed(before, now, calls, days)
    requires leaders.Keys == LiveKeys(calls, day)
    requires forall key :: key in leaders ==> TopAgent(calls, day, key, leaders[key].agent)
    ensures Reattributed(before, Overwritten(now, leaders), calls, days + {day})
  {
    forall d | d in days + {day} ensures LiveAttributed(Overwritten(now, leaders), calls, d) {
      DayReattributed(now, leaders, calls, day, d);
    }
    forall key | key in Overwritten(now, leaders)
      ensures key in before || exists d :: d in days + {day} && key in LiveKeys(calls, d)
    {
      if key in leaders {
        assert day in days + {day} && key in LiveKeys(calls, day);
      } else if key !in before {
        var d :| d in days && key in LiveKeys(calls, d);
        assert d in days + {day};
      }
    }
  }

  /** This day's attribution rows name exactly the live services, each with its top agent. */
  ghost predicate AttributedExactly(table: AttributionTable, calls: Calls, day: string) {
    && (forall key :: key in table && OfTheDay(key, day) ==> key in LiveKeys(calls, day))
    && LiveAttributed(table, calls, day)
  }

  predicate OfTheDay(key: AttributionKey, day: string) {
    key.source == "ai" && key.start == day && key.end == day
  }

  ghost predicate LiveAttributed(table: AttributionTable, calls: Calls, day: string) {
    forall key :: key in LiveKeys(calls, day) ==> key in table && TopAgent(calls, day, key, table[key])
  }

  /** What rebuilding days does to the table: live services of those days are replaced,
      every other row stands, those of services that are live no longer included. */
  ghost predicate Reattributed(before: AttributionTable, after: AttributionTable, calls: Calls, days: set<string>) {
    && (forall key :: key in after ==> key in before || exists d :: d in days && key in LiveKeys(calls, d))
    && (forall key :: key in before ==> key in after)
    && (forall key ::
          key in before && (forall d :: d in days ==> key !in LiveKeys(calls, d)) ==> after[key] == before[key])
    && (forall d :: d in days ==> LiveAttributed(after, calls, d))
  }

  /** A rebuilt day's attribution is exact if and only if no service attributed on it before
      has lost its last call since: such a row is never cleared. */
  lemma ExactIffNoServiceVanished(before: AttributionTable, after: AttributionTable, calls: Calls,
                                  days: set<string>, day: string)
    requires Reattributed(before, after, calls, days) && day in days
    ensures AttributedExactly(after, calls, day) <==>
            forall key :: key in before && OfTheDay(key, day) ==> key in LiveKeys(calls, day)
  {
    forall key, d | key in LiveKeys(calls, d) && OfTheDay(key, day) ensures key in LiveKeys(calls, day) {
    }
  }

  function CallDays(calls: Calls): set<string> {
    set id | id in calls :: calls[id].call.day
  }

  lemma NothingLiveWithoutCalls(calls: Calls, day: string)
    requires day !in CallDays(calls)
    ensures LiveKeys(calls, day) == {}
  {
    forall id | id in calls ensures calls[id].call.day in CallDays(calls) {
    }
    assert AgentEntries(calls, day) == map[];
  }

  lemma SameDaySameAgents(was: Calls, now: Calls, touched: set<string>, day: string)
    requires SameOff(was, now, touched) && day !in touched
    ensures AgentEntries(was, day) == AgentEntries(now, day)
  {
  }

  /** A day no row moved on keeps the attribution it had. */
  lemma UntouchedDayStaysAttributed(before: AttributionTable, after: AttributionTable, was: Calls, now: Calls,
                                    touched: set<string>, day: string)
    requires SameOff(was, now, touched) && day !in touched && Reattributed(before, after, now, touched)
    requires LiveAttributed(before, was, day)
    ensures LiveAttributed(after, now, day)
  {
    SameDaySameAgents(was, now, touched, day);
    forall key | key in LiveKeys(now, day) ensures key in after && TopAgent(now, day, key, after[key]) {
      assert key in LiveKeys(was, day);
      forall d | d in touched ensures key !in LiveKeys(now, d) {
      }
      assert TopAgent(was, day, key, before[key]);
      SameTopAgent(was, now, day, key, before[key]);
    }
  }

  lemma SameTopAgent(was: Calls, now: Calls, day: string, key: AttributionKey, agent: string)
    requires AgentEntries(was, day) == AgentEntries(now, day) && TopAgent(was, day, key, agent)
    ensures TopAgent(now, day, key, agent)
  {
    forall g ensures SpentBy(was, day, g) == SpentBy(now, day, g) {
    }
    var g :| g in Groups(AgentEntries(was, day)) && KeyFor(g, day) == key && g.agent == agent
      && forall o :: o in Groups(AgentEntries(was, day)) && KeyFor(o, day) == key ==>
           Ahead(agent, SpentBy(was, day, g), o.agent, SpentBy(was, day, o));
  }

  /** Where every live service already had its top agent, deriving again changes nothing. */
  lemma ReattributedAlready(before: AttributionTable, after: AttributionTable, calls: Calls, days: set<string>)
    requires Reattributed(before, after, calls, days)
    requires forall d :: d in days ==> LiveAttributed(before, calls, d)
    ensures after == before
  {
    forall key | key in after ensures key in before && after[key] == before[key] {
      if d :| d in days && key in LiveKeys(calls, d) {
        OneTopAgent(calls, d, key, before[key], after[key]);
      }
    }
  }

  /** Two complete exports of one call each, the same call, the second from no older a gateway. */
  ghost predicate Replaces(newer: Export, older: Export) {
    && older.complete && newer.complete && older.door == newer.door && older.sha != newer.sha
    && |older.lines| == 1 == |newer.lines| && older.lines[0].Accepted? && newer.lines[0].Accepted?
    && CallKey(older.lines[0].call) == CallKey(newer.lines[0].call)
    && WellFormed(older) && Generation(older) <= Generation(newer)
  }

  lemma OnlyRow(f: Export, id: RowId)
    requires |f.lines| == 1 && f.lines[0].Accepted?
    ensures Holds(f, id) <==> id == RowId(f.sha, 1)
  {
  }

  /** The ledger with the row of a one-call export and no other. */
  function OneRow(f: Export): Calls
    requires |f.lines| == 1 && f.lines[0].Accepted?
  {
    map[RowId(f.sha, 1) := Stored(f.lines[0].call, Some(f.door))]
  }

  lemma InsertedBeside(was: Calls, f: Export)
    requires |f.lines| == 1 && f.lines[0].Accepted?
    ensures Insert(was, f) == was[RowId(f.sha, 1) := Stored(f.lines[0].call, Some(f.door))]
  {
    forall id ensures Holds(f, id) <==> id == RowId(f.sha, 1) {
      OnlyRow(f, id);
    }
  }

  lemma AloneStays(f: Export)
    requires f.complete && |f.lines| == 1 && f.lines[0].Accepted?
    ensures Step(map[], f) == OneRow(f)
  {
    InsertedBeside(map[], f);
    var t := Insert(map[], f);
    assert t == OneRow(f);
    assert WithoutOlder(t, f) == t;
    assert WithoutOutdated(t, f) == t;
  }

  lemma NewerCopyReplaces(t: Calls, newer: Export, a: RowId, b: RowId)
    requires t.Keys == {a, b} && a.sha != newer.sha == b.sha && CallKey(t[a].call) == CallKey(t[b].call)
    requires RowGeneration(t[a]) <= Generation(newer) && DoorOf(t[a]) == newer.door
    ensures Supersede(t, newer) == map[b := t[b]]
  {
    assert StoredUnder(t, newer.sha, CallKey(t[a].call));
    var u := WithoutOlder(t, newer);
    assert u == map[b := t[b]];
    assert WithoutOutdated(u, newer) == u;
  }

  lemma SecondReplaces(older: Export, newer: Export)
    requires Replaces(newer, older)
    ensures Step(OneRow(older), newer) == OneRow(newer)
  {
    var a, b := RowId(older.sha, 1), RowId(newer.sha, 1);
    var t := OneRow(older)[b := Stored(newer.lines[0].call, Some(newer.door))];
    InsertedBeside(OneRow(older), newer);
    assert t.Keys == {a, b};
    NewerCopyReplaces(t, newer, a, b);
  }

  lemma RunsOfTheTwo(older: Export, newer: Export)
    requires Replaces(newer, older)
    ensures Run(map[], [older]) == OneRow(older) && Run(map[], [older, newer]) == OneRow(newer)
  {
    AloneStays(older);
    SecondReplaces(older, newer);
    OneRead(map[], older);
    TwoReads(map[], older, newer);
  }

  lemma OneRead(calls: Calls, f: Export)
    ensures Run(calls, [f]) == Step(calls, f)
  {
    assert [f][..0] == [];
  }

  lemma TwoReads(calls: Calls, f: Export, g: Export)
    ensures Run(calls, [f, g]) == Step(Run(calls, [f]), g)
  {
    assert [f, g][..1] == [f];
  }

  lemma LiveWithItsCall(calls: Calls, id: RowId)
    requires id in calls && Spend(calls[id].call)
    ensures var c := calls[id].call; KeyFor(AgentGroup(c.team, c.provider, c.agent), c.day) in LiveKeys(calls, c.day)
  {
    var c := calls[id].call;
    assert AgentEntries(calls, c.day)[id].group == AgentGroup(c.team, c.provider, c.agent);
  }

  lemma NotLiveOfAnotherTeam(calls: Calls, id: RowId, key: AttributionKey, day: string)
    requires calls.Keys == {id} && key.team != calls[id].call.team
    ensures key !in LiveKeys(calls, day)
  {
    forall o | o in Groups(AgentEntries(calls, day)) ensures o.team == calls[id].call.team {
    }
  }

  lemma TeamIsGone(older: Export, newer: Export, stale: AttributionKey)
    requires Replaces(newer, older) && Spend(older.lines[0].call)
    requires older.lines[0].call.team != newer.lines[0].call.team
    requires var c := older.lines[0].call; stale == KeyFor(AgentGroup(c.team, c.provider, c.agent), c.day)
    ensures stale in LiveKeys(OneRow(older), stale.start) && stale !in LiveKeys(OneRow(newer), stale.start)
  {
    LiveWithItsCall(OneRow(older), RowId(older.sha, 1));
    NotLiveOfAnotherTeam(OneRow(newer), RowId(newer.sha, 1), stale, stale.start);
  }

  /** A newer export files a call under another unit than the older one did.  The older row is
      displaced, its team has no call left that day, and the attribution row the first import
      wrote for the team outlives the second. */
  lemma MovedTeamStaysAttributed(older: Export, newer: Export, before: AttributionTable, after: AttributionTable)
    requires Replaces(newer, older) && Spend(older.lines[0].call)
    requires older.lines[0].call.team != newer.lines[0].call.team
    requires Reattributed(map[], before, Run(map[], [older]), RunDays(map[], [older]))
    requires Reattributed(before, after, Run(map[], [older, newer]), RunDays(Run(map[], [older]), [newer]))
    ensures !AttributedExactly(after, Run(map[], [older, newer]), older.lines[0].call.day)
  {
    var c := older.lines[0].call;
    var stale := KeyFor(AgentGroup(c.team, c.provider, c.agent), c.day);
    TeamIsGone(older, newer, stale);
    OnlyDay(older);
    RunsOfTheTwo(older, newer);
    StaleOutlives(before, after, OneRow(older), OneRow(newer), RunDays(map[], [older]),
                  RunDays(OneRow(older), [newer]), stale, c.day);
  }

  lemma StaleOutlives(before: AttributionTable, after: AttributionTable, was: Calls, now: Calls, first: set<string>,
                      second: set<string>, key: AttributionKey, day: string)
    requires Reattributed(map[], before, was, first) && Reattributed(before, after, now, second)
    requires day in first && key in LiveKeys(was, day) && key !in LiveKeys(now, day) && OfTheDay(key, day)
    ensures !AttributedExactly(after, now, day)
  {
    assert key in before && key in after;
  }

  lemma OnlyDay(f: Export)
    requires f.complete && |f.lines| == 1 && f.lines[0].Accepted?
    ensures f.lines[0].call.day in RunDays(map[], [f])
  {
    assert [f][..0] == [];
    assert f.lines[0].call.day in Days(f);
  }

  /** An export of generation 0 that knew no unit, and a newer one that files the call under
      a unit. */
  function UnitKnown(known: bool): Export {
    var keyId := if known then Some("") else None;
    Export(if known then "newer" else "older", DOOR_MAIN, Header(known, false, false, false),
           [Accepted(Call("2026-09-01T00:00:00Z", "2026-09-01", if known then "core" else "", "agent", "run", "OpenAI",
                          "model", 1, 1, 1, false, "", keyId, None, None, None))],
           true)
  }

  lemma VanishedServiceStaysAttributed(before: AttributionTable, after: AttributionTable)
    requires Reattributed(map[], before, Run(map[], [UnitKnown(false)]), RunDays(map[], [UnitKnown(false)]))
    requires Reattributed(before, after, Run(map[], [UnitKnown(false), UnitKnown(true)]),
                          RunDays(Run(map[], [UnitKnown(false)]), [UnitKnown(true)]))
    ensures !AttributedExactly(after, Run(map[], [UnitKnown(false), UnitKnown(true)]), "2026-09-01")
  {
    UnitKnownReplaces();
    MovedTeamStaysAttributed(UnitKnown(false), UnitKnown(true), before, after);
  }

  lemma UnitKnownReplaces()
    ensures Replaces(UnitKnown(true), UnitKnown(false))
    ensures Spend(UnitKnown(false).lines[0].call)
  {
    var a, b := UnitKnown(false).lines[0].call, UnitKnown(true).lines[0].call;
    assert CallKeyHead(a) == CallKeyHead(b);
  }
}
