/**
 The store every import works on: the two raw ledgers, the charges derived from them and the
 attribution of the gateway's days.

 The imports change the tables in place, file by file, with a savepoint taken before each
 file.  Valid says what holds between imports, for every day and every connector: the call
 ledger is exactly the history of files read, the cloud rows are what the history of folders
 left, each cloud path holds one content, the charges of each connector are what its raw rows
 derive to, and every live service has its top agent.
 */
module Estate {
  import opened Arith
  import opened Wrappers
  import opened Tables
  import opened Text
  import opened Grouping
  import opened Charges
  import opened CallLedger
  import opened CallCharges
  import opened Books
  import CallHistory
  import CallIdentity
  import C = CloudLedger

  function CloudLedgerOf(spec: C.CloudSpec): Ledger {
    Ledger(spec.id, false)
  }

  /** A generated estate is not mixed with real money. */
  predicate HasGenerated(charges: ChargeTable) {
    exists key :: key in charges && key.provenance.None?
  }

  function WithoutGenerated(charges: ChargeTable): ChargeTable {
    map key | key in charges && key.provenance.Some? :: charges[key]
  }

  function Before(f: Export, n: nat): Export
    requires n <= |f.lines|
  {
    f.(lines := f.lines[..n])
  }

  lemma HoldsNext(f: Export, n: nat, id: RowId)
    requires n < |f.lines|
    ensures Holds(Before(f, n + 1), id) <==>
            Holds(Before(f, n), id) || (id == RowId(f.sha, n + 1) && f.lines[n].Accepted?)
  {
  }

  /** The table after n records of a file, looked at under one id. */
  lemma InsertNextAt(calls: Calls, f: Export, n: nat, id: RowId)
    requires n < |f.lines|
    ensures var now, next := Insert(calls, Before(f, n)), Insert(calls, Before(f, n + 1));
            if f.lines[n].Accepted? && id == RowId(f.sha, n + 1)
            then id in next && next[id] == Stored(f.lines[n].call, Some(f.door))
            else (id in next <==> id in now) && (id in next ==> next[id] == now[id])
  {
    HoldsNext(f, n, id);
  }

  lemma InsertNext(calls: Calls, f: Export, n: nat)
    requires n < |f.lines|
    ensures var now := Insert(calls, Before(f, n));
            Insert(calls, Before(f, n + 1)) ==
            if f.lines[n].Accepted? then now[RowId(f.sha, n + 1) := Stored(f.lines[n].call, Some(f.door))] else now
  {
    var now, next := Insert(calls, Before(f, n)), Insert(calls, Before(f, n + 1));
    var then_ := if f.lines[n].Accepted?
                 then now[RowId(f.sha, n + 1) := Stored(f.lines[n].call, Some(f.door))] else now;
    forall id
      ensures id in next <==> id in then_
      ensures id in next ==> next[id] == then_[id]
    {
      InsertNextAt(calls, f, n, id);
    }
  }

  /** Every live service of every day is attributed to its top agent, but for the days lost. */
  ghost predicate AttributedOff(table: AttributionTable, calls: Calls, lost: set<string>) {
    forall day :: day !in lost ==> LiveAttributed(table, calls, day)
  }

  /** A generated estate takes the whole attribution with it when it goes. */
  ghost function LostAfterWipe(charges: ChargeTable, calls: Calls, lost: set<string>): set<string> {
    if HasGenerated(charges) then CallDays(calls) else lost
  }

  lemma NothingAttributed(calls: Calls)
    ensures AttributedOff(map[], calls, CallDays(calls))
  {
    forall day | day !in CallDays(calls) ensures LiveAttributed(map[], calls, day) {
      NothingLiveWithoutCalls(calls, day);
    }
  }

  /** Deriving the touched days again is enough for all days but those lost before. */
  lemma AttributedAgain(before: AttributionTable, after: AttributionTable, was: Calls, now: Calls, touched: set<string>,
                        lost: set<string>)
    requires AttributedOff(before, was, lost) && SameOff(was, now, touched) && Reattributed(before, after, now, touched)
    ensures AttributedOff(after, now, lost - touched)
  {
    forall day | day !in lost - touched ensures LiveAttributed(after, now, day) {
      if day !in touched {
        UntouchedDayStaysAttributed(before, after, was, now, touched, day);
      }
    }
  }

  /** Every charge of the three connectors is the sum of its raw rows, column by column, and every
      service of a day is its top spender's. */
  ghost predicate Booked(charges: ChargeTable, attribution: AttributionTable, calls: Calls, cloud: C.CloudTable,
                         lost: set<string>) {
    && GatewayBooked(charges, calls)
    && CloudBooked(charges, cloud, "aws-data-exports", "aws")
    && CloudBooked(charges, cloud, "gcp-billing-export", "gcp")
    && forall day, team, provider :: day !in lost ==> TopSpenderNamed(attribution, calls, day, team, provider)
  }

  lemma ViewsAreBooked(charges: ChargeTable, attribution: AttributionTable, calls: Calls, cloud: C.CloudTable,
                       lost: set<string>)
    requires AllViews(charges, calls, cloud) && AttributedOff(attribution, calls, lost)
    ensures Booked(charges, attribution, calls, cloud, lost)
  {
    GatewayIsBooked(charges, calls);
    CloudIsBooked(charges, cloud, C.AWS);
    CloudIsBooked(charges, cloud, C.GCP);
    forall day, team, provider | day !in lost ensures TopSpenderNamed(attribution, calls, day, team, provider) {
      TopAgentIsNamed(attribution, calls, day, team, provider);
    }
  }

  /** A generated estate is gone, and what others charged is as it was. */
  ghost predicate OnlyOwnChargesMove(before: ChargeTable, after: ChargeTable, connector: string) {
    forall key: ChargeKey :: key.provenance != Some(connector) ==>
      && (key in after <==> key in before && key.provenance != None)
      && (key in after ==> after[key] == before[key])
  }

  lemma OthersAreKept(before: ChargeTable, after: ChargeTable, connector: string)
    requires Others(after, connector) == Others(WithoutGenerated(before), connector)
    ensures OnlyOwnChargesMove(before, after, connector)
  {
    forall key: ChargeKey | key.provenance != Some(connector)
      ensures key in after <==> key in before && key.provenance != None
      ensures key in after ==> after[key] == before[key]
    {
      assert key in after <==> key in Others(after, connector);
      assert key in after ==> after[key] == Others(after, connector)[key];
    }
  }

  class Store {
    var calls: Calls
    var cloud: C.CloudTable
    var charges: ChargeTable
    var attribution: AttributionTable
    /** Every export read so far, in the order it was read. */
    ghost var history: seq<Export>
    /** Every cloud folder imported so far, with its connector. */
    ghost var imports: seq<(string, seq<C.CloudFile>)>
    /** Days whose attribution went with a generated estate and was not derived since. */
    ghost var lost: set<string>

    ghost predicate Valid()
      reads this
    {
      && OneContent(history) && calls == Run(map[], history)
      && C.OneSetOfDays(imports) && cloud == C.AfterImports(imports)
      && C.OneHashPerPath(cloud)
      && AllViews(charges, calls, cloud)
      && AttributedOff(attribution, calls, lost)
    }

    constructor ()
      ensures Valid() && history == [] && imports == [] && lost == {}
      ensures calls == map[] && cloud == map[] && charges == map[] && attribution == map[]
    {
      calls, cloud, charges, attribution := map[], map[], map[], map[];
      history, imports, lost := [], [], {};
    }

    /** Reads one file, writing each accepted row as it is met; false when the file cannot be
        read to its end, with whatever was written until then still in the table. */
    method ReadFile(f: Export) returns (ok: bool)
      modifies this`calls
      ensures ok == f.complete
      ensures calls == Insert(old(calls), f)
    {
      assert Insert(calls, Before(f, 0)) == calls;
      var n := 0;
      while n < |f.lines|
        invariant n <= |f.lines|
        invariant calls == Insert(old(calls), Before(f, n))
      {
        InsertNext(old(calls), f, n);
        match f.lines[n] {
          case Passed =>
          case Accepted(c) =>
            calls := calls[RowId(f.sha, n + 1) := Stored(c, Some(f.door))];
        }
        n := n + 1;
      }
      assert Before(f, |f.lines|) == f;
      ok := f.complete;
    }

    /** The two DELETEs, and the days of the rows they removed. */
    method SupersedeFile(f: Export) returns (days: set<string>)
      modifies this`calls
      ensures calls == Supersede(old(calls), f)
      ensures days == SupersededDays(old(calls), f)
      ensures days == set id | id in old(calls) && id !in calls :: old(calls)[id].call.day
    {
      SupersededAreTheDeleted(calls, f);
      days := DisplacedByFileDays(calls, f);
      calls := WithoutOlder(calls, f);
      days := days + DisplacedInFileDays(calls, f);
      calls := WithoutOutdated(calls, f);
    }

    /** Clears and derives again the charges of the days given. */
    method DeriveCharges<K>(ledger: Ledger, entries: map<K, ChargeEntry>, touched: set<string>)
      requires forall k :: k in entries ==> entries[k].group.provenance == Some(ledger.provenance)
      modifies this`charges
      ensures charges == Rebuilt(old(charges), entries, ledger, touched)
    {
      RebuildNothing(charges, entries, ledger);
      var todo := touched;
      while todo != {}
        invariant todo <= touched
        invariant charges == Rebuilt(old(charges), entries, ledger, touched - todo)
      {
        var day :| day in todo;
        RebuildInSteps(old(charges), entries, ledger, touched - todo, {day});
        DeriveDay(ledger, entries, day);
        assert touched - todo + {day} == touched - (todo - {day});
        todo := todo - {day};
      }
      assert touched - todo == touched;
    }

    method DeriveDay<K>(ledger: Ledger, entries: map<K, ChargeEntry>, day: string)
      requires forall k :: k in entries ==> entries[k].group.provenance == Some(ledger.provenance)
      modifies this`charges
      ensures charges == Rebuilt(old(charges), entries, ledger, {day})
    {
      ghost var before := charges;
      charges := Cleared(charges, ledger.provenance, day);
      var sums := GroupBy(OfDay(entries, day));
      WriteGroups(ledger, sums);
      DayIsRebuilt(before, entries, sums, ledger, day);
    }

    /** Writes one charges row for each group, rounding its exact sum once. */
    method WriteGroups(ledger: Ledger, sums: map<ChargeKey, (int, int)>)
      modifies this`charges
      ensures charges == WithGroups(old(charges), sums, ledger, sums.Keys)
    {
      var todo := sums.Keys;
      ghost var written: set<ChargeKey> := {};
      while todo != {}
        invariant todo <= sums.Keys && written == sums.Keys - todo
        invariant charges == WithGroups(old(charges), sums, ledger, written)
      {
        var key :| key in todo;
        WithGroupsNext(old(charges), sums, ledger, written, key);
        if ledger.counted || sums[key].0 != 0 {
          charges := charges[key := Charge(Cents(sums[key].0), if ledger.counted then Some(sums[key].1) else None)];
        }
        written, todo := written + {key}, todo - {key};
      }
      assert written == sums.Keys;
    }

    /** Imports folders of gateway exports, each file with the door it is read through. */
    method ImportCalls(files: seq<Export>, replaceGenerated: bool) returns (refused: bool, ghost touched: set<string>)
      requires Valid() && OneContent(history + files)
      modifies this
      ensures Valid() && cloud == old(cloud) && imports == old(imports)
      ensures refused == (HasGenerated(old(charges)) && !replaceGenerated)
      ensures refused ==> calls == old(calls) && charges == old(charges) && attribution == old(attribution)
                          && history == old(history) && lost == old(lost)
      ensures !refused ==> history == old(history) + files && touched == RunDays(old(calls), files)
      ensures !refused ==> lost == LostAfterWipe(old(charges), old(calls), old(lost)) - touched
      ensures !refused ==>
        Others(charges, GATEWAY.provenance) == Others(WithoutGenerated(old(charges)), GATEWAY.provenance)
      ensures !refused ==> SameOff(old(calls), calls, touched)
      ensures refused <==> !replaceGenerated && exists key :: key in old(charges) && key.provenance == None
      ensures !refused ==>
        Reattributed(if HasGenerated(old(charges)) then map[] else old(attribution), attribution, calls, touched)
    {
      if HasGenerated(charges) && !replaceGenerated {
        return true, {};
      }
      refused := false;
      ghost var start := calls;
      WipeGenerated();
      var days := ReadFolders(files);
      touched := days;
      RunConcat(map[], history, files);
      history := history + files;
      DeriveDays(start, days);
    }

    /** Brings the charges and the attribution of the touched days up to date. */
    method DeriveDays(ghost start: Calls, days: set<string>)
      requires AllViews(charges, start, cloud) && AttributedOff(attribution, start, lost) && SameOff(start, calls, days)
      modifies this`charges, this`attribution, this`lost
      ensures AllViews(charges, calls, cloud) && AttributedOff(attribution, calls, lost) && lost == old(lost) - days
      ensures Others(charges, GATEWAY.provenance) == Others(old(charges), GATEWAY.provenance)
      ensures Reattributed(old(attribution), attribution, calls, days)
    {
      SameCallsSameEntries(start, calls, days);
      RebuildCharges(GATEWAY, ChargeEntries(start), ChargeEntries(calls), days);
      GatewayRebuilt(old(charges), charges, start, calls, cloud);
      DeriveAttribution(days);
      AttributedAgain(old(attribution), attribution, start, calls, days, lost);
      lost := lost - days;
    }

    /** The generated estate goes first, when there is one; no connector's charges with it. */
    method WipeGenerated()
      requires AllViews(charges, calls, cloud) && AttributedOff(attribution, calls, lost)
      modifies this`charges, this`attribution, this`lost
      ensures charges == WithoutGenerated(old(charges)) && AllViews(charges, calls, cloud)
      ensures attribution == if HasGenerated(old(charges)) then map[] else old(attribution)
      ensures lost == LostAfterWipe(old(charges), calls, old(lost)) && AttributedOff(attribution, calls, lost)
    {
      WipeKeepsViews(charges, calls, cloud);
      WipeLoses(charges, attribution, calls, lost);
      if HasGenerated(charges) {
        charges, attribution, lost := WithoutGenerated(charges), map[], CallDays(calls);
      }
    }

    /** Rebuilds the days on which a ledger moved, which brings its whole view up to date. */
    method RebuildCharges<K>(ledger: Ledger, ghost before: map<K, ChargeEntry>, entries: map<K, ChargeEntry>,
                             touched: set<string>)
      requires View(charges, before, ledger) && AgreeOff(before, entries, touched)
      requires forall k :: k in entries ==> entries[k].group.provenance == Some(ledger.provenance)
      modifies this`charges
      ensures View(charges, entries, ledger)
      ensures Others(charges, ledger.provenance) == Others(old(charges), ledger.provenance)
    {
      IncrementalEqualsRecomputed(charges, before, entries, ledger, touched);
      DeriveCharges(ledger, entries, touched);
    }

    /** Reads the files in order, each under a savepoint; the days on which rows moved. */
    method ReadFolders(files: seq<Export>) returns (touched: set<string>)
      requires calls == Run(map[], history) && OneContent(history + files)
      modifies this`calls
      ensures calls == Run(old(calls), files) && touched == RunDays(old(calls), files)
      ensures SameOff(old(calls), calls, touched)
    {
      touched := {};
      var i := 0;
      while i < |files|
        invariant i <= |files|
        invariant calls == Run(old(calls), files[..i]) && touched == RunDays(old(calls), files[..i])
        invariant SameOff(old(calls), calls, touched)
      {
        var f := files[i];
        ghost var read := calls;
        OneMoreRead(history, files, i);
        HistoryStoredAsRead(history + files[..i], f);
        StepTouches(read, f);
        SameOffTransitive(old(calls), read, Step(read, f), touched, StepDays(read, f));
        var savepoint := calls;
        var ok := ReadFile(f);
        if ok {
          var days := SupersedeFile(f);
          touched := touched + (Days(f) + days);
        } else {
          calls := savepoint;
        }
        i := i + 1;
      }
      assert files[..i] == files;
    }

    /** For each day given, the services live on it are attributed again to their top agents. */
    method DeriveAttribution(days: set<string>)
      modifies this`attribution
      ensures Reattributed(old(attribution), attribution, calls, days)
    {
      var todo := days;
      ghost var done: set<string> := {};
      while todo != {}
        invariant todo <= days && done == days - todo
        invariant Reattributed(old(attribution), attribution, calls, done)
      {
        var day :| day in todo;
        var leaders := PickLeaders(day);
        ReattributedNext(old(attribution), attribution, leaders, calls, done, day);
        attribution := Overwritten(attribution, leaders);
        done, todo := done + {day}, todo - {day};
      }
      assert done == days;
    }

    /** SELECT team, provider, agent, SUM(micros) ... and, of each team and provider, the row
        that sorts first by money descending, then agent. */
    method PickLeaders(day: string) returns (leaders: map<AttributionKey, AgentGroup>)
      ensures leaders.Keys == LiveKeys(calls, day)
      ensures forall key :: key in leaders ==> TopAgent(calls, day, key, leaders[key].agent)
    {
      var sums := GroupBy(AgentEntries(calls, day));
      leaders := LeadersOf(sums, day);
      LeadersAreTopAgents(leaders, sums, calls, day);
    }

    static method LeadersOf(sums: map<AgentGroup, (int, int)>, day: string)
      returns (leaders: map<AttributionKey, AgentGroup>)
      ensures Leaders(leaders, sums, sums.Keys, day)
    {
      leaders := map[];
      var todo := sums.Keys;
      ghost var seen: set<AgentGroup> := {};
      while todo != {}
        invariant todo <= sums.Keys && seen == sums.Keys - todo
        invariant Leaders(leaders, sums, seen, day)
      {
        var g :| g in todo;
        NextLeader(leaders, sums, seen, day, g);
        var key := KeyFor(g, day);
        if key !in leaders || Ahead(g.agent, sums[g].0, leaders[key].agent, sums[leaders[key]].0) {
          leaders := leaders[key := g];
        }
        seen, todo := seen + {g}, todo - {g};
      }
      assert seen == sums.Keys;
    }

    /** Reads one cloud file, row by row; false when it does not end well or when its absolute
        amounts pass what 64 bits hold. */
    method ReadCloudFile(connector: string, f: C.CloudFile) returns (ok: bool, abs: nat)
      modifies this`cloud
      ensures ok == (f.complete && C.AbsTotal(f.lines) <= MAX_INT64)
      ensures ok ==> abs == C.AbsTotal(f.lines) && cloud == C.Insert(connector, old(cloud), f)
    {
      assert C.Insert(connector, cloud, CloudBefore(f, 0)) == cloud;
      abs := 0;
      var n := 0;
      while n < |f.lines|
        invariant n <= |f.lines|
        invariant abs == C.AbsTotal(f.lines[..n]) <= MAX_INT64
        invariant cloud == C.Insert(connector, old(cloud), CloudBefore(f, n))
      {
        CloudInsertNext(connector, old(cloud), f, n);
        C.AbsTotalGrows(f.lines, n + 1);
        assert f.lines[..n + 1][..n] == f.lines[..n];
        match f.lines[n] {
          case Refused =>
          case Accepted(row) =>
            if abs > MAX_INT64 - Abs(row.micros) {
              return false, abs;
            }
            abs := abs + Abs(row.micros);
            cloud := cloud[C.CloudId(connector, f.sha, n + 1) := row.(path := f.path)];
        }
        n := n + 1;
      }
      assert CloudBefore(f, |f.lines|) == f && f.lines[..n] == f.lines;
      ok := f.complete;
    }

    /** Removes the rows other content left at this file's path; the days they were on. */
    method ClearStale(connector: string, f: C.CloudFile) returns (days: set<string>)
      modifies this`cloud
      ensures cloud == map id | id in old(cloud) && !C.Stale(connector, f, id, old(cloud)[id]) :: old(cloud)[id]
      ensures days == set id | id in old(cloud) && C.Stale(connector, f, id, old(cloud)[id]) :: old(cloud)[id].day
    {
      days := set id | id in cloud && C.Stale(connector, f, id, cloud[id]) :: cloud[id].day;
      cloud := map id | id in cloud && !C.Stale(connector, f, id, cloud[id]) :: cloud[id];
    }

    /** Imports one cloud connector's folder. */
    method ImportCloud(spec: C.CloudSpec, files: seq<C.CloudFile>, replaceGenerated: bool) returns (refused: bool)
      requires Valid() && (spec == C.AWS || spec == C.GCP)
      requires C.OneSetOfDays(imports + [(spec.id, files)])
      modifies this
      ensures Valid() && calls == old(calls) && history == old(history)
      ensures refused == (files == [] || (HasGenerated(old(charges)) && !replaceGenerated))
      ensures refused ==> cloud == old(cloud) && charges == old(charges) && attribution == old(attribution)
                          && imports == old(imports) && lost == old(lost)
      ensures !refused ==> imports == old(imports) + [(spec.id, files)]
      ensures !refused ==> cloud == C.Import(spec.id, old(cloud), files).rows
      ensures !refused ==> attribution == if HasGenerated(old(charges)) then map[] else old(attribution)
      ensures !refused ==> lost == LostAfterWipe(old(charges), calls, old(lost))
      ensures !refused ==> Others(charges, spec.id) == Others(WithoutGenerated(old(charges)), spec.id)
      ensures refused <==> files == []
                           || (!replaceGenerated && exists key :: key in old(charges) && key.provenance == None)
    {
      if files == [] || (HasGenerated(charges) && !replaceGenerated) {
        return true;
      }
      refused := false;
      ghost var start := cloud;
      WipeGenerated();
      var touched := ReadCloudFolder(spec, files);
      C.ReachableDaysAreFixed(imports, spec.id, files);
      DeriveCloudDays(spec, start, files, touched);
      C.ImportKeepsOneHash(spec.id, start, files);
      C.OneMoreImport(imports, spec.id, files);
      imports := imports + [(spec.id, files)];
    }

    /** Brings the connector's charges of the touched days up to date. */
    method DeriveCloudDays(spec: C.CloudSpec, ghost start: C.CloudTable, ghost files: seq<C.CloudFile>,
                           touched: set<string>)
      requires AllViews(charges, calls, start) && (spec == C.AWS || spec == C.GCP)
      requires C.OneFolderDays(files) && C.DaysFixed(spec.id, start, files)
      requires var p := C.Import(spec.id, start, files); cloud == p.rows && touched == p.days
      modifies this`charges
      ensures AllViews(charges, calls, cloud)
      ensures Others(charges, spec.id) == Others(old(charges), spec.id)
    {
      C.ImportTouches(spec, start, files);
      RebuildCharges(CloudLedgerOf(spec), C.Entries(spec, start), C.Entries(spec, cloud), touched);
      CloudRebuilt(old(charges), charges, calls, start, files, spec);
    }

    /** Reads the folder's files, each new content under a savepoint; the days touched. */
    method ReadCloudFolder(spec: C.CloudSpec, files: seq<C.CloudFile>) returns (touched: set<string>)
      modifies this`cloud
      ensures var p := C.Import(spec.id, old(cloud), files); cloud == p.rows && touched == p.days
    {
      var seen, total := {}, 0;
      touched := {};
      var i := 0;
      while i < |files|
        invariant i <= |files|
        invariant var p := C.Import(spec.id, old(cloud), files[..i]);
                  cloud == p.rows && seen == p.seen && total == p.abs && touched == p.days
      {
        var f := files[i];
        assert files[..i + 1][..i] == files[..i];
        if !f.skipped && f.sha !in seen {
          seen := seen + {f.sha};
          var savepoint := cloud;
          var ok, abs := ReadCloudFile(spec.id, f);
          if !ok {
            cloud := savepoint;
          } else {
            var stale := ClearStale(spec.id, f);
            if total > MAX_INT64 - abs {
              cloud := savepoint;
            } else {
              total := total + abs;
              touched := touched + C.Days(f) + stale;
            }
          }
        }
        i := i + 1;
      }
      assert files[..i] == files;
    }
  }

  /** Every store the imports reach, whatever they read and in whatever order: the books are the raw
      rows', and no call that some export carried has left the ledger. */
  lemma ReachableStoreIsBooked(s: Store)
    requires s.Valid()
    ensures Booked(s.charges, s.attribution, s.calls, s.cloud, s.lost)
    ensures CallIdentity.CallsKept(s.calls, s.history) && CallIdentity.OnlyLinesStored(s.calls, s.history)
  {
    ViewsAreBooked(s.charges, s.attribution, s.calls, s.cloud, s.lost);
    CallIdentity.NoCallLeavesTheLedger(s.history);
  }

  function CloudBefore(f: C.CloudFile, n: nat): C.CloudFile
    requires n <= |f.lines|
  {
    f.(lines := f.lines[..n])
  }

  lemma CloudHoldsNext(connector: string, f: C.CloudFile, n: nat, id: C.CloudId)
    requires n < |f.lines|
    ensures C.Holds(connector, CloudBefore(f, n + 1), id) <==>
            C.Holds(connector, CloudBefore(f, n), id)
            || (id == C.CloudId(connector, f.sha, n + 1) && f.lines[n].Accepted?)
  {
  }

  lemma CloudInsertNextAt(connector: string, rows: C.CloudTable, f: C.CloudFile, n: nat, id: C.CloudId)
    requires n < |f.lines|
    ensures var now := C.Insert(connector, rows, CloudBefore(f, n));
            var next := C.Insert(connector, rows, CloudBefore(f, n + 1));
            if f.lines[n].Accepted? && id == C.CloudId(connector, f.sha, n + 1)
            then id in next && next[id] == f.lines[n].row.(path := f.path)
            else (id in next <==> id in now) && (id in next ==> next[id] == now[id])
  {
    CloudHoldsNext(connector, f, n, id);
  }

  lemma CloudInsertNext(connector: string, rows: C.CloudTable, f: C.CloudFile, n: nat)
    requires n < |f.lines|
    ensures var now := C.Insert(connector, rows, CloudBefore(f, n));
            C.Insert(connector, rows, CloudBefore(f, n + 1)) ==
            if f.lines[n].Accepted?
            then now[C.CloudId(connector, f.sha, n + 1) := f.lines[n].row.(path := f.path)]
            else now
  {
    var now, next := C.Insert(connector, rows, CloudBefore(f, n)), C.Insert(connector, rows, CloudBefore(f, n + 1));
    var then_ := if f.lines[n].Accepted?
                 then now[C.CloudId(connector, f.sha, n + 1) := f.lines[n].row.(path := f.path)] else now;
    forall id
      ensures id in next <==> id in then_
      ensures id in next ==> next[id] == then_[id]
    {
      CloudInsertNextAt(connector, rows, f, n, id);
    }
  }

  lemma OtherEntriesStand(spec: C.CloudSpec, other: C.CloudSpec, rows: C.CloudTable, files: seq<C.CloudFile>)
    requires spec.id != other.id
    ensures C.Entries(other, C.Import(spec.id, rows, files).rows) == C.Entries(other, rows)
  {
    forall id: C.CloudId | id.connector != spec.id
      ensures var after := C.Import(spec.id, rows, files).rows;
              (id in after <==> id in rows) && (id in after ==> after[id] == rows[id])
    {
      C.OtherConnectorsStand(spec.id, rows, files, id);
    }
  }

  lemma OneMoreRead(h: seq<Export>, files: seq<Export>, i: nat)
    requires i < |files| && OneContent(h + files)
    ensures OneContent(h + files[..i] + [files[i]])
    ensures Run(map[], h + files[..i]) == Run(Run(map[], h), files[..i])
    ensures Run(Run(map[], h), files[..i + 1]) == Step(Run(Run(map[], h), files[..i]), files[i])
    ensures var start := Run(map[], h);
            RunDays(start, files[..i + 1]) == RunDays(start, files[..i]) + StepDays(Run(start, files[..i]), files[i])
  {
    RunConcat(map[], h, files[..i]);
    PartOfTheHistory(h, files, i);
    NextRead(Run(map[], h), files, i);
  }

  lemma NextRead(calls: Calls, files: seq<Export>, i: nat)
    requires i < |files|
    ensures Run(calls, files[..i + 1]) == Step(Run(calls, files[..i]), files[i])
    ensures RunDays(calls, files[..i + 1]) == RunDays(calls, files[..i]) + StepDays(Run(calls, files[..i]), files[i])
  {
    assert files[..i + 1][..i] == files[..i];
  }

  lemma PartOfTheHistory(h: seq<Export>, files: seq<Export>, i: nat)
    requires i < |files| && OneContent(h + files)
    ensures OneContent(h + files[..i] + [files[i]])
  {
    var all, part := h + files, h + files[..i] + [files[i]];
    assert forall j :: 0 <= j < |part| ==> part[j] == all[j];
  }

  /** What leaves a connector's own charges alone leaves its view. */
  lemma ViewStands<K>(before: ChargeTable, after: ChargeTable, entries: map<K, ChargeEntry>, ledger: Ledger)
    requires View(before, entries, ledger)
    requires after == WithoutGenerated(before)
             || exists rebuilt :: rebuilt != ledger.provenance && Others(after, rebuilt) == Others(before, rebuilt)
    ensures View(after, entries, ledger)
  {
    if after != WithoutGenerated(before) {
      var rebuilt :| rebuilt != ledger.provenance && Others(after, rebuilt) == Others(before, rebuilt);
      forall key: ChargeKey | key.provenance == Some(ledger.provenance)
        ensures key in after <==> key in before
        ensures key in after ==> after[key] == before[key]
      {
        assert key in after <==> key in Others(after, rebuilt);
        assert key in before <==> key in Others(before, rebuilt);
        assert key in after ==> after[key] == Others(after, rebuilt)[key];
        assert key in before ==> before[key] == Others(before, rebuilt)[key];
      }
    }
    assert Own(after, ledger.provenance) == Own(before, ledger.provenance);
  }

  /** Every connector's charges are what its own raw rows derive to. */
  ghost predicate AllViews(charges: ChargeTable, calls: Calls, cloud: C.CloudTable) {
    && View(charges, ChargeEntries(calls), GATEWAY)
    && View(charges, C.Entries(C.AWS, cloud), CloudLedgerOf(C.AWS))
    && View(charges, C.Entries(C.GCP, cloud), CloudLedgerOf(C.GCP))
  }

  lemma WipeLoses(charges: ChargeTable, attribution: AttributionTable, calls: Calls, lost: set<string>)
    requires AttributedOff(attribution, calls, lost)
    ensures AttributedOff(if HasGenerated(charges) then map[] else attribution, calls,
                          LostAfterWipe(charges, calls, lost))
    ensures !HasGenerated(charges) ==> WithoutGenerated(charges) == charges
  {
    NothingAttributed(calls);
    if !HasGenerated(charges) {
      forall key | key in charges ensures key.provenance.Some? {
      }
    }
  }

  lemma WipeKeepsViews(charges: ChargeTable, calls: Calls, cloud: C.CloudTable)
    requires AllViews(charges, calls, cloud)
    ensures AllViews(WithoutGenerated(charges), calls, cloud)
  {
    var after := WithoutGenerated(charges);
    ViewStands(charges, after, ChargeEntries(calls), GATEWAY);
    ViewStands(charges, after, C.Entries(C.AWS, cloud), CloudLedgerOf(C.AWS));
    ViewStands(charges, after, C.Entries(C.GCP, cloud), CloudLedgerOf(C.GCP));
  }

  lemma GatewayRebuilt(before: ChargeTable, after: ChargeTable, was: Calls, now: Calls, cloud: C.CloudTable)
    requires AllViews(before, was, cloud)
    requires View(after, ChargeEntries(now), GATEWAY)
    requires Others(after, GATEWAY.provenance) == Others(before, GATEWAY.provenance)
    ensures AllViews(after, now, cloud)
  {
    ViewStands(before, after, C.Entries(C.AWS, cloud), CloudLedgerOf(C.AWS));
    ViewStands(before, after, C.Entries(C.GCP, cloud), CloudLedgerOf(C.GCP));
  }

  lemma CloudRebuilt(before: ChargeTable, after: ChargeTable, calls: Calls, was: C.CloudTable,
                     files: seq<C.CloudFile>, spec: C.CloudSpec)
    requires AllViews(before, calls, was) && (spec == C.AWS || spec == C.GCP)
    requires View(after, C.Entries(spec, C.Import(spec.id, was, files).rows), CloudLedgerOf(spec))
    requires Others(after, spec.id) == Others(before, spec.id)
    ensures AllViews(after, calls, C.Import(spec.id, was, files).rows)
  {
    var other := if spec == C.AWS then C.GCP else C.AWS;
    OtherEntriesStand(spec, other, was, files);
    ViewStands(before, after, ChargeEntries(calls), GATEWAY);
    ViewStands(before, after, C.Entries(other, was), CloudLedgerOf(other));
  }

  function Cleared(charges: ChargeTable, provenance: string, day: string): ChargeTable {
    map key | key in charges && !InDays(key, provenance, {day}) :: charges[key]
  }

  /** The cleared table with the groups written so far. */
  ghost function WithGroups(cleared: ChargeTable, sums: map<ChargeKey, (int, int)>, ledger: Ledger,
                            written: set<ChargeKey>): ChargeTable
    requires written <= sums.Keys
  {
    map key | key in cleared.Keys + written
      && ((key in written && (ledger.counted || sums[key].0 != 0)) || key in cleared) ::
      if key in written && (ledger.counted || sums[key].0 != 0)
      then Charge(Cents(sums[key].0), if ledger.counted then Some(sums[key].1) else None)
      else cleared[key]
  }

  lemma WithGroupsNext(cleared: ChargeTable, sums: map<ChargeKey, (int, int)>, ledger: Ledger,
                       written: set<ChargeKey>, key: ChargeKey)
    requires written <= sums.Keys && key in sums
    ensures WithGroups(cleared, sums, ledger, written + {key}) ==
            var now := WithGroups(cleared, sums, ledger, written);
            if ledger.counted || sums[key].0 != 0
            then now[key := Charge(Cents(sums[key].0), if ledger.counted then Some(sums[key].1) else None)]
            else now
  {
  }

  lemma DayIsRebuilt<K>(before: ChargeTable, entries: map<K, ChargeEntry>,
                        sums: map<ChargeKey, (int, int)>, ledger: Ledger, day: string)
    requires forall k :: k in entries ==> entries[k].group.provenance == Some(ledger.provenance)
    requires Grouped(sums, OfDay(entries, day))
    ensures WithGroups(Cleared(before, ledger.provenance, day), sums, ledger, sums.Keys)
         == Rebuilt(before, entries, ledger, {day})
  {
    forall key: ChargeKey
      ensures var a, b := WithGroups(Cleared(before, ledger.provenance, day), sums, ledger, sums.Keys),
                          Rebuilt(before, entries, ledger, {day});
              (key in a <==> key in b) && (key in a ==> a[key] == b[key])
    {
      KeyIsRebuilt(before, entries, sums, ledger, day, key);
    }
  }

  lemma KeyIsRebuilt<K>(before: ChargeTable, entries: map<K, ChargeEntry>, sums: map<ChargeKey, (int, int)>,
                        ledger: Ledger, day: string, key: ChargeKey)
    requires forall k :: k in entries ==> entries[k].group.provenance == Some(ledger.provenance)
    requires Grouped(sums, OfDay(entries, day))
    ensures var a, b := WithGroups(Cleared(before, ledger.provenance, day), sums, ledger, sums.Keys),
                        Rebuilt(before, entries, ledger, {day});
            (key in a <==> key in b) && (key in a ==> a[key] == b[key])
  {
    if key.day == day {
      GroupsOfDay(entries, day, key);
    } else {
      assert key !in sums;
    }
  }

  /** Two states of the store whose ledger holds the same calls. */
  lemma SameCallsSameCharges(first: ChargeTable, second: ChargeTable, calls: Calls)
    requires View(first, ChargeEntries(calls), GATEWAY) && View(second, ChargeEntries(calls), GATEWAY)
    requires Others(second, GATEWAY.provenance) == Others(WithoutGenerated(first), GATEWAY.provenance)
    requires !HasGenerated(first)
    ensures second == first
  {
    assert WithoutGenerated(first) == first;
    OwnAndOthers(first, second, GATEWAY.provenance);
  }

  lemma OwnAndOthers(a: ChargeTable, b: ChargeTable, provenance: string)
    requires Own(a, provenance) == Own(b, provenance) && Others(a, provenance) == Others(b, provenance)
    ensures a == b
  {
    forall key ensures (key in a <==> key in b) && (key in a ==> a[key] == b[key]) {
      assert key in a <==> key in Own(a, provenance) || key in Others(a, provenance);
      assert key in b <==> key in Own(b, provenance) || key in Others(b, provenance);
    }
  }

  lemma NoneGenerated(before: ChargeTable, after: ChargeTable, provenance: string)
    requires Others(after, provenance) == Others(WithoutGenerated(before), provenance)
    ensures !HasGenerated(after)
  {
    forall key | key in after ensures key.provenance.Some? {
      assert key.provenance != Some(provenance) ==> key in Others(after, provenance);
    }
  }

  /** What an import of calls may move. */
  datatype CallState = CallState(calls: Calls, charges: ChargeTable, attribution: AttributionTable)

  /** Imports the same folders three times over.  The second import is the last that can move a
      row or a charge, the first is exactly when it leaves no call unsettled, and into a store no
      export was read into before it always is.  The attribution follows where no generated
      estate took it away. */
  method ReimportChangesNothing(s: Store, files: seq<Export>)
    returns (ghost once: CallState, ghost twice: CallState, ghost thrice: CallState)
    requires s.Valid() && OneContent(s.history + files)
    modifies s
    ensures s.Valid() && thrice == CallState(s.calls, s.charges, s.attribution)
    ensures thrice.calls == twice.calls && thrice.charges == twice.charges
    ensures once.calls == twice.calls <==>
            forall door, key ::
              !CallHistory.Unsettled(CallHistory.HolderFile(old(s.history), door, key), files, door, key)
    ensures once.calls == twice.calls ==> once.charges == twice.charges
    ensures old(s.history) == [] ==> once.calls == twice.calls
    ensures old(s.lost == {} && !HasGenerated(s.charges)) ==>
              thrice == twice && (once.calls == twice.calls ==> once == twice)
  {
    ghost var h, whole := s.history, s.lost == {} && !HasGenerated(s.charges);
    AgainOneContent(h, files);
    var _, first := s.ImportCalls(files, true);
    once := CallState(s.calls, s.charges, s.attribution);
    NoneGenerated(old(s.charges), s.charges, GATEWAY.provenance);
    var _, second := s.ImportCalls(files, true);
    twice := CallState(s.calls, s.charges, s.attribution);
    NoneGenerated(once.charges, s.charges, GATEWAY.provenance);
    var _, third := s.ImportCalls(files, true);
    thrice := CallState(s.calls, s.charges, s.attribution);
    CallHistory.SecondImportChangesNothingIff(h, files);
    CallHistory.ThirdImportChangesNothing(h, files);
    if once.calls == twice.calls {
      SameState(once, twice, second, whole);
    }
    SameState(twice, thrice, third, whole);
  }

  lemma AgainOneContent(h: seq<Export>, files: seq<Export>)
    requires OneContent(h + files)
    ensures OneContent(h + files + files) && OneContent(h + files + files + files)
  {
    CallHistory.OneContentAmong(h + files, h + files + files);
    CallHistory.OneContentAmong(h + files, h + files + files + files);
  }

  lemma SameState(a: CallState, b: CallState, touched: set<string>, whole: bool)
    requires a.calls == b.calls && !HasGenerated(a.charges)
    requires View(a.charges, ChargeEntries(a.calls), GATEWAY) && View(b.charges, ChargeEntries(b.calls), GATEWAY)
    requires Others(b.charges, GATEWAY.provenance) == Others(WithoutGenerated(a.charges), GATEWAY.provenance)
    requires whole ==> AttributedOff(a.attribution, a.calls, {})
    requires Reattributed(a.attribution, b.attribution, b.calls, touched)
    ensures a.charges == b.charges && (whole ==> a == b)
  {
    SameCallsSameCharges(a.charges, b.charges, a.calls);
    if whole {
      ReattributedAlready(a.attribution, b.attribution, a.calls, touched);
    }
  }

  /** Likewise for a cloud folder, whatever settings its rows were stored under before: imported
      again under the same settings it moves no row and no charge. */
  method CloudReimportChangesNothing(s: Store, spec: C.CloudSpec, files: seq<C.CloudFile>)
    returns (ghost once: (C.CloudTable, ChargeTable))
    requires s.Valid() && (spec == C.AWS || spec == C.GCP) && C.Folder(files)
    requires C.OneSetOfDays(s.imports + [(spec.id, files)])
    modifies s
    ensures s.Valid() && once == (s.cloud, s.charges)
  {
    C.ImportTwiceIsImportOnce(spec.id, s.cloud, files);
    C.SameDaysAgain(s.imports, (spec.id, files));
    var refused := s.ImportCloud(spec, files, true);
    once := (s.cloud, s.charges);
    if !refused {
      NoneGenerated(old(s.charges), s.charges, spec.id);
    }
    var _ := s.ImportCloud(spec, files, true);
    if !refused {
      assert WithoutGenerated(once.1) == once.1;
      OwnAndOthers(once.1, s.charges, spec.id);
    }
  }
}
