/**
 What the books of a connector say of its raw rows, column by column.

 A charge is the exact sum of the rows with its columns, credits subtracted, rounded once to the
 nearest cent; a call that was blocked or priced off the book costs nothing; a service of a day
 belongs to whoever spent most on it.  Nothing here is stated through the way the charges are
 derived.
 */
module Books {
  import opened Arith
  import opened Wrappers
  import opened Tables
  import opened Text
  import opened Grouping
  import opened Charges
  import opened CallLedger
  import opened CallCharges
  import C = CloudLedger

  // ------------------------------------------------------------------ the clouds

  /** What each row with these columns bills; a credit is below zero. */
  ghost function CloudRows(rows: C.CloudTable, connector: string, day: string, service: string, team: string,
                           category: string, invoice: string): map<C.CloudId, int> {
    map id | id in rows && id.connector == connector && rows[id].day == day && rows[id].service == service
             && rows[id].team == team && rows[id].category == category && rows[id].invoice == invoice ::
      rows[id].micros
  }

  /** There is a charge for these columns exactly when their rows do not come to nothing, and it is
      their sum in cents. */
  ghost predicate CloudCharged(charges: ChargeTable, rows: C.CloudTable, connector: string, source: string, day: string,
                               service: string, team: string, category: string, invoice: string) {
    var key := ChargeKey(Some(connector), source, day, service, team, category, "", invoice);
    var billed := Sum(CloudRows(rows, connector, day, service, team, category, invoice));
    && (key in charges <==> billed != 0)
    && (key in charges ==> NearestAway(charges[key].cents, billed, 10_000) && charges[key].quantity == None)
  }

  ghost predicate CloudBooked(charges: ChargeTable, rows: C.CloudTable, connector: string, source: string) {
    && (forall key :: key in charges && key.provenance == Some(connector) ==> key.source == source && key.model == "")
    && (forall day, service, team, category, invoice ::
          CloudCharged(charges, rows, connector, source, day, service, team, category, invoice))
  }

  /** A view of a cloud's entries books its rows. */
  lemma CloudIsBooked(charges: ChargeTable, rows: C.CloudTable, spec: C.CloudSpec)
    requires View(charges, C.Entries(spec, rows), Ledger(spec.id, false))
    ensures CloudBooked(charges, rows, spec.id, spec.source)
  {
    var entries := C.Entries(spec, rows);
    forall key | key in charges && key.provenance == Some(spec.id)
      ensures key.source == spec.source && key.model == ""
    {
      InOwn(charges, key, spec.id);
      assert key in Groups(entries);
    }
    forall day, service, team, category, invoice
      ensures CloudCharged(charges, rows, spec.id, spec.source, day, service, team, category, invoice)
    {
      CloudChargeIsItsRows(charges, rows, spec, day, service, team, category, invoice);
    }
  }

  lemma InOwn(charges: ChargeTable, key: ChargeKey, provenance: string)
    requires key.provenance == Some(provenance)
    ensures key in charges <==> key in Own(charges, provenance)
    ensures key in charges ==> charges[key] == Own(charges, provenance)[key]
  {
  }

  lemma CloudChargeIsItsRows(charges: ChargeTable, rows: C.CloudTable, spec: C.CloudSpec, day: string, service: string,
                             team: string, category: string, invoice: string)
    requires View(charges, C.Entries(spec, rows), Ledger(spec.id, false))
    ensures CloudCharged(charges, rows, spec.id, spec.source, day, service, team, category, invoice)
  {
    var entries := C.Entries(spec, rows);
    var key := ChargeKey(Some(spec.id), spec.source, day, service, team, category, "", invoice);
    CloudGroup(rows, spec, day, service, team, category, invoice);
    InOwn(charges, key, spec.id);
    SomethingToSum(entries, key);
  }

  /** The group of a charge is the rows with its columns. */
  lemma CloudGroup(rows: C.CloudTable, spec: C.CloudSpec, day: string, service: string, team: string, category: string,
                   invoice: string)
    ensures var key := ChargeKey(Some(spec.id), spec.source, day, service, team, category, "", invoice);
            GroupMicros(C.Entries(spec, rows), key)
            == CloudRows(rows, spec.id, day, service, team, category, invoice)
  {
  }

  lemma SomethingToSum<K>(entries: map<K, ChargeEntry>, key: ChargeKey)
    ensures key in Groups(entries) <==> GroupMicros(entries, key) != map[]
    ensures Sum(GroupMicros(entries, key)) != 0 ==> key in Groups(entries)
  {
    if key in Groups(entries) {
      var k :| k in entries && entries[k].group == key;
      assert k in GroupMicros(entries, key);
    } else {
      NothingYet(entries, key);
    }
    if GroupMicros(entries, key) != map[] {
      var k :| k in GroupMicros(entries, key);
    }
  }

  // ------------------------------------------------------------------ the gateway

  /** A call that went through, priced by the book or with no basis reported. */
  predicate Costs(c: Call) {
    !c.blocked && (c.priceBasis.None? || c.priceBasis.value in ["", "book", "known"])
  }

  predicate OfGroup(c: Call, day: string, team: string, provider: string, model: string, invoice: string) {
    c.day == day && c.team == team && c.provider == provider && c.model == model && c.invoice == invoice
  }

  ghost function CallRows(calls: Calls, day: string, team: string, provider: string, model: string, invoice: string)
    : map<RowId, int> {
    map id | id in calls && Costs(calls[id].call) && OfGroup(calls[id].call, day, team, provider, model, invoice) ::
      calls[id].call.micros
  }

  ghost function CallTokens(calls: Calls, day: string, team: string, provider: string, model: string, invoice: string)
    : map<RowId, int> {
    map id | id in calls && Costs(calls[id].call) && OfGroup(calls[id].call, day, team, provider, model, invoice) ::
      calls[id].call.tokensIn + calls[id].call.tokensOut
  }

  /** There is a charge for these columns exactly when a call with them costs, be it nothing, and it
      is the calls' sum in cents beside the sum of their tokens. */
  ghost predicate CallsCharged(charges: ChargeTable, calls: Calls, day: string, team: string, provider: string,
                               model: string, invoice: string) {
    var key := ChargeKey(Some("tokenfuse-focus"), "ai", day, provider + " API", team, "Usage", model, invoice);
    var billed := CallRows(calls, day, team, provider, model, invoice);
    && (key in charges <==> billed != map[])
    && (key in charges ==>
          && NearestAway(charges[key].cents, Sum(billed), 10_000)
          && charges[key].quantity == Some(Sum(CallTokens(calls, day, team, provider, model, invoice))))
  }

  ghost predicate GatewayBooked(charges: ChargeTable, calls: Calls) {
    && (forall key :: key in charges && key.provenance == Some("tokenfuse-focus") ==>
          key.source == "ai" && key.category == "Usage" && exists provider :: key.service == provider + " API")
    && (forall day, team, provider, model, invoice ::
          CallsCharged(charges, calls, day, team, provider, model, invoice))
  }

  lemma GatewayIsBooked(charges: ChargeTable, calls: Calls)
    requires View(charges, ChargeEntries(calls), GATEWAY)
    ensures GatewayBooked(charges, calls)
  {
    forall key | key in charges && key.provenance == Some("tokenfuse-focus")
      ensures key.source == "ai" && key.category == "Usage" && exists provider :: key.service == provider + " API"
    {
      InOwn(charges, key, "tokenfuse-focus");
      assert key in Groups(ChargeEntries(calls));
      var id :| id in ChargeEntries(calls) && ChargeEntries(calls)[id].group == key;
      assert key.service == calls[id].call.provider + " API";
    }
    forall day, team, provider, model, invoice
      ensures CallsCharged(charges, calls, day, team, provider, model, invoice)
    {
      CallChargeIsItsRows(charges, calls, day, team, provider, model, invoice);
    }
  }

  lemma CallChargeIsItsRows(charges: ChargeTable, calls: Calls, day: string, team: string, provider: string,
                            model: string, invoice: string)
    requires View(charges, ChargeEntries(calls), GATEWAY)
    ensures CallsCharged(charges, calls, day, team, provider, model, invoice)
  {
    var entries := ChargeEntries(calls);
    var key := ChargeKey(Some("tokenfuse-focus"), "ai", day, provider + " API", team, "Usage", model, invoice);
    CallGroup(calls, day, team, provider, model, invoice);
    InOwn(charges, key, "tokenfuse-focus");
    SomethingToSum(entries, key);
  }

  lemma CallGroup(calls: Calls, day: string, team: string, provider: string, model: string, invoice: string)
    ensures var key := ChargeKey(Some("tokenfuse-focus"), "ai", day, provider + " API", team, "Usage", model, invoice);
            && GroupMicros(ChargeEntries(calls), key) == CallRows(calls, day, team, provider, model, invoice)
            && GroupQuantity(ChargeEntries(calls), key) == CallTokens(calls, day, team, provider, model, invoice)
  {
    var key := ChargeKey(Some("tokenfuse-focus"), "ai", day, provider + " API", team, "Usage", model, invoice);
    forall id | id in calls
      ensures Costs(calls[id].call) <==> Spend(calls[id].call)
      ensures ChargeGroup(calls[id].call) == key <==> OfGroup(calls[id].call, day, team, provider, model, invoice)
    {
      OneService(calls[id].call.provider, provider);
    }
  }

  lemma OneService(a: string, b: string)
    ensures a + " API" == b + " API" <==> a == b
  {
    if a + " API" == b + " API" {
      assert |a| == |b|;
      assert (a + " API")[..|a|] == a && (b + " API")[..|b|] == b;
    }
  }

  // ------------------------------------------------------------------ whose a service is

  /** What an agent's costing calls of a day come to with one provider for one team. */
  ghost function AgentRows(calls: Calls, day: string, team: string, provider: string, agent: string): map<RowId, int> {
    map id | id in calls && Costs(calls[id].call) && calls[id].call.day == day && calls[id].call.team == team
             && calls[id].call.provider == provider && calls[id].call.agent == agent ::
      calls[id].call.micros
  }

  /** Where anybody spent, the service is attributed to one of those who did whom nobody outspent,
      and of equals the first by name. */
  ghost predicate TopSpenderNamed(table: AttributionTable, calls: Calls, day: string, team: string, provider: string) {
    var key := AttributionKey("ai", team, provider + " API", day, day);
    (exists agent :: AgentRows(calls, day, team, provider, agent) != map[]) ==>
      && key in table && AgentRows(calls, day, team, provider, table[key]) != map[]
      && forall other :: other != table[key] && AgentRows(calls, day, team, provider, other) != map[] ==>
           var mine := Sum(AgentRows(calls, day, team, provider, table[key]));
           var theirs := Sum(AgentRows(calls, day, team, provider, other));
           mine > theirs || (mine == theirs && LexLess(table[key], other))
  }

  lemma AgentGroupIsItsRows(calls: Calls, day: string, team: string, provider: string, agent: string)
    ensures var g := AgentGroup(team, provider, agent);
            && GroupMicros(AgentEntries(calls, day), g) == AgentRows(calls, day, team, provider, agent)
            && (g in Groups(AgentEntries(calls, day)) <==> AgentRows(calls, day, team, provider, agent) != map[])
  {
    var g := AgentGroup(team, provider, agent);
    forall id | id in calls ensures Costs(calls[id].call) <==> Spend(calls[id].call) {
    }
    assert GroupMicros(AgentEntries(calls, day), g) == AgentRows(calls, day, team, provider, agent);
    if g in Groups(AgentEntries(calls, day)) {
      var id :| id in AgentEntries(calls, day) && AgentEntries(calls, day)[id].group == g;
      assert id in GroupMicros(AgentEntries(calls, day), g);
    }
    if AgentRows(calls, day, team, provider, agent) != map[] {
      var id :| id in AgentRows(calls, day, team, provider, agent);
      assert AgentEntries(calls, day)[id].group == g;
    }
  }

  lemma KeyIsOfTheProvider(g: AgentGroup, day: string, team: string, provider: string)
    ensures KeyFor(g, day) == AttributionKey("ai", team, provider + " API", day, day)
            <==> g.team == team && g.provider == provider
  {
    OneService(g.provider, provider);
  }

  lemma TopAgentIsNamed(table: AttributionTable, calls: Calls, day: string, team: string, provider: string)
    requires LiveAttributed(table, calls, day)
    ensures TopSpenderNamed(table, calls, day, team, provider)
  {
    var key := AttributionKey("ai", team, provider + " API", day, day);
    if agent :| AgentRows(calls, day, team, provider, agent) != map[] {
      var g := AgentGroup(team, provider, agent);
      AgentGroupIsItsRows(calls, day, team, provider, agent);
      assert KeyFor(g, day) == key && key in LiveKeys(calls, day);
      var top :| top in Groups(AgentEntries(calls, day)) && KeyFor(top, day) == key && top.agent == table[key]
        && forall o :: o in Groups(AgentEntries(calls, day)) && KeyFor(o, day) == key ==>
             Ahead(table[key], SpentBy(calls, day, top), o.agent, SpentBy(calls, day, o));
      KeyIsOfTheProvider(top, day, team, provider);
      AgentGroupIsItsRows(calls, day, team, provider, table[key]);
      forall other | other != table[key] && AgentRows(calls, day, team, provider, other) != map[]
        ensures var mine := Sum(AgentRows(calls, day, team, provider, table[key]));
                var theirs := Sum(AgentRows(calls, day, team, provider, other));
                mine > theirs || (mine == theirs && LexLess(table[key], other))
      {
        AgentGroupIsItsRows(calls, day, team, provider, other);
        var o := AgentGroup(team, provider, other);
        assert KeyFor(o, day) == key;
        assert Ahead(table[key], SpentBy(calls, day, top), other, SpentBy(calls, day, o));
      }
    }
  }
}
