/**
 The charges table and how a ledger of raw rows is folded into it.

 Every connector keeps raw rows in exact micro-dollars and derives one charges row per day
 and group from them, summing first and rounding to cents once.  An import rebuilds only
 the days it touched; the theorem here is that this equals deriving every day from scratch.
 */
module Charges {
  import opened Arith
  import opened Wrappers
  import opened Tables
  import opened Grouping

  /** The columns a charges row is grouped by; provenance None is the generated estate. */
  datatype ChargeKey = ChargeKey(provenance: Option<string>, source: string, day: string, service: string,
                                 team: string, category: string, model: string, invoice: string)

  datatype Charge = Charge(cents: int, quantity: Option<int>)

  type ChargeTable = map<ChargeKey, Charge>

  /** One raw row as the derivation sees it. */
  type ChargeEntry = Entry<ChargeKey>

  /** counted: the gateway's ledger records a quantity and keeps a group that sums to zero;
      a cloud's records none and writes no row for such a group. */
  datatype Ledger = Ledger(provenance: string, counted: bool)

  /** Micro-dollars to cents, half a cent away from zero. */
  function Cents(micros: int): (c: int)
    ensures NearestAway(c, micros, 10_000)
  {
    if micros < 0 then -((-micros + 5_000) / 10_000) else (micros + 5_000) / 10_000
  }

  ghost function ChargeOf<K>(entries: map<K, ChargeEntry>, key: ChargeKey, counted: bool): Charge {
    Charge(Cents(Sum(GroupMicros(entries, key))),
           if counted then Some(Sum(GroupQuantity(entries, key))) else None)
  }

  ghost predicate Written<K>(entries: map<K, ChargeEntry>, key: ChargeKey, counted: bool) {
    key in Groups(entries) && (counted || Sum(GroupMicros(entries, key)) != 0)
  }

  /** The charges of a ledger computed from nothing but its raw rows, every day at once. */
  ghost function Derived<K>(entries: map<K, ChargeEntry>, counted: bool): ChargeTable {
    map key | key in Groups(entries) && Written(entries, key, counted) :: ChargeOf(entries, key, counted)
  }

  function Own(charges: ChargeTable, provenance: string): ChargeTable {
    map key | key in charges && key.provenance == Some(provenance) :: charges[key]
  }

  function Others(charges: ChargeTable, provenance: string): ChargeTable {
    map key | key in charges && key.provenance != Some(provenance) :: charges[key]
  }

  /** The stored charges of this ledger are exactly what its raw rows derive to. */
  ghost predicate View<K>(charges: ChargeTable, entries: map<K, ChargeEntry>, ledger: Ledger) {
    && (forall k :: k in entries ==> entries[k].group.provenance == Some(ledger.provenance))
    && Own(charges, ledger.provenance) == Derived(entries, ledger.counted)
  }

  /** The two ledgers hold the same rows on every day outside days. */
  ghost predicate AgreeOff<K>(before: map<K, ChargeEntry>, after: map<K, ChargeEntry>, days: set<string>) {
    && (forall k :: k in before && before[k].group.day !in days ==> k in after && after[k] == before[k])
    && (forall k :: k in after && after[k].group.day !in days ==> k in before && after[k] == before[k])
  }

  lemma AgreeOffTransitive<K>(a: map<K, ChargeEntry>, b: map<K, ChargeEntry>, c: map<K, ChargeEntry>,
                              first: set<string>, second: set<string>)
    requires AgreeOff(a, b, first) && AgreeOff(b, c, second)
    ensures AgreeOff(a, c, first + second)
  {
  }

  lemma AgreeOffMore<K>(a: map<K, ChargeEntry>, b: map<K, ChargeEntry>, days: set<string>, more: set<string>)
    requires AgreeOff(a, b, days) && days <= more
    ensures AgreeOff(a, b, more)
  {
  }

  predicate InDays(key: ChargeKey, provenance: string, days: set<string>) {
    key.provenance == Some(provenance) && key.day in days
  }

  /** The charges after the days given were cleared and derived again. */
  ghost function Rebuilt<K>(charges: ChargeTable, entries: map<K, ChargeEntry>, ledger: Ledger,
                            days: set<string>): ChargeTable
  {
    var derived := Derived(entries, ledger.counted);
    map key | key in charges.Keys + derived.Keys
      && (if InDays(key, ledger.provenance, days) then key in derived else key in charges)
      :: if InDays(key, ledger.provenance, days) then derived[key] else charges[key]
  }

  /** Rebuilding the touched days alone gives the view of every day, and no other ledger moves. */
  lemma IncrementalEqualsRecomputed<K>(charges: ChargeTable, before: map<K, ChargeEntry>, after: map<K, ChargeEntry>,
                                       ledger: Ledger, days: set<string>)
    requires View(charges, before, ledger)
    requires forall k :: k in after ==> after[k].group.provenance == Some(ledger.provenance)
    requires AgreeOff(before, after, days)
    ensures View(Rebuilt(charges, after, ledger, days), after, ledger)
    ensures Others(Rebuilt(charges, after, ledger, days), ledger.provenance) == Others(charges, ledger.provenance)
  {
    var result, derived := Rebuilt(charges, after, ledger, days), Derived(after, ledger.counted);
    forall key: ChargeKey | key.provenance == Some(ledger.provenance)
      ensures key in result <==> key in derived
      ensures key in result ==> result[key] == derived[key]
    {
      RebuiltKey(charges, before, after, ledger, days, key);
    }
    DerivedIsOwn(after, ledger);
    OwnIs(result, derived, ledger.provenance);
    OthersStand(charges, after, ledger, days);
  }

  lemma DerivedIsOwn<K>(entries: map<K, ChargeEntry>, ledger: Ledger)
    requires forall k :: k in entries ==> entries[k].group.provenance == Some(ledger.provenance)
    ensures forall key :: key in Derived(entries, ledger.counted) ==> key.provenance == Some(ledger.provenance)
  {
  }

  lemma OwnIs(charges: ChargeTable, own: ChargeTable, provenance: string)
    requires forall key :: key in own ==> key.provenance == Some(provenance)
    requires forall key: ChargeKey :: key.provenance == Some(provenance) ==> (key in charges <==> key in own)
    requires forall key :: key in own && key in charges ==> charges[key] == own[key]
    ensures Own(charges, provenance) == own
  {
  }

  lemma OthersStand<K>(charges: ChargeTable, entries: map<K, ChargeEntry>, ledger: Ledger, days: set<string>)
    requires forall k :: k in entries ==> entries[k].group.provenance == Some(ledger.provenance)
    ensures Others(Rebuilt(charges, entries, ledger, days), ledger.provenance) == Others(charges, ledger.provenance)
  {
    DerivedIsOwn(entries, ledger);
  }

  lemma RebuiltKey<K>(charges: ChargeTable, before: map<K, ChargeEntry>, after: map<K, ChargeEntry>,
                      ledger: Ledger, days: set<string>, key: ChargeKey)
    requires View(charges, before, ledger)
    requires AgreeOff(before, after, days)
    requires key.provenance == Some(ledger.provenance)
    ensures var result, now := Rebuilt(charges, after, ledger, days), Derived(after, ledger.counted);
            (key in result <==> key in now) && (key in result ==> result[key] == now[key])
  {
    if key.day !in days {
      UntouchedGroup(before, after, key, days);
      assert key in charges <==> key in Own(charges, ledger.provenance);
      assert key in charges ==> charges[key] == Own(charges, ledger.provenance)[key];
      assert Written(before, key, ledger.counted) <==> Written(after, key, ledger.counted);
    }
  }

  lemma UntouchedGroup<K>(before: map<K, ChargeEntry>, after: map<K, ChargeEntry>, key: ChargeKey, days: set<string>)
    requires AgreeOff(before, after, days) && key.day !in days
    ensures GroupMicros(before, key) == GroupMicros(after, key)
    ensures GroupQuantity(before, key) == GroupQuantity(after, key)
    ensures key in Groups(before) <==> key in Groups(after)
  {
  }

  /** Days may be rebuilt one at a time. */
  lemma RebuildInSteps<K>(charges: ChargeTable, entries: map<K, ChargeEntry>, ledger: Ledger,
                          done: set<string>, more: set<string>)
    ensures Rebuilt(Rebuilt(charges, entries, ledger, done), entries, ledger, more)
         == Rebuilt(charges, entries, ledger, done + more)
  {
    var once := Rebuilt(charges, entries, ledger, done);
    var twice := Rebuilt(once, entries, ledger, more);
    var both := Rebuilt(charges, entries, ledger, done + more);
    forall key
      ensures key in twice <==> key in both
      ensures key in twice ==> twice[key] == both[key]
    {
      RebuiltAt(once, entries, ledger, more, key);
      RebuiltAt(charges, entries, ledger, done, key);
      RebuiltAt(charges, entries, ledger, done + more, key);
    }
  }

  /** What rebuilding leaves under one key. */
  lemma RebuiltAt<K>(charges: ChargeTable, entries: map<K, ChargeEntry>, ledger: Ledger, days: set<string>,
                     key: ChargeKey)
    ensures var after := Rebuilt(charges, entries, ledger, days);
            var from := if InDays(key, ledger.provenance, days) then Derived(entries, ledger.counted) else charges;
            (key in after <==> key in from) && (key in after ==> after[key] == from[key])
  {
  }

  /** Rebuilding no day changes nothing. */
  lemma RebuildNothing<K>(charges: ChargeTable, entries: map<K, ChargeEntry>, ledger: Ledger)
    ensures Rebuilt(charges, entries, ledger, {}) == charges
  {
  }

  /** WHERE day=?: the rows of one day sum to the same groups as the whole ledger does. */
  function OfDay<K>(entries: map<K, ChargeEntry>, day: string): map<K, ChargeEntry> {
    map k | k in entries && entries[k].group.day == day :: entries[k]
  }

  lemma GroupsOfDay<K>(entries: map<K, ChargeEntry>, day: string, key: ChargeKey)
    requires key.day == day
    ensures key in Groups(OfDay(entries, day)) <==> key in Groups(entries)
    ensures GroupMicros(OfDay(entries, day), key) == GroupMicros(entries, key)
    ensures GroupQuantity(OfDay(entries, day), key) == GroupQuantity(entries, key)
  {
    if key in Groups(entries) {
      var k :| k in entries && entries[k].group == key;
      assert OfDay(entries, day)[k].group == key;
    }
  }
}
