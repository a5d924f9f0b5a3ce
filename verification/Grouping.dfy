/**
 SELECT ..., SUM(...) FROM ... GROUP BY ...: a table's rows as groups with exact amounts, and
 the query that adds each group up.
 */
module Grouping {
  import opened Tables

  /** One row as a grouping query sees it: its group, its exact amount, its quantity. */
  datatype Entry<G> = Entry(group: G, micros: int, quantity: int)

  ghost function GroupMicros<K, G>(entries: map<K, Entry<G>>, g: G): map<K, int> {
    map k | k in entries && entries[k].group == g :: entries[k].micros
  }

  ghost function GroupQuantity<K, G>(entries: map<K, Entry<G>>, g: G): map<K, int> {
    map k | k in entries && entries[k].group == g :: entries[k].quantity
  }

  function Groups<K, G>(entries: map<K, Entry<G>>): set<G> {
    set k | k in entries :: entries[k].group
  }

  ghost predicate Grouped<K, G(!new)>(sums: map<G, (int, int)>, entries: map<K, Entry<G>>) {
    && (forall g :: g in sums <==> g in Groups(entries))
    && (forall g :: g in sums ==> sums[g] == (Sum(GroupMicros(entries, g)), Sum(GroupQuantity(entries, g))))
  }

  /** The query: one answer row for each group, whatever order the rows are visited in. */
  method GroupBy<K, G(==, !new)>(entries: map<K, Entry<G>>) returns (sums: map<G, (int, int)>)
    ensures Grouped(sums, entries)
  {
    sums := map[];
    ghost var seen: map<K, Entry<G>> := map[];
    var todo := entries.Keys;
    while todo != {}
      invariant todo <= entries.Keys && seen == entries - todo
      invariant Grouped(sums, seen)
    {
      var k :| k in todo;
      var e := entries[k];
      GroupedStep(sums, seen, k, e);
      SeenNext(entries, todo, k);
      sums := sums[e.group := WithRow(sums, e)];
      seen, todo := seen[k := e], todo - {k};
    }
    assert entries - {} == entries;
  }

  lemma SeenNext<K, V>(entries: map<K, V>, todo: set<K>, k: K)
    requires k in todo && todo <= entries.Keys
    ensures k !in entries - todo && entries - (todo - {k}) == (entries - todo)[k := entries[k]]
  {
  }

  /** A group's answer so far with one more row. */
  function WithRow<G>(sums: map<G, (int, int)>, e: Entry<G>): (int, int) {
    var sofar := if e.group in sums then sums[e.group] else (0, 0);
    (sofar.0 + e.micros, sofar.1 + e.quantity)
  }

  lemma GroupedStep<K, G(!new)>(sums: map<G, (int, int)>, seen: map<K, Entry<G>>, k: K, e: Entry<G>)
    requires Grouped(sums, seen) && k !in seen
    ensures Grouped(sums[e.group := WithRow(sums, e)], seen[k := e])
  {
    var after, next := sums[e.group := WithRow(sums, e)], seen[k := e];
    forall g
      ensures g in after <==> g in Groups(next)
      ensures g in after ==> after[g] == (Sum(GroupMicros(next, g)), Sum(GroupQuantity(next, g)))
    {
      OneMoreRow(seen, k, e, g);
      GroupAfter(sums, seen, e, g);
    }
  }

  lemma GroupAfter<K, G(!new)>(sums: map<G, (int, int)>, seen: map<K, Entry<G>>, e: Entry<G>, g: G)
    requires Grouped(sums, seen)
    ensures WithRow(sums, e)
            == (Sum(GroupMicros(seen, e.group)) + e.micros, Sum(GroupQuantity(seen, e.group)) + e.quantity)
    ensures g in sums <==> g in Groups(seen)
    ensures g in sums ==> sums[g] == (Sum(GroupMicros(seen, g)), Sum(GroupQuantity(seen, g)))
  {
    if e.group !in sums {
      NothingYet(seen, e.group);
    }
  }

  lemma NothingYet<K, G>(seen: map<K, Entry<G>>, g: G)
    requires g !in Groups(seen)
    ensures Sum(GroupMicros(seen, g)) == 0 == Sum(GroupQuantity(seen, g))
  {
    assert GroupMicros(seen, g) == map[] == GroupQuantity(seen, g);
  }

  ghost predicate GroupsGrow<K, G>(seen: map<K, Entry<G>>, k: K, e: Entry<G>, g: G) {
    && (g in Groups(seen[k := e]) <==> g in Groups(seen) || g == e.group)
    && Sum(GroupMicros(seen[k := e], g)) == Sum(GroupMicros(seen, g)) + (if g == e.group then e.micros else 0)
    && Sum(GroupQuantity(seen[k := e], g)) == Sum(GroupQuantity(seen, g)) + (if g == e.group then e.quantity else 0)
  }

  lemma OneMoreRow<K, G>(seen: map<K, Entry<G>>, k: K, e: Entry<G>, g: G)
    requires k !in seen
    ensures GroupsGrow(seen, k, e, g)
  {
    var next := seen[k := e];
    if g == e.group {
      assert next[k].group == g;
      assert GroupMicros(next, g) == GroupMicros(seen, g)[k := e.micros];
      assert GroupQuantity(next, g) == GroupQuantity(seen, g)[k := e.quantity];
      SumInsert(GroupMicros(seen, g), k, e.micros);
      SumInsert(GroupQuantity(seen, g), k, e.quantity);
    } else {
      assert GroupMicros(next, g) == GroupMicros(seen, g);
      assert GroupQuantity(next, g) == GroupQuantity(seen, g);
    }
    if g in Groups(seen) {
      var o :| o in seen && seen[o].group == g;
      assert next[o].group == g;
    }
  }
}
