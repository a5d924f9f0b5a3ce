/**
 Sums over tables.

 A table is a map from its primary key to a row, and SQL's SUM adds one integer column of
 some of its rows.  A map has no order, so neither has the sum: the lemmas below say that
 rows may be taken out of it in any order and that disjoint tables add up.
 */
module Tables {

  ghost function Pick<K, V>(m: map<K, V>): (k: K)
    requires m != map[]
    ensures k in m
  {
    var k :| k in m;
    k
  }

  ghost function Sum<K>(m: map<K, int>): int
    decreases |m|
  {
    if m == map[] then 0
    else
      var k := Pick(m);
      CountAfterRemoval(m, k);
      m[k] + Sum(m - {k})
  }

  lemma SameRows<K, V>(a: map<K, V>, b: map<K, V>)
    requires forall k :: k in a ==> k in b && a[k] == b[k]
    requires forall k :: k in b ==> k in a
    ensures a == b
  {
  }

  /** The next of a set of keys, in whatever order a map gives them. */
  method AnyOf<K(==)>(keys: set<K>) returns (k: K)
    requires keys != {}
    ensures k in keys
  {
    k :| k in keys;
  }

  lemma CountAfterRemoval<K, V>(m: map<K, V>, k: K)
    requires k in m
    ensures |m - {k}| == |m| - 1
  {
    assert (m - {k}).Keys == m.Keys - {k};
    assert |m.Keys - {k}| == |m.Keys| - 1;
  }

  /** Any row may be the one that is added first. */
  lemma {:induction false} SumRemove<K>(m: map<K, int>, k: K)
    requires k in m
    ensures Sum(m) == m[k] + Sum(m - {k})
    decreases |m|
  {
    var first := Pick(m);
    if first != k {
      CountAfterRemoval(m, first);
      CountAfterRemoval(m, k);
      SumRemove(m - {first}, k);
      SumRemove(m - {k}, first);
      assert m - {first} - {k} == m - {k} - {first};
    }
  }

  /** Adding a row under a fresh key adds its amount. */
  lemma SumInsert<K>(m: map<K, int>, k: K, v: int)
    requires k !in m
    ensures Sum(m[k := v]) == Sum(m) + v
  {
    SumRemove(m[k := v], k);
    assert m[k := v] - {k} == m;
  }

  /** Writing a row, new or not, changes the sum by what changed. */
  lemma SumOfUpdate<K>(m: map<K, int>, k: K, v: int)
    ensures Sum(m[k := v]) == Sum(m) + v - (if k in m then m[k] else 0)
  {
    if k in m {
      SumRemove(m, k);
      SumRemove(m[k := v], k);
      assert m - {k} == m[k := v] - {k};
    } else {
      SumInsert(m, k, v);
    }
  }

  ghost predicate Partitions<K>(m: map<K, int>, a: map<K, int>, b: map<K, int>) {
    && a.Keys !! b.Keys
    && m.Keys == a.Keys + b.Keys
    && (forall k :: k in a ==> m[k] == a[k])
    && (forall k :: k in b ==> m[k] == b[k])
  }

  /** Disjoint tables add up. */
  lemma {:induction false} SumPartition<K>(m: map<K, int>, a: map<K, int>, b: map<K, int>)
    requires Partitions(m, a, b)
    ensures Sum(m) == Sum(a) + Sum(b)
    decreases |b|
  {
    if b == map[] {
      assert m == a;
    } else {
      var k := Pick(b);
      CountAfterRemoval(b, k);
      assert Partitions(m - {k}, a, b - {k});
      SumPartition(m - {k}, a, b - {k});
      SumRemove(b, k);
      SumRemove(m, k);
    }
  }

  lemma {:induction false} SumNonNegative<K>(m: map<K, int>)
    requires forall k :: k in m ==> m[k] >= 0
    ensures Sum(m) >= 0
    decreases |m|
  {
    if m != map[] {
      var k := Pick(m);
      CountAfterRemoval(m, k);
      SumNonNegative(m - {k});
    }
  }

  /** A table whose rows all carry one amount sums to that amount times its rows. */
  lemma {:induction false} SumConstant<K>(m: map<K, int>, v: int)
    requires forall k :: k in m ==> m[k] == v
    ensures Sum(m) == |m| * v
    decreases |m|
  {
    if m != map[] {
      var k := Pick(m);
      CountAfterRemoval(m, k);
      SumConstant(m - {k}, v);
    }
  }

  /** One row of a classified table: the class it belongs to and its amount. */
  datatype Classified<C> = Classified(class_: C, amount: int)

  ghost function Amounts<K, C>(m: map<K, Classified<C>>): map<K, int> {
    map k | k in m :: m[k].amount
  }

  ghost function ClassAmounts<K, C>(m: map<K, Classified<C>>, c: C): map<K, int> {
    map k | k in m && m[k].class_ == c :: m[k].amount
  }

  ghost function WithoutClass<K, C>(m: map<K, Classified<C>>, c: C): map<K, Classified<C>> {
    map k | k in m && m[k].class_ != c :: m[k]
  }

  lemma SumByOneClass<K, C>(m: map<K, Classified<C>>, c: C)
    ensures Sum(Amounts(m)) == Sum(ClassAmounts(m, c)) + Sum(Amounts(WithoutClass(m, c)))
  {
    SumPartition(Amounts(m), ClassAmounts(m, c), Amounts(WithoutClass(m, c)));
  }

  /** Two tables whose classes sum alike have the same total. */
  lemma {:induction false} SumsAgreeByClass<K, C(!new)>(
    a: map<K, Classified<C>>, b: map<K, Classified<C>>)
    requires forall c :: Sum(ClassAmounts(a, c)) == Sum(ClassAmounts(b, c))
    ensures Sum(Amounts(a)) == Sum(Amounts(b))
    decreases |a| + |b|
  {
    if a == map[] && b == map[] {
      assert Amounts(a) == Amounts(b);
    } else {
      var c := if a != map[] then a[Pick(a)].class_ else b[Pick(b)].class_;
      var a', b' := WithoutClass(a, c), WithoutClass(b, c);
      assert |a'| + |b'| < |a| + |b| by {
        Shrinks(a, c);
        Shrinks(b, c);
      }
      forall d ensures Sum(ClassAmounts(a', d)) == Sum(ClassAmounts(b', d)) {
        OtherClassesUntouched(a, c, d);
        OtherClassesUntouched(b, c, d);
      }
      SumsAgreeByClass(a', b');
      SumByOneClass(a, c);
      SumByOneClass(b, c);
    }
  }

  lemma OtherClassesUntouched<K, C>(m: map<K, Classified<C>>, c: C, d: C)
    ensures ClassAmounts(WithoutClass(m, c), d) == if d == c then map[] else ClassAmounts(m, d)
  {
  }

  lemma Shrinks<K, C>(m: map<K, Classified<C>>, c: C)
    ensures |WithoutClass(m, c)| <= |m|
    ensures (exists k :: k in m && m[k].class_ == c) ==> |WithoutClass(m, c)| < |m|
  {
    var rest := WithoutClass(m, c).Keys;
    FewerKeys(rest, m.Keys);
    if exists k :: k in m && m[k].class_ == c {
      var k :| k in m && m[k].class_ == c;
      FewerKeys(rest, m.Keys - {k});
    }
  }

  lemma FewerKeys<K>(a: set<K>, b: set<K>)
    requires a <= b
    ensures |a| <= |b|
  {
    assert b == a + (b - a);
  }
}
