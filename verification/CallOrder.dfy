/**
 What the order a folder's files are read in decides and what it does not: whether a call is
 lost, the export generation kept for it, and the total billed.

 The one thing that can make the order matter to a call is a file of its newest exports whose
 bytes are found under another door as well.
 */
module CallOrder {
  import opened Wrappers
  import opened Tables
  import opened Text
  import opened CallLedger
  import opened CallHistory
  import CallIdentity

  ghost predicate OnDoor(calls: Calls, door: string, key: string) {
    exists id :: StoredFor(calls, id, door, key)
  }

  /** A file of the highest generation among those carrying the call on the door. */
  ghost predicate Newest(h: seq<Export>, x: Export, door: string, key: string) {
    && x in h && Carries(x, door, key)
    && forall c :: c in h && Carries(c, door, key) ==> Generation(c) <= Generation(x)
  }

  /** The bytes of a newest file are read complete through another door too. */
  ghost predicate Contested(h: seq<Export>, door: string, key: string) {
    exists x, y :: Newest(h, x, door, key) && y in h && TakenBy(y, x.sha, door)
  }

  /** Bytes read through one door only are never contested. */
  lemma OneDoorIsUncontested(h: seq<Export>, door: string, key: string)
    requires OneDoor(h)
    ensures !Contested(h, door, key)
  {
    forall x, y | Newest(h, x, door, key) && y in h ensures !TakenBy(y, x.sha, door) {
      var i :| 0 <= i < |h| && h[i] == x;
      var j :| 0 <= j < |h| && h[j] == y;
    }
  }

  ghost predicate Carried(h: seq<Export>, door: string, key: string) {
    exists f :: f in h && Carries(f, door, key)
  }

  lemma {:induction false} NewestExists(h: seq<Export>, door: string, key: string) returns (x: Export)
    requires Carried(h, door, key)
    ensures Newest(h, x, door, key)
  {
    var n := |h| - 1;
    var p, f := h[..n], h[n];
    assert h == p + [f];
    if Carried(p, door, key) {
      x := NewestExists(p, door, key);
      if Carries(f, door, key) && Generation(f) > Generation(x) {
        x := f;
      }
    } else {
      x := f;
    }
  }

  lemma SameFiles(h: seq<Export>, g: seq<Export>)
    requires multiset(h) == multiset(g)
    ensures forall f :: f in h <==> f in g
    ensures OneContent(h) ==> OneContent(g)
  {
    forall f ensures f in h <==> f in g {
      assert f in h <==> f in multiset(h);
      assert f in g <==> f in multiset(g);
    }
    if OneContent(h) {
      OneContentAmong(h, g);
    }
  }

  /** An uncontested call, once one of its newest files was read, stays with one of them. */
  lemma {:induction false} NewestStays(h: seq<Export>, g: seq<Export>, x: Export, door: string, key: string)
    requires !Contested(h, door, key) && Newest(h, x, door, key) && x in g && forall f :: f in g ==> f in h
    ensures var w := HolderFile(g, door, key); w.Some? && Newest(h, w.value, door, key)
  {
    var n := |g| - 1;
    var p, f := g[..n], g[n];
    assert g == p + [f];
    HolderFileAfter(p, f, door, key);
    var was := HolderFile(p, door, key);
    assert f in h;
    if x in p {
      NewestStays(h, p, x, door, key);
      assert !TakenBy(f, was.value.sha, door);
    } else if was.Some? {
      assert p[Holder(p, door, key).value] in h;
    }
  }

  /** In whatever order, an uncontested call somebody carried is held by a newest file. */
  lemma NewestHolds(h: seq<Export>, g: seq<Export>, door: string, key: string)
    requires multiset(g) == multiset(h) && !Contested(h, door, key) && Carried(h, door, key)
    ensures var w := HolderFile(g, door, key); w.Some? && Newest(h, w.value, door, key)
  {
    SameFiles(h, g);
    var x := NewestExists(h, door, key);
    NewestStays(h, g, x, door, key);
  }

  lemma NobodyHolds(h: seq<Export>, g: seq<Export>, door: string, key: string)
    requires multiset(g) == multiset(h) && !Carried(h, door, key)
    ensures HolderFile(g, door, key) == None
  {
    SameFiles(h, g);
  }

  lemma WithoutOne(h: seq<Export>, x: Export) returns (rest: seq<Export>)
    requires x in h
    ensures multiset(rest) + multiset{x} == multiset(h)
  {
    var i :| 0 <= i < |h| && h[i] == x;
    rest := h[..i] + h[i + 1..];
    assert h == h[..i] + [x] + h[i + 1..];
  }

  /** A contested call is held when the newest file comes after the bytes under the other door
      and by nobody when they come after it. */
  lemma ContestedDependsOnOrder(h: seq<Export>, door: string, key: string)
    returns (lost: seq<Export>, kept: seq<Export>)
    requires Contested(h, door, key)
    ensures multiset(lost) == multiset(h) == multiset(kept)
    ensures HolderFile(lost, door, key) == None && HolderFile(kept, door, key).Some?
  {
    var x, y :| Newest(h, x, door, key) && y in h && TakenBy(y, x.sha, door);
    var p := WithoutOne(h, x);
    assert y in multiset(h) && y in multiset(p);
    var rest := WithoutOne(p, y);
    lost, kept := rest + [x] + [y], rest + [y] + [x];
    SameFiles(h, lost);
    NewestTakes(h, rest, x, door, key);
    HolderFileAfter(rest + [x], y, door, key);
    NewestTakes(h, rest + [y], x, door, key);
  }

  lemma NewestTakes(h: seq<Export>, p: seq<Export>, x: Export, door: string, key: string)
    requires Newest(h, x, door, key) && forall f :: f in p ==> f in h
    ensures HolderFile(p + [x], door, key) == Some(x)
  {
    HolderFileAfter(p, x, door, key);
    if HolderFile(p, door, key).Some? {
      assert p[Holder(p, door, key).value] in h;
    }
  }

  /** A call that a readable file carries is lost in no order of the files if and only if no
      file of the newest generation carrying it has its bytes read through another door. */
  lemma LostInNoOrderIff(h: seq<Export>, door: string, key: string)
    requires OneContent(h) && Carried(h, door, key)
    ensures (forall g :: multiset(g) == multiset(h) ==> OnDoor(Run(map[], g), door, key)) <==> !Contested(h, door, key)
  {
    forall g | multiset(g) == multiset(h)
      ensures OnDoor(Run(map[], g), door, key) <==> HolderFile(g, door, key).Some?
      ensures !Contested(h, door, key) ==> HolderFile(g, door, key).Some?
    {
      SameFiles(h, g);
      CallIsOnDoor(g, door, key);
      if !Contested(h, door, key) {
        NewestHolds(h, g, door, key);
      }
    }
    if Contested(h, door, key) {
      var lost, _ := ContestedDependsOnOrder(h, door, key);
      assert !OnDoor(Run(map[], lost), door, key);
    }
  }

  /** In a given order the last file read of the newest generation holds the call if and only if
      its bytes are not read through another door afterwards. */
  lemma {:induction false} LatestHoldsIff(h: seq<Export>, door: string, key: string, w: nat)
    requires LatestOfNewest(h, door, key, w)
    ensures Holder(h, door, key) == Some(w) <==> forall j :: w < j < |h| ==> !TakenBy(h[j], h[w].sha, door)
  {
    var n := |h| - 1;
    var p, f := h[..n], h[n];
    assert h == p + [f];
    if w < n {
      assert LatestOfNewest(p, door, key, w) by {
        assert forall j :: 0 <= j < n ==> p[j] == h[j];
      }
      LatestHoldsIff(p, door, key, w);
      StillHolds(p, f, door, key, w);
    } else {
      LastReadHolds(p, f, door, key);
    }
  }

  lemma StillHolds(p: seq<Export>, f: Export, door: string, key: string, w: nat)
    requires w < |p| && (Carries(f, door, key) ==> Generation(f) < Generation(p[w]))
    ensures Holder(p + [f], door, key) == Some(w) <==>
            Holder(p, door, key) == Some(w) && !TakenBy(f, p[w].sha, door)
  {
    HolderAfter(p, f, door, key);
  }

  lemma LastReadHolds(p: seq<Export>, f: Export, door: string, key: string)
    requires LatestOfNewest(p + [f], door, key, |p|)
    ensures Holder(p + [f], door, key) == Some(|p|)
  {
    HolderAfter(p, f, door, key);
    var was := Holder(p, door, key);
    if was.Some? {
      assert (p + [f])[was.value] == p[was.value];
    }
  }

  /** An uncontested call is on the door exactly when some readable file carries it there. */
  lemma NoCallIsLost(h: seq<Export>, door: string, key: string)
    requires OneContent(h) && !Contested(h, door, key)
    ensures OnDoor(Run(map[], h), door, key) <==> Carried(h, door, key)
  {
    CallIsOnDoor(h, door, key);
    if Carried(h, door, key) {
      NewestHolds(h, h, door, key);
    } else {
      NobodyHolds(h, h, door, key);
    }
  }

  function KeptGeneration(h: seq<Export>, door: string, key: string): Option<nat> {
    var f := HolderFile(h, door, key);
    if f.Some? then Some(Generation(f.value)) else None
  }

  lemma GenerationIsOrderFree(h: seq<Export>, g: seq<Export>, door: string, key: string)
    requires multiset(h) == multiset(g) && !Contested(h, door, key)
    ensures KeptGeneration(h, door, key) == KeptGeneration(g, door, key)
  {
    if Carried(h, door, key) {
      NewestHolds(h, h, door, key);
      NewestHolds(h, g, door, key);
    } else {
      NobodyHolds(h, h, door, key);
      NobodyHolds(h, g, door, key);
    }
  }

  /** The generation kept for a call is the same in every order of the files if and only if the
      call is not contested. */
  lemma GenerationIsOrderFreeIff(h: seq<Export>, door: string, key: string)
    ensures (forall g :: multiset(g) == multiset(h) ==> KeptGeneration(g, door, key) == KeptGeneration(h, door, key))
            <==> !Contested(h, door, key)
  {
    if Contested(h, door, key) {
      var lost, kept := ContestedDependsOnOrder(h, door, key);
      assert KeptGeneration(lost, door, key) != KeptGeneration(kept, door, key);
    } else {
      forall g | multiset(g) == multiset(h) ensures KeptGeneration(g, door, key) == KeptGeneration(h, door, key) {
        GenerationIsOrderFree(h, g, door, key);
      }
    }
  }

  /** The key of a call spells its amount out, so equal keys are equal money. */
  lemma KeyTellsTheMoney(a: Call, b: Call)
    requires CallKey(a) == CallKey(b)
    ensures a.blocked == b.blocked && a.micros == b.micros
    ensures a.tokensOut == b.tokensOut && a.tokensIn == b.tokensIn
  {
    CallIdentity.KeySplits(a, b);
  }

  ghost function ByCall(calls: Calls): map<RowId, Classified<(string, string)>> {
    map id | id in calls :: Classified((DoorOf(calls[id]), CallKey(calls[id].call)), calls[id].call.micros)
  }

  /** Everything the ledger holds, in micro-dollars. */
  ghost function Billed(calls: Calls): int {
    Sum(Amounts(ByCall(calls)))
  }

  ghost function KeyAmounts(f: Export, key: string): map<RowId, int> {
    map id | id in Ids(f) && CallKey(RowOf(f, id).call) == key :: RowOf(f, id).call.micros
  }

  /** How often an export repeats a call. */
  ghost function Copies(f: Export, key: string): nat {
    |KeyAmounts(f, key)|
  }

  ghost predicate EquallyOften(h: seq<Export>) {
    forall i, j, door, key ::
      0 <= i < |h| && 0 <= j < |h| && Carries(h[i], door, key) && Carries(h[j], door, key) ==>
        Copies(h[i], key) == Copies(h[j], key)
  }

  lemma ClassIsTheHoldersRows(h: seq<Export>, door: string, key: string)
    requires OneContent(h)
    ensures ClassAmounts(ByCall(Run(map[], h)), (door, key))
         == match HolderFile(h, door, key) case None => map[] case Some(f) => KeyAmounts(f, key)
  {
    forall id ensures
      var t, f := Run(map[], h), HolderFile(h, door, key);
      && (StoredFor(t, id, door, key) <==> f.Some? && id in KeyAmounts(f.value, key))
      && (StoredFor(t, id, door, key) ==> t[id].call.micros == KeyAmounts(f.value, key)[id])
    {
      RowOfTheHolder(h, door, key, id);
    }
    var rows := match HolderFile(h, door, key) case None => map[] case Some(f) => KeyAmounts(f, key);
    ClassOfACall(Run(map[], h), door, key, rows);
  }

  lemma ClassOfACall(t: Calls, door: string, key: string, rows: map<RowId, int>)
    requires forall id :: StoredFor(t, id, door, key) <==> id in rows
    requires forall id :: StoredFor(t, id, door, key) ==> t[id].call.micros == rows[id]
    ensures ClassAmounts(ByCall(t), (door, key)) == rows
  {
    assert forall id :: id in ClassAmounts(ByCall(t), (door, key)) <==> StoredFor(t, id, door, key);
  }

  lemma RowOfTheHolder(h: seq<Export>, door: string, key: string, id: RowId)
    requires OneContent(h)
    ensures var t, f := Run(map[], h), HolderFile(h, door, key);
            && (StoredFor(t, id, door, key) <==> f.Some? && id in KeyAmounts(f.value, key))
            && (StoredFor(t, id, door, key) ==> t[id].call.micros == KeyAmounts(f.value, key)[id])
  {
    StoredIffHolderHas(h, id);
    var f := HolderFile(h, door, key);
    if StoredFor(Run(map[], h), id, door, key) {
      var g :| KeptFromFile(h, id, g);
    }
    if f.Some? && id in KeyAmounts(f.value, key) {
      assert KeptFromFile(h, id, f.value);
    }
  }

  lemma MoneyOfACall(h: seq<Export>, g: seq<Export>, door: string, key: string)
    requires multiset(h) == multiset(g) && OneContent(h) && !Contested(h, door, key) && EquallyOften(h)
    ensures Sum(ClassAmounts(ByCall(Run(map[], h)), (door, key)))
         == Sum(ClassAmounts(ByCall(Run(map[], g)), (door, key)))
  {
    SameFiles(h, g);
    ClassIsTheHoldersRows(h, door, key);
    ClassIsTheHoldersRows(g, door, key);
    if Carried(h, door, key) {
      NewestHolds(h, h, door, key);
      NewestHolds(h, g, door, key);
      CopiesCostTheSame(HolderFile(h, door, key).value, HolderFile(g, door, key).value, key);
    } else {
      NobodyHolds(h, h, door, key);
      NobodyHolds(h, g, door, key);
    }
  }

  lemma CopiesCostTheSame(a: Export, b: Export, key: string)
    requires HasKey(a, key) && HasKey(b, key) && Copies(a, key) == Copies(b, key)
    ensures Sum(KeyAmounts(a, key)) == Sum(KeyAmounts(b, key))
  {
    var x := LineWithKey(a, key);
    var y := LineWithKey(b, key);
    KeyTellsTheMoney(RowOf(a, x).call, RowOf(b, y).call);
    AllAlike(a, key, RowOf(a, x).call.micros);
    AllAlike(b, key, RowOf(b, y).call.micros);
  }

  lemma AllAlike(f: Export, key: string, micros: nat)
    requires exists o :: Holds(f, o) && CallKey(RowOf(f, o).call) == key && RowOf(f, o).call.micros == micros
    ensures Sum(KeyAmounts(f, key)) == Copies(f, key) * micros
  {
    var o :| Holds(f, o) && CallKey(RowOf(f, o).call) == key && RowOf(f, o).call.micros == micros;
    var rows := KeyAmounts(f, key);
    forall id | id in rows ensures rows[id] == micros {
      KeyTellsTheMoney(RowOf(f, id).call, RowOf(f, o).call);
    }
    SumConstant(rows, micros);
  }

  /** When no call is contested and every export repeats a call equally often, neither does the
      total billed depend on the order. */
  lemma TotalIsOrderFree(h: seq<Export>, g: seq<Export>)
    requires multiset(h) == multiset(g) && OneContent(h) && EquallyOften(h)
    requires forall door, key :: !Contested(h, door, key)
    ensures Billed(Run(map[], h)) == Billed(Run(map[], g))
  {
    var a, b := ByCall(Run(map[], h)), ByCall(Run(map[], g));
    forall c ensures Sum(ClassAmounts(a, c)) == Sum(ClassAmounts(b, c)) {
      MoneyOfACall(h, g, c.0, c.1);
    }
    SumsAgreeByClass(a, b);
  }
}
