/**
 What the order of the files does to the money of one call.

 A call is billed once for each of the two doors that still holds it.  Where its bytes are
 contested an order can cost it a door; whether it does is told exactly, call by call.
 */
module CallMoney {
  import opened Wrappers
  import opened Tables
  import opened CallLedger
  import opened CallHistory
  import opened CallOrder

  /** A file is read through one of the two folders. */
  predicate TwoDoors(h: seq<Export>) {
    forall f :: f in h ==> f.door == DOOR_MAIN || f.door == DOOR_OPENAI
  }

  ghost function ByKey(calls: Calls): map<RowId, Classified<string>> {
    map id | id in calls :: Classified(CallKey(calls[id].call), calls[id].call.micros)
  }

  /** Everything a call is billed, through whichever doors. */
  ghost function CallMoney(calls: Calls, key: string): int {
    Sum(ClassAmounts(ByKey(calls), key))
  }

  ghost function HeldMoney(w: Option<Export>, key: string): int {
    match w case None => 0 case Some(f) => Sum(KeyAmounts(f, key))
  }

  lemma StoredOnADoor(h: seq<Export>, id: RowId)
    requires OneContent(h) && TwoDoors(h) && id in Run(map[], h)
    ensures var door := DoorOf(Run(map[], h)[id]); door == DOOR_MAIN || door == DOOR_OPENAI
  {
    StoredIffHolderHas(h, id);
    var f :| KeptFromFile(h, id, f);
    assert f in h;
  }

  lemma DoorsPartition(t: Calls, key: string)
    requires forall id :: id in t ==> DoorOf(t[id]) == DOOR_MAIN || DoorOf(t[id]) == DOOR_OPENAI
    ensures CallMoney(t, key)
            == Sum(ClassAmounts(ByCall(t), (DOOR_MAIN, key))) + Sum(ClassAmounts(ByCall(t), (DOOR_OPENAI, key)))
  {
    assert DOOR_MAIN[0] != DOOR_OPENAI[0];
    SumPartition(ClassAmounts(ByKey(t), key), ClassAmounts(ByCall(t), (DOOR_MAIN, key)),
                 ClassAmounts(ByCall(t), (DOOR_OPENAI, key)));
  }

  /** A call is billed what the files holding it on the two doors say. */
  lemma MoneyIsHeld(h: seq<Export>, key: string)
    requires OneContent(h) && TwoDoors(h)
    ensures CallMoney(Run(map[], h), key)
            == HeldMoney(HolderFile(h, DOOR_MAIN, key), key) + HeldMoney(HolderFile(h, DOOR_OPENAI, key), key)
  {
    forall id | id in Run(map[], h)
      ensures var door := DoorOf(Run(map[], h)[id]); door == DOOR_MAIN || door == DOOR_OPENAI
    {
      StoredOnADoor(h, id);
    }
    DoorsPartition(Run(map[], h), key);
    HeldOnADoor(h, DOOR_MAIN, key);
    HeldOnADoor(h, DOOR_OPENAI, key);
  }

  lemma HeldOnADoor(h: seq<Export>, door: string, key: string)
    requires OneContent(h)
    ensures Sum(ClassAmounts(ByCall(Run(map[], h)), (door, key))) == HeldMoney(HolderFile(h, door, key), key)
  {
    ClassIsTheHoldersRows(h, door, key);
  }

  // ------------------------------------------------------------ one file's bytes alone

  predicate HasCall(f: Export, key: string) {
    f.complete && HasKey(f, key)
  }

  /** Whatever carries the call has the same bytes. */
  predicate OneHash(h: seq<Export>, key: string) {
    forall f, g :: f in h && g in h && HasCall(f, key) && HasCall(g, key) ==> f.sha == g.sha
  }

  predicate SameText(f: Export, g: Export) {
    f.sha == g.sha && f.lines == g.lines && f.header == g.header
  }

  lemma SameShaSameText(h: seq<Export>, f: Export, g: Export)
    requires OneContent(h) && f in h && g in h && f.sha == g.sha
    ensures SameText(f, g)
  {
    var i :| 0 <= i < |h| && h[i] == f;
    var j :| 0 <= j < |h| && h[j] == g;
  }

  lemma SameTextSameMoney(f: Export, g: Export, key: string)
    requires SameText(f, g)
    ensures KeyAmounts(f, key) == KeyAmounts(g, key)
  {
  }

  predicate Beside(a: Option<Export>, b: Option<Export>) {
    a.Some? != b.Some?
  }

  /** Bytes read through both doors are held on the one that read them last. */
  lemma {:induction false} OneHashOneHolder(h: seq<Export>, key: string)
    requires OneContent(h) && TwoDoors(h) && OneHash(h, key) && exists f :: f in h && HasCall(f, key)
    ensures Beside(HolderFile(h, DOOR_MAIN, key), HolderFile(h, DOOR_OPENAI, key))
  {
    var n := |h| - 1;
    var p, f := h[..n], h[n];
    assert h == p + [f];
    HolderFileAfter(p, f, DOOR_MAIN, key);
    HolderFileAfter(p, f, DOOR_OPENAI, key);
    HolderHasCall(p, DOOR_MAIN, key);
    HolderHasCall(p, DOOR_OPENAI, key);
    if HasCall(f, key) {
      LastTakesAll(h, HolderFile(p, DOOR_MAIN, key), f, DOOR_MAIN, key);
      LastTakesAll(h, HolderFile(p, DOOR_OPENAI, key), f, DOOR_OPENAI, key);
      assert DOOR_MAIN[0] != DOOR_OPENAI[0];
      assert f in h;
    } else {
      OneContentAmong(h, p);
      OneHashOneHolder(p, key);
      NobodyTakes(h, HolderFile(p, DOOR_MAIN, key), f, DOOR_MAIN, key);
      NobodyTakes(h, HolderFile(p, DOOR_OPENAI, key), f, DOOR_OPENAI, key);
    }
  }

  lemma HolderHasCall(h: seq<Export>, door: string, key: string)
    ensures var w := HolderFile(h, door, key); w.Some? ==> w.value in h && Carries(w.value, door, key)
  {
  }

  lemma LastTakesAll(h: seq<Export>, was: Option<Export>, f: Export, door: string, key: string)
    requires OneContent(h) && OneHash(h, key) && f in h && HasCall(f, key)
    requires was.Some? ==> was.value in h && Carries(was.value, door, key)
    ensures NextHolder(was, f, door, key).Some? <==> f.door == door
  {
    if was.Some? {
      SameShaSameText(h, was.value, f);
    }
  }

  lemma NobodyTakes(h: seq<Export>, was: Option<Export>, f: Export, door: string, key: string)
    requires OneContent(h) && f in h && !HasCall(f, key)
    requires was.Some? ==> was.value in h && Carries(was.value, door, key)
    ensures NextHolder(was, f, door, key) == was
  {
    if was.Some? && was.value.sha == f.sha {
      SameShaSameText(h, was.value, f);
    }
  }

  /** So its money is the same in every order. */
  lemma OneHashOneMoney(h: seq<Export>, f: Export, key: string)
    requires OneContent(h) && TwoDoors(h) && OneHash(h, key) && f in h && HasCall(f, key)
    ensures CallMoney(Run(map[], h), key) == Sum(KeyAmounts(f, key))
  {
    OneHashOneHolder(h, key);
    MoneyIsHeld(h, key);
    var door := if HolderFile(h, DOOR_MAIN, key).Some? then DOOR_MAIN else DOOR_OPENAI;
    HolderHasCall(h, door, key);
    SameShaSameText(h, HolderFile(h, door, key).value, f);
    SameTextSameMoney(HolderFile(h, door, key).value, f, key);
  }

  // ------------------------------------------------------------ two files and shared bytes

  function Other(door: string): string {
    if door == DOOR_MAIN then DOOR_OPENAI else DOOR_MAIN
  }

  ghost predicate BothHold(h: seq<Export>, key: string) {
    HolderFile(h, DOOR_MAIN, key).Some? && HolderFile(h, DOOR_OPENAI, key).Some?
  }

  lemma CarrierHolds(p: seq<Export>, f: Export, door: string, key: string)
    requires Carries(f, door, key)
    ensures var was, w := HolderFile(p, door, key), HolderFile(p + [f], door, key);
            w.Some? && (w == Some(f) || (w == was && Generation(f) < Generation(w.value)))
  {
    HolderFileAfter(p, f, door, key);
  }

  lemma OtherDoorStays(p: seq<Export>, f: Export, door: string, key: string)
    requires f.door != door
    ensures var was, w := HolderFile(p, door, key), HolderFile(p + [f], door, key);
            was.Some? && was.value.sha != f.sha ==> w == was
  {
    HolderFileAfter(p, f, door, key);
  }

  /** x is a newest file of its door, its bytes y are found under the other, and z carries the call
      with other bytes: one order leaves it on both doors. */
  lemma BothDoorsPossible(h: seq<Export>, rest: seq<Export>, x: Export, y: Export, z: Export, door: string, key: string)
    returns (kept: seq<Export>)
    requires OneContent(h) && TwoDoors(h) && Newest(h, x, door, key) && z in h && HasCall(z, key) && z.sha != x.sha
    requires y in h && y.sha == x.sha && Carries(y, Other(door), key) && (door == DOOR_MAIN || door == DOOR_OPENAI)
    requires multiset(rest) + multiset{x} + multiset{y} + multiset{z} == multiset(h)
    ensures multiset(kept) == multiset(h) && BothHold(kept, key)
  {
    assert DOOR_MAIN[0] != DOOR_OPENAI[0];
    if z.door == door {
      kept := rest + [x] + [y] + [z];
      SameFiles(h, kept);
      CarrierHolds(rest + [x], y, Other(door), key);
      CarrierHolds(rest + [x] + [y], z, door, key);
      var w := HolderFile(rest + [x] + [y], Other(door), key);
      HolderHasCall(rest + [x] + [y], Other(door), key);
      assert w.value in h;
      NotTheNewer(h, w.value, x, y, z, door, key);
      OtherDoorStays(rest + [x] + [y], z, Other(door), key);
    } else {
      kept := rest + [y] + [x] + [z];
      SameFiles(h, kept);
      NewestTakes(h, rest + [y], x, door, key);
      OtherDoorStays(rest + [y] + [x], z, door, key);
      CarrierHolds(rest + [y] + [x], z, Other(door), key);
    }
  }

  /** What holds the call on the other door after y is no newer copy of z, z being no newer than x. */
  lemma NotTheNewer(h: seq<Export>, w: Export, x: Export, y: Export, z: Export, door: string, key: string)
    requires OneContent(h) && Newest(h, x, door, key) && y in h && y.sha == x.sha && z in h && z.sha != x.sha
    requires Carries(z, door, key) && w in h && (w == y || Generation(y) < Generation(w))
    ensures w.sha != z.sha
  {
    SameShaSameText(h, x, y);
    if w.sha == z.sha {
      SameShaSameText(h, w, z);
    }
  }

  lemma OneDoorPossible(h: seq<Export>, rest: seq<Export>, x: Export, y: Export, door: string, key: string)
    returns (lost: seq<Export>)
    requires Newest(h, x, door, key) && TakenBy(y, x.sha, door) && Carries(y, Other(door), key)
    requires multiset(rest) + multiset{x} + multiset{y} == multiset(h) && (door == DOOR_MAIN || door == DOOR_OPENAI)
    ensures multiset(lost) == multiset(h)
    ensures HolderFile(lost, door, key) == None && HolderFile(lost, Other(door), key).Some?
  {
    lost := rest + [x] + [y];
    SameFiles(h, lost);
    NewestTakes(h, rest, x, door, key);
    HolderFileAfter(rest + [x], y, door, key);
    CarrierHolds(rest + [x], y, Other(door), key);
  }

  // ------------------------------------------------------------ the exact condition

  /** The order cannot change what a call is billed: its newest bytes lie under one door each, or
      all that carries it has the same bytes. */
  ghost predicate Steady(h: seq<Export>, key: string) {
    || (!Contested(h, DOOR_MAIN, key) && !Contested(h, DOOR_OPENAI, key))
    || OneHash(h, key)
  }

  ghost predicate Free(h: seq<Export>, key: string) {
    forall f, id :: f in h && f.complete && id in KeyAmounts(f, key) ==> KeyAmounts(f, key)[id] == 0
  }

  lemma FreeHoldsNothing(h: seq<Export>, door: string, key: string)
    requires Free(h, key)
    ensures HeldMoney(HolderFile(h, door, key), key) == 0
  {
    HolderHasCall(h, door, key);
    var w := HolderFile(h, door, key);
    if w.Some? {
      SumConstant(KeyAmounts(w.value, key), 0);
    }
  }

  lemma SteadyMoney(h: seq<Export>, g: seq<Export>, key: string)
    requires multiset(g) == multiset(h) && OneContent(h) && TwoDoors(h) && EquallyOften(h)
    requires Steady(h, key) || Free(h, key)
    ensures CallMoney(Run(map[], g), key) == CallMoney(Run(map[], h), key)
  {
    SameFiles(h, g);
    if !Contested(h, DOOR_MAIN, key) && !Contested(h, DOOR_OPENAI, key) {
      MoneyIsHeld(h, key);
      MoneyIsHeld(g, key);
      UncontestedMoney(h, g, DOOR_MAIN, key);
      UncontestedMoney(h, g, DOOR_OPENAI, key);
    } else if Free(h, key) {
      FreeMoney(h, key);
      FreeMoney(g, key);
    } else {
      var f := SomebodyHas(h, key);
      OneHashOneMoney(h, f, key);
      OneHashOneMoney(g, f, key);
    }
  }

  lemma SomebodyHas(h: seq<Export>, key: string) returns (f: Export)
    requires Contested(h, DOOR_MAIN, key) || Contested(h, DOOR_OPENAI, key)
    ensures f in h && HasCall(f, key)
  {
    var door := if Contested(h, DOOR_MAIN, key) then DOOR_MAIN else DOOR_OPENAI;
    var y: Export;
    f, y :| Newest(h, f, door, key) && y in h && TakenBy(y, f.sha, door);
  }

  lemma FreeMoney(h: seq<Export>, key: string)
    requires OneContent(h) && TwoDoors(h) && Free(h, key)
    ensures CallMoney(Run(map[], h), key) == 0
  {
    MoneyIsHeld(h, key);
    FreeHoldsNothing(h, DOOR_MAIN, key);
    FreeHoldsNothing(h, DOOR_OPENAI, key);
  }

  lemma UncontestedMoney(h: seq<Export>, g: seq<Export>, door: string, key: string)
    requires multiset(g) == multiset(h) && OneContent(h) && OneContent(g) && EquallyOften(h) && !Contested(h, door, key)
    ensures HeldMoney(HolderFile(g, door, key), key) == HeldMoney(HolderFile(h, door, key), key)
  {
    MoneyOfACall(h, g, door, key);
    HeldOnADoor(h, door, key);
    HeldOnADoor(g, door, key);
  }

  lemma PositiveProduct(a: int, b: int)
    requires a > 0 && b > 0
    ensures a * b > 0
  {
  }

  lemma CopiesCost(f: Export, o: RowId, key: string)
    requires Holds(f, o) && CallKey(RowOf(f, o).call) == key && RowOf(f, o).call.micros > 0
    ensures Sum(KeyAmounts(f, key)) > 0
  {
    AllAlike(f, key, RowOf(f, o).call.micros);
    assert o in KeyAmounts(f, key);
    PositiveProduct(Copies(f, key), RowOf(f, o).call.micros);
  }

  lemma CostedRow(h: seq<Export>, key: string) returns (g: Export, id: RowId)
    requires !Free(h, key)
    ensures Holds(g, id) && CallKey(RowOf(g, id).call) == key && RowOf(g, id).call.micros > 0
  {
    g, id :| g in h && g.complete && id in KeyAmounts(g, key) && KeyAmounts(g, key)[id] != 0;
  }

  /** A file with the call bills it something where the call costs anything at all. */
  lemma CostsSomething(h: seq<Export>, f: Export, key: string)
    requires !Free(h, key) && HasCall(f, key)
    ensures Sum(KeyAmounts(f, key)) > 0
  {
    var g, id := CostedRow(h, key);
    var o := LineWithKey(f, key);
    KeyTellsTheMoney(RowOf(g, id).call, RowOf(f, o).call);
    CopiesCost(f, o, key);
  }

  /** Contested bytes beside others make the order count: one order leaves the call on both doors,
      another on one. */
  lemma OrderCounts(h: seq<Export>, door: string, key: string) returns (kept: seq<Export>, lost: seq<Export>)
    requires OneContent(h) && TwoDoors(h) && (door == DOOR_MAIN || door == DOOR_OPENAI)
    requires Contested(h, door, key) && !OneHash(h, key)
    ensures multiset(kept) == multiset(h) == multiset(lost) && BothHold(kept, key)
    ensures HolderFile(lost, door, key) == None && HolderFile(lost, Other(door), key).Some?
  {
    var x, y := ContestedBy(h, door, key);
    var z := WithOtherBytes(h, x, key);
    var q, rest := TakenOut(h, x, y, z);
    lost := OneDoorPossible(h, q, x, y, door, key);
    kept := BothDoorsPossible(h, rest, x, y, z, door, key);
  }

  lemma ContestedBy(h: seq<Export>, door: string, key: string) returns (x: Export, y: Export)
    requires OneContent(h) && TwoDoors(h) && Contested(h, door, key) && (door == DOOR_MAIN || door == DOOR_OPENAI)
    ensures Newest(h, x, door, key) && y in h && TakenBy(y, x.sha, door) && x != y
    ensures Carries(y, Other(door), key)
  {
    x, y :| Newest(h, x, door, key) && y in h && TakenBy(y, x.sha, door);
    SameShaSameText(h, x, y);
  }

  lemma TakenOut(h: seq<Export>, x: Export, y: Export, z: Export) returns (q: seq<Export>, rest: seq<Export>)
    requires x in h && y in h && z in h && x != y && z != x && z != y
    ensures multiset(q) + multiset{x} + multiset{y} == multiset(h)
    ensures multiset(rest) + multiset{x} + multiset{y} + multiset{z} == multiset(h)
  {
    var p := WithoutOne(h, x);
    StillThere(h, p, x, y);
    q := WithoutOne(p, y);
    StillThere(h, p, x, z);
    StillThere(p, q, y, z);
    rest := WithoutOne(q, z);
  }

  lemma StillThere(h: seq<Export>, p: seq<Export>, x: Export, y: Export)
    requires multiset(p) + multiset{x} == multiset(h) && y in h && y != x
    ensures y in p
  {
    assert y in multiset(h);
    assert y in multiset(p);
  }

  lemma WithOtherBytes(h: seq<Export>, x: Export, key: string) returns (z: Export)
    requires !OneHash(h, key)
    ensures z in h && HasCall(z, key) && z.sha != x.sha
  {
    var f, g :| f in h && g in h && HasCall(f, key) && HasCall(g, key) && f.sha != g.sha;
    z := if f.sha != x.sha then f else g;
  }

  /** What a call is billed is the same in every order of the files if and only if it costs nothing,
      its newest bytes are not found under both doors, or nothing else carries it. */
  lemma MoneyIsOrderFreeIff(h: seq<Export>, key: string)
    requires OneContent(h) && TwoDoors(h) && EquallyOften(h)
    ensures (forall g :: multiset(g) == multiset(h) ==> CallMoney(Run(map[], g), key) == CallMoney(Run(map[], h), key))
            <==> Steady(h, key) || Free(h, key)
  {
    if Steady(h, key) || Free(h, key) {
      forall g | multiset(g) == multiset(h) ensures CallMoney(Run(map[], g), key) == CallMoney(Run(map[], h), key) {
        SteadyMoney(h, g, key);
      }
    } else {
      var a, b := OrdersDiffer(h, key);
      assert CallMoney(Run(map[], a), key) != CallMoney(Run(map[], b), key);
    }
  }

  lemma OrdersDiffer(h: seq<Export>, key: string) returns (kept: seq<Export>, lost: seq<Export>)
    requires OneContent(h) && TwoDoors(h) && EquallyOften(h) && !Steady(h, key) && !Free(h, key)
    ensures multiset(kept) == multiset(h) == multiset(lost)
    ensures CallMoney(Run(map[], kept), key) > CallMoney(Run(map[], lost), key)
  {
    var door := if Contested(h, DOOR_MAIN, key) then DOOR_MAIN else DOOR_OPENAI;
    kept, lost := OrderCounts(h, door, key);
    SameFiles(h, kept);
    SameFiles(h, lost);
    MoneyIsHeld(kept, key);
    MoneyIsHeld(lost, key);
    OneDoorMore(h, kept, lost, door, key);
  }

  lemma OneDoorMore(h: seq<Export>, kept: seq<Export>, lost: seq<Export>, door: string, key: string)
    requires EquallyOften(h) && !Free(h, key) && (door == DOOR_MAIN || door == DOOR_OPENAI)
    requires forall f :: (f in kept ==> f in h) && (f in lost ==> f in h)
    requires BothHold(kept, key)
    requires HolderFile(lost, door, key) == None && HolderFile(lost, Other(door), key).Some?
    ensures HeldMoney(HolderFile(kept, door, key), key) > HeldMoney(HolderFile(lost, door, key), key)
    ensures HeldMoney(HolderFile(kept, Other(door), key), key) == HeldMoney(HolderFile(lost, Other(door), key), key)
  {
    var a, b, c := HolderFile(kept, door, key), HolderFile(kept, Other(door), key), HolderFile(lost, Other(door), key);
    HolderHasCall(kept, door, key);
    HolderHasCall(kept, Other(door), key);
    HolderHasCall(lost, Other(door), key);
    CostsSomething(h, a.value, key);
    EqualOnADoor(h, b.value, c.value, Other(door), key);
  }

  lemma EqualOnADoor(h: seq<Export>, a: Export, b: Export, door: string, key: string)
    requires EquallyOften(h) && a in h && b in h && Carries(a, door, key) && Carries(b, door, key)
    ensures Sum(KeyAmounts(a, key)) == Sum(KeyAmounts(b, key))
  {
    var i :| 0 <= i < |h| && h[i] == a;
    var j :| 0 <= j < |h| && h[j] == b;
    CopiesCostTheSame(a, b, key);
  }

  /** And with every call so, neither does the total billed depend on the order. */
  lemma TotalIsOrderFreeCallByCall(h: seq<Export>, g: seq<Export>)
    requires multiset(g) == multiset(h) && OneContent(h) && TwoDoors(h) && EquallyOften(h)
    requires forall key :: Steady(h, key) || Free(h, key)
    ensures Billed(Run(map[], g)) == Billed(Run(map[], h))
  {
    var a, b := Run(map[], g), Run(map[], h);
    forall key ensures Sum(ClassAmounts(ByKey(a), key)) == Sum(ClassAmounts(ByKey(b), key)) {
      SteadyMoney(h, g, key);
    }
    SumsAgreeByClass(ByKey(a), ByKey(b));
    assert Amounts(ByKey(a)) == Amounts(ByCall(a)) && Amounts(ByKey(b)) == Amounts(ByCall(b));
  }
}
