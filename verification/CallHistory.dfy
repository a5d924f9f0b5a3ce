/**
 What the call ledger promises over whole histories of imports: one file per call, an import
 after which the next of the same folders changes nothing, and exactly when it is the first.
 */
module CallHistory {
  import opened Wrappers
  import opened CallLedger

  /** The file a call is kept from. */
  function HolderFile(h: seq<Export>, door: string, key: string): Option<Export> {
    var w := Holder(h, door, key);
    if w.Some? then Some(h[w.value]) else None
  }

  /** A row is stored exactly when the file its call is kept from has it. */
  lemma StoredIffHolderHas(h: seq<Export>, id: RowId)
    requires OneContent(h)
    ensures id in Run(map[], h) <==> exists f :: KeptFromFile(h, id, f)
    ensures forall f :: KeptFromFile(h, id, f) ==> Run(map[], h)[id] == RowOf(f, id)
  {
    LedgerIsExactlyTheHistory(h);
    assert AsHistory(Run(map[], h), h, id);
    if id in Run(map[], h) {
      var j :| 0 <= j < |h| && SurvivesFrom(h, id, j);
      assert KeptFromFile(h, id, h[j]);
    }
    forall f | KeptFromFile(h, id, f)
      ensures id in Run(map[], h) && Run(map[], h)[id] == RowOf(f, id)
    {
      var i := Holder(h, f.door, CallKey(RowOf(f, id).call)).value;
      assert SurvivesFrom(h, id, i);
      var j :| 0 <= j < |h| && SurvivesFrom(h, id, j) && Run(map[], h)[id] == RowOf(h[j], id);
      OneSurvivor(h, id, i, j);
    }
  }

  ghost predicate KeptFromFile(h: seq<Export>, id: RowId, f: Export) {
    Holds(f, id) && HolderFile(h, f.door, CallKey(RowOf(f, id).call)) == Some(f)
  }

  ghost predicate StoredFor(calls: Calls, id: RowId, door: string, key: string) {
    id in calls && DoorOf(calls[id]) == door && CallKey(calls[id].call) == key
  }

  /** Rows of one call on one door come from one file, the one that holds it. */
  lemma OneFilePerCall(h: seq<Export>, id: RowId, door: string, key: string)
    requires OneContent(h) && StoredFor(Run(map[], h), id, door, key)
    ensures Holder(h, door, key).Some?
    ensures id.sha == h[Holder(h, door, key).value].sha
    ensures OneDoor(h) ==> LatestOfNewest(h, door, key, Holder(h, door, key).value)
  {
    StoredIffHolderHas(h, id);
    var f :| KeptFromFile(h, id, f);
    if OneDoor(h) {
      HolderIsLatestOfNewest(h, door, key);
    }
  }

  /** A call is on a door exactly when some read holds it there. */
  lemma CallIsOnDoor(h: seq<Export>, door: string, key: string)
    requires OneContent(h)
    ensures (exists id :: StoredFor(Run(map[], h), id, door, key)) <==> Holder(h, door, key).Some?
  {
    if exists id :: StoredFor(Run(map[], h), id, door, key) {
      var id :| StoredFor(Run(map[], h), id, door, key);
      OneFilePerCall(h, id, door, key);
    }
    var w := Holder(h, door, key);
    if w.Some? {
      var id := LineWithKey(h[w.value], key);
      assert KeptFromFile(h, id, h[w.value]);
      StoredIffHolderHas(h, id);
      assert StoredFor(Run(map[], h), id, door, key);
    }
  }

  lemma SameHoldersSameTable(h: seq<Export>, g: seq<Export>)
    requires OneContent(h) && OneContent(g)
    requires forall door, key :: HolderFile(h, door, key) == HolderFile(g, door, key)
    ensures Run(map[], h) == Run(map[], g)
  {
    forall id
      ensures id in Run(map[], h) <==> id in Run(map[], g)
      ensures id in Run(map[], h) ==> Run(map[], h)[id] == Run(map[], g)[id]
    {
      StoredIffHolderHas(h, id);
      StoredIffHolderHas(g, id);
      forall f ensures KeptFromFile(h, id, f) <==> KeptFromFile(g, id, f) {
      }
      if id in Run(map[], h) {
        var f :| KeptFromFile(h, id, f);
        assert KeptFromFile(g, id, f);
      }
      if id in Run(map[], g) {
        var f :| KeptFromFile(g, id, f);
        assert KeptFromFile(h, id, f);
      }
    }
  }

  /** Files of one history say the same under the same hash, whichever of them are looked at. */
  lemma OneContentAmong(h: seq<Export>, g: seq<Export>)
    requires OneContent(h) && forall i :: 0 <= i < |g| ==> g[i] in h
    ensures OneContent(g)
  {
  }

  /** And the table tells who holds each call. */
  lemma SameTableSameHolders(h: seq<Export>, g: seq<Export>, door: string, key: string)
    requires OneContent(h + g) && Run(map[], h) == Run(map[], g)
    ensures HolderFile(h, door, key) == HolderFile(g, door, key)
  {
    if HolderFile(h, door, key).Some? {
      HeldAlike(h, g, door, key);
    } else if HolderFile(g, door, key).Some? {
      OneContentAmong(h + g, g + h);
      HeldAlike(g, h, door, key);
    }
  }

  lemma HeldAlike(h: seq<Export>, g: seq<Export>, door: string, key: string)
    requires OneContent(h + g) && Run(map[], h) == Run(map[], g) && HolderFile(h, door, key).Some?
    ensures HolderFile(g, door, key) == HolderFile(h, door, key)
  {
    var all := h + g;
    OneContentAmong(all, h);
    OneContentAmong(all, g);
    var i := Holder(h, door, key).value;
    var id := LineWithKey(h[i], key);
    StoredIffHolderHas(h, id);
    StoredIffHolderHas(g, id);
    assert KeptFromFile(h, id, h[i]);
    var f :| KeptFromFile(g, id, f);
    assert HolderFile(g, door, key) == Some(f);
    var j := Holder(g, door, key).value;
    assert all[i] == h[i] && all[|h| + j] == g[j];
  }

  // ------------------------------------------------------- importing again

  /** The holder as a register that every file read may clear or take. */
  function NextHolder(was: Option<Export>, f: Export, door: string, key: string): Option<Export> {
    var w := if was.Some? && TakenBy(f, was.value.sha, door) then None else was;
    if Carries(f, door, key) && (w.None? || Generation(w.value) <= Generation(f)) then Some(f) else w
  }

  function HolderFrom(was: Option<Export>, files: seq<Export>, door: string, key: string): Option<Export> {
    if files == [] then was
    else NextHolder(HolderFrom(was, files[..|files| - 1], door, key), files[|files| - 1], door, key)
  }

  lemma HolderFileAfter(p: seq<Export>, f: Export, door: string, key: string)
    ensures HolderFile(p + [f], door, key) == NextHolder(HolderFile(p, door, key), f, door, key)
  {
    HolderAfter(p, f, door, key);
  }

  lemma {:induction false} HolderFolds(h: seq<Export>, files: seq<Export>, door: string, key: string)
    ensures HolderFile(h + files, door, key) == HolderFrom(HolderFile(h, door, key), files, door, key)
  {
    if files == [] {
      assert h + files == h;
    } else {
      var n := |files| - 1;
      HolderFolds(h, files[..n], door, key);
      assert h + files == h + files[..n] + [files[n]];
      HolderFileAfter(h + files[..n], files[n], door, key);
    }
  }

  lemma HolderAlone(files: seq<Export>, door: string, key: string)
    ensures HolderFile(files, door, key) == HolderFrom(None, files, door, key)
  {
    assert [] + files == files;
    HolderFolds([], files, door, key);
  }

  lemma {:induction false} HolderFromConcat(was: Option<Export>, a: seq<Export>, b: seq<Export>, door: string,
                                            key: string)
    ensures HolderFrom(was, a + b, door, key) == HolderFrom(HolderFrom(was, a, door, key), b, door, key)
  {
    if b == [] {
      assert a + b == a;
    } else {
      var n := |b| - 1;
      HolderFromConcat(was, a, b[..n], door, key);
      assert (a + b)[..|a + b| - 1] == a + b[..n];
    }
  }

  predicate AtMost(w: Option<Export>, gen: nat) {
    w.Some? ==> Generation(w.value) <= gen
  }

  /** Whoever held a call before, reads of the same files end alike once one of them carries
      the call from an export as new as both. */
  lemma {:induction false} TracesMeet(a: Option<Export>, b: Option<Export>, files: seq<Export>, door: string,
                                      key: string, gen: nat)
    requires AtMost(a, gen) && AtMost(b, gen)
    ensures var x, y := HolderFrom(a, files, door, key), HolderFrom(b, files, door, key);
            || x == y
            || (AtMost(x, gen) && AtMost(y, gen)
                && forall i :: 0 <= i < |files| && Carries(files[i], door, key) ==> Generation(files[i]) < gen)
  {
    if files != [] {
      var n := |files| - 1;
      TracesMeet(a, b, files[..n], door, key, gen);
      assert forall i :: 0 <= i < n ==> files[..n][i] == files[i];
      var x, y := HolderFrom(a, files[..n], door, key), HolderFrom(b, files[..n], door, key);
      OneReadMeets(x, y, files[n], door, key, gen);
    }
  }

  lemma OneReadMeets(a: Option<Export>, b: Option<Export>, f: Export, door: string, key: string, gen: nat)
    requires a == b || (AtMost(a, gen) && AtMost(b, gen))
    ensures var x, y := NextHolder(a, f, door, key), NextHolder(b, f, door, key);
            x == y || (AtMost(x, gen) && AtMost(y, gen) && (Carries(f, door, key) ==> Generation(f) < gen))
  {
  }

  /** The holder is the one before, or nobody, or a file of the folder. */
  lemma {:induction false} HolderComesFrom(was: Option<Export>, files: seq<Export>, door: string, key: string)
    ensures var w := HolderFrom(was, files, door, key);
            w == was || w.None? || (w.value in files && Carries(w.value, door, key))
  {
    if files != [] {
      HolderComesFrom(was, files[..|files| - 1], door, key);
      assert forall f :: f in files[..|files| - 1] ==> f in files;
    }
  }

  /** Reading a folder again leaves a call where it was if the first reading did, and otherwise
      where the folder alone puts it. */
  lemma ReadAgain(was: Option<Export>, files: seq<Export>, door: string, key: string)
    ensures var w := HolderFrom(was, files, door, key);
            HolderFrom(w, files, door, key) == if w == was then w else HolderFrom(None, files, door, key)
  {
    var w := HolderFrom(was, files, door, key);
    HolderComesFrom(was, files, door, key);
    if w != was && w.Some? {
      TracesMeet(w, None, files, door, key, Generation(w.value));
    }
  }

  /** From an empty store, importing the same folders twice leaves the ledger as the first
      import left it, bytes shared between doors or not. */
  lemma ImportTwiceFromEmpty(folder: seq<Export>)
    requires OneContent(folder)
    ensures Run(map[], folder + folder) == Run(map[], folder)
  {
    OneContentAmong(folder, folder + folder);
    forall door, key ensures HolderFile(folder + folder, door, key) == HolderFile(folder, door, key) {
      HolderAlone(folder, door, key);
      HolderFolds(folder, folder, door, key);
      ReadAgain(None, folder, door, key);
    }
    SameHoldersSameTable(folder + folder, folder);
  }

  /** Whatever was imported before, the third import of the same folders changes nothing. */
  lemma ThirdImportChangesNothing(h: seq<Export>, folder: seq<Export>)
    requires OneContent(h + folder)
    ensures Run(map[], h + folder + folder + folder) == Run(map[], h + folder + folder)
  {
    var twice := h + folder + folder;
    OneContentAmong(h + folder, twice);
    OneContentAmong(h + folder, twice + folder);
    forall door, key ensures HolderFile(twice + folder, door, key) == HolderFile(twice, door, key) {
      var was := HolderFile(h, door, key);
      HolderFolds(h, folder, door, key);
      HolderFolds(h + folder, folder, door, key);
      HolderFolds(twice, folder, door, key);
      ReadAgain(was, folder, door, key);
      ReadAgain(None, folder, door, key);
    }
    SameHoldersSameTable(twice + folder, twice);
  }

  predicate FirstTaker(files: seq<Export>, i: nat, sha: string, door: string) {
    i < |files| && TakenBy(files[i], sha, door) && forall j :: 0 <= j < i ==> !TakenBy(files[j], sha, door)
  }

  /** No file of these carries the call from an export as new as x. */
  predicate AllOlder(files: seq<Export>, x: Export, door: string, key: string) {
    forall i :: 0 <= i < |files| && Carries(files[i], door, key) ==> Generation(files[i]) < Generation(x)
  }

  /** The file that held a call is newer than any the folder has for it, its bytes are found in
      the other door's folder, and what is read after them leaves the call elsewhere than the
      whole folder would. */
  ghost predicate Unsettled(was: Option<Export>, folder: seq<Export>, door: string, key: string) {
    && was.Some?
    && AllOlder(folder, was.value, door, key)
    && exists i :: FirstTaker(folder, i, was.value.sha, door)
                   && HolderFile(folder[i + 1..], door, key) != HolderFile(folder, door, key)
  }

  lemma {:induction false} HeldUntilTaken(x: Export, files: seq<Export>, door: string, key: string)
    requires AllOlder(files, x, door, key)
    requires forall i :: 0 <= i < |files| ==> !TakenBy(files[i], x.sha, door)
    ensures HolderFrom(Some(x), files, door, key) == Some(x)
  {
    if files != [] {
      var n := |files| - 1;
      assert forall i :: 0 <= i < n ==> files[..n][i] == files[i];
      HeldUntilTaken(x, files[..n], door, key);
    }
  }

  lemma {:induction false} TakerOrNone(files: seq<Export>, sha: string, door: string) returns (i: nat)
    ensures FirstTaker(files, i, sha, door) || forall j :: 0 <= j < |files| ==> !TakenBy(files[j], sha, door)
  {
    i := 0;
    while i < |files| && !TakenBy(files[i], sha, door)
      invariant i <= |files| && forall j :: 0 <= j < i ==> !TakenBy(files[j], sha, door)
    {
      i := i + 1;
    }
  }

  /** Once its bytes are taken, what is read after them decides. */
  lemma AfterTheTaker(x: Export, files: seq<Export>, i: nat, door: string, key: string)
    requires AllOlder(files, x, door, key)
    requires FirstTaker(files, i, x.sha, door)
    ensures HolderFrom(Some(x), files, door, key) == HolderFile(files[i + 1..], door, key)
  {
    var p, rest := files[..i], files[i + 1..];
    HeldUntilTaken(x, p, door, key);
    assert (p + [files[i]])[..i] == p;
    assert HolderFrom(Some(x), p + [files[i]], door, key) == None;
    HolderFromConcat(Some(x), p + [files[i]], rest, door, key);
    assert files == p + [files[i]] + rest;
    HolderAlone(rest, door, key);
  }

  /** A second reading moves a call exactly when the first left it unsettled. */
  lemma SecondReadMovesIff(was: Option<Export>, folder: seq<Export>, door: string, key: string)
    ensures var once := HolderFrom(was, folder, door, key);
            HolderFrom(once, folder, door, key) != once <==> Unsettled(was, folder, door, key)
  {
    var once := HolderFrom(was, folder, door, key);
    ReadAgain(was, folder, door, key);
    HolderAlone(folder, door, key);
    if was.Some? {
      var x := was.value;
      TracesMeet(was, None, folder, door, key, Generation(x));
      if AllOlder(folder, x, door, key) {
        OldFolder(x, folder, door, key);
      }
    }
  }

  lemma OldFolder(x: Export, folder: seq<Export>, door: string, key: string)
    requires AllOlder(folder, x, door, key)
    ensures var once := HolderFrom(Some(x), folder, door, key);
            once != Some(x) && once != HolderFile(folder, door, key) <==> Unsettled(Some(x), folder, door, key)
  {
    var i := TakerOrNone(folder, x.sha, door);
    if FirstTaker(folder, i, x.sha, door) {
      AfterTheTaker(x, folder, i, door, key);
      OlderThan(x, folder, i + 1, door, key);
      OnlyFirstTaker(x, folder, i, door, key);
    } else {
      HeldUntilTaken(x, folder, door, key);
    }
  }

  lemma OnlyFirstTaker(x: Export, folder: seq<Export>, i: nat, door: string, key: string)
    requires AllOlder(folder, x, door, key) && FirstTaker(folder, i, x.sha, door)
    ensures Unsettled(Some(x), folder, door, key)
            <==> HolderFile(folder[i + 1..], door, key) != HolderFile(folder, door, key)
  {
    forall j | FirstTaker(folder, j, x.sha, door) ensures j == i {
    }
  }

  lemma OlderThan(x: Export, folder: seq<Export>, n: nat, door: string, key: string)
    requires n <= |folder|
    requires AllOlder(folder, x, door, key)
    ensures HolderFile(folder[n..], door, key) != Some(x)
  {
    var w := Holder(folder[n..], door, key);
    if w.Some? {
      assert folder[n..][w.value] == folder[n + w.value];
    }
  }

  /** Importing the same folders a second time changes nothing if and only if the first import
      left no call unsettled; with every hash read through one door it never does. */
  lemma SecondImportChangesNothingIff(h: seq<Export>, folder: seq<Export>)
    requires OneContent(h + folder)
    ensures Run(map[], h + folder + folder) == Run(map[], h + folder)
            <==> forall door, key :: !Unsettled(HolderFile(h, door, key), folder, door, key)
    ensures OneDoor(h + folder) ==> Run(map[], h + folder + folder) == Run(map[], h + folder)
  {
    var once, twice := h + folder, h + folder + folder;
    OneContentAmong(once, twice);
    OneContentAmong(once, twice + once);
    forall door, key
      ensures HolderFile(twice, door, key) == HolderFile(once, door, key)
              <==> !Unsettled(HolderFile(h, door, key), folder, door, key)
      ensures OneDoor(once) ==> !Unsettled(HolderFile(h, door, key), folder, door, key)
    {
      HolderFolds(h, folder, door, key);
      HolderFolds(once, folder, door, key);
      SecondReadMovesIff(HolderFile(h, door, key), folder, door, key);
      if OneDoor(once) {
        NoTakerWithOneDoor(h, folder, door, key);
      }
    }
    if Run(map[], twice) == Run(map[], once) {
      forall door, key ensures HolderFile(twice, door, key) == HolderFile(once, door, key) {
        SameTableSameHolders(twice, once, door, key);
      }
    }
    if forall door, key :: !Unsettled(HolderFile(h, door, key), folder, door, key) {
      SameHoldersSameTable(twice, once);
    }
  }

  lemma NoTakerWithOneDoor(h: seq<Export>, folder: seq<Export>, door: string, key: string)
    requires OneDoor(h + folder)
    ensures !Unsettled(HolderFile(h, door, key), folder, door, key)
  {
    var was, all := HolderFile(h, door, key), h + folder;
    if was.Some? {
      var i := Holder(h, door, key).value;
      forall j | 0 <= j < |folder| ensures !TakenBy(folder[j], was.value.sha, door) {
        assert all[i] == h[i] && all[|h| + j] == folder[j];
      }
    }
  }

  // ------------------------------------ the same bytes through two doors

  /** A one-call export of generation 1, or of generation 0 under another hash. */
  function OneCall(newer: bool, door: string): Export {
    var keyId := if newer then Some("") else None;
    Export(if newer then "newer" else "older", door, Header(newer, false, false, false),
           [Accepted(Call("2026-09-01T00:00:00Z", "2026-09-01", "", "agent", "run", "OpenAI", "model",
                          1, 1, 1, false, "", keyId, None, None, None))],
           true)
  }

  lemma OneCallCarries(newer: bool, door: string)
    ensures var f := OneCall(newer, door);
            WellFormed(f) && Carries(f, door, CallKey(OneCall(true, DOOR_MAIN).lines[0].call))
  {
    var f := OneCall(newer, door);
    assert f.lines[0].Accepted?;
    assert CallKeyHead(f.lines[0].call) == CallKeyHead(OneCall(true, DOOR_MAIN).lines[0].call);
  }

  /** The upsert overwrites the door: bytes found in both doors' folders are left on the
      second alone, and the call the main folder carried is on its door no longer. */
  lemma SharedBytesLeaveOneDoor() returns (h: seq<Export>, key: string)
    ensures OneContent(h) && !OneDoor(h)
    ensures Carries(h[0], DOOR_MAIN, key) && !exists id :: StoredFor(Run(map[], h), id, DOOR_MAIN, key)
  {
    var f, g := OneCall(true, DOOR_MAIN), OneCall(true, DOOR_OPENAI);
    h, key := [f] + [g], CallKey(f.lines[0].call);
    OneCallCarries(true, DOOR_MAIN);
    OneCallCarries(true, DOOR_OPENAI);
    TakenAway(f, g, DOOR_MAIN, key);
    assert OneContent(h) && !OneDoor(h) by {
      assert h[0] == f && h[1] == g;
    }
    CallIsOnDoor(h, DOOR_MAIN, key);
  }

  lemma TakenAway(f: Export, g: Export, door: string, key: string)
    requires Carries(f, door, key) && TakenBy(g, f.sha, door)
    ensures HolderFile([f] + [g], door, key) == None
  {
    FirstHolder(f, door, key);
    HolderFileAfter([f], g, door, key);
  }

  /** x was read on the main door; then c stays there while x's bytes are found in the other
      door's folder. */
  lemma HoldersAfterAMove(x: Export, c: Export, y: Export, key: string)
    requires Carries(x, DOOR_MAIN, key) && Carries(c, DOOR_MAIN, key) && Carries(y, DOOR_OPENAI, key)
    requires x.sha == y.sha && c.sha != x.sha && Generation(c) < Generation(x)
    ensures HolderFile([x] + [c] + [y], DOOR_MAIN, key) == None
    ensures HolderFile([x] + [c] + [y] + [c] + [y], DOOR_MAIN, key) == Some(c)
  {
    FirstHolder(x, DOOR_MAIN, key);
    HolderFileAfter([x], c, DOOR_MAIN, key);
    HolderFileAfter([x] + [c], y, DOOR_MAIN, key);
    AfterTheMove([x] + [c] + [y], c, y, key);
  }

  lemma FirstHolder(x: Export, door: string, key: string)
    ensures HolderFile([x], door, key) == NextHolder(None, x, door, key)
  {
    HolderFileAfter([], x, door, key);
    assert [] + [x] == [x];
  }

  lemma AfterTheMove(h: seq<Export>, c: Export, y: Export, key: string)
    requires HolderFile(h, DOOR_MAIN, key) == None && Carries(c, DOOR_MAIN, key)
    requires Carries(y, DOOR_OPENAI, key) && y.sha != c.sha
    ensures HolderFile(h + [c] + [y], DOOR_MAIN, key) == Some(c)
  {
    HolderFileAfter(h, c, DOOR_MAIN, key);
    HolderFileAfter(h + [c], y, DOOR_MAIN, key);
  }

  /** A newer export moved to the other door's folder has already displaced the older copy
      that stays behind: the first import after the move leaves the call on no row of the
      old door, and only a second import of the same folders brings it back. */
  lemma MovedFileNeedsTwoImports() returns (h: seq<Export>, folder: seq<Export>, key: string)
    ensures OneContent(h + folder) && !OneDoor(h + folder)
    ensures !exists id :: StoredFor(Run(map[], h + folder), id, DOOR_MAIN, key)
    ensures exists id :: StoredFor(Run(map[], h + folder + folder), id, DOOR_MAIN, key)
  {
    var x, c, y := OneCall(true, DOOR_MAIN), OneCall(false, DOOR_MAIN), OneCall(true, DOOR_OPENAI);
    h, folder, key := [x], [c, y], CallKey(x.lines[0].call);
    OneCallCarries(true, DOOR_MAIN);
    OneCallCarries(false, DOOR_MAIN);
    OneCallCarries(true, DOOR_OPENAI);
    HoldersAfterAMove(x, c, y, key);
    var once := h + folder;
    assert once == [x] + [c] + [y] && once + folder == [x] + [c] + [y] + [c] + [y];
    assert OneContent(once) && !OneDoor(once) by {
      assert once[0] == x && once[1] == c && once[2] == y;
    }
    OneContentAmong(once, once + folder);
    CallIsOnDoor(once, DOOR_MAIN, key);
    CallIsOnDoor(once + folder, DOOR_MAIN, key);
  }
}
