/**
 The call ledger: TokenFuse exports read file by file into ai_calls.

 Rows are upserted under (file hash, row number).  After each file, supersede removes what
 two exports of one trace hold twice: rows of other files that carry one of this file's
 calls through the same door from an export no newer, and this file's rows of which another
 file carries a copy from a newer export.  Every import reads its folders again and so
 inserts again what earlier imports deleted.
 */
module CallLedger {
  import opened Wrappers
  import opened Tables
  import opened Text
  import opened Charges

  /** One gateway call, as far as any rule here reads it.  The four optional columns are
      NULL when the file's header lacked them and text otherwise. */
  datatype Call = Call(
    ts: string, day: string, team: string, agent: string, runId: string, provider: string, model: string,
    tokensIn: nat, tokensOut: nat, micros: nat, blocked: bool, invoice: string,
    keyId: Option<string>, identityReason: Option<string>,
    priceBasis: Option<string>, piiFindings: Option<string>)

  datatype RowId = RowId(sha: string, rowNo: nat)

  /** A stored row; door is NULL on a row imported before the column existed. */
  datatype Stored = Stored(call: Call, door: Option<string>)

  type Calls = map<RowId, Stored>

  const DOOR_MAIN := "main"
  const DOOR_OPENAI := "openai-wire"

  datatype Header = Header(keyId: bool, identityReason: bool, priceBasis: bool, piiFindings: bool)

  /** What one record of a file became: a row of ai_calls, or nothing there (refused, an
      unfiled refusal of the gateway, or a commitment purchase). */
  datatype Line = Accepted(call: Call) | Passed

  /** One file of a folder.  lines are the records read until the end of the file, or, when
      the file is not complete, until the record the reader could not get past. */
  datatype Export = Export(sha: string, door: string, header: Header, lines: seq<Line>, complete: bool)

  function Bit(b: bool): nat { if b then 1 else 0 }

  /** The export's generation as the header tells it. */
  function Generation(f: Export): nat {
    Bit(f.header.keyId) + Bit(f.header.identityReason) + Bit(f.header.priceBasis) + Bit(f.header.piiFindings)
  }

  /** The export's generation as a stored row tells it. */
  function RowGeneration(r: Stored): nat {
    Bit(r.call.keyId.Some?) + Bit(r.call.identityReason.Some?)
    + Bit(r.call.priceBasis.Some?) + Bit(r.call.piiFindings.Some?)
  }

  function DoorOf(r: Stored): string {
    if r.door.Some? then r.door.value else DOOR_MAIN
  }

  /** The generated column call_key: the fields two exports of one call agree on. */
  function CallKey(c: Call): string {
    CallKeyHead(c) + "|" + (if c.blocked then "1" else "0")
  }

  function CallKeyHead(c: Call): string {
    c.runId + "|" + c.ts + "|" + c.model + "|" + Decimal(c.tokensIn) + "|" + Decimal(c.tokensOut)
    + "|" + Decimal(c.micros)
  }

  predicate Holds(f: Export, id: RowId) {
    id.sha == f.sha && 1 <= id.rowNo <= |f.lines| && f.lines[id.rowNo - 1].Accepted?
  }

  function RowOf(f: Export, id: RowId): Stored
    requires Holds(f, id)
  {
    Stored(f.lines[id.rowNo - 1].call, Some(f.door))
  }

  function Ids(f: Export): (ids: set<RowId>)
    ensures forall id :: id in ids <==> Holds(f, id)
  {
    var ids := set n | 0 <= n < |f.lines| && f.lines[n].Accepted? :: RowId(f.sha, n + 1);
    assert forall id :: Holds(f, id) ==> id == RowId(f.sha, (id.rowNo - 1) + 1);
    ids
  }

  /** The header decides the optional columns of every accepted row, and a trimmed provider
      is what the parser stores. */
  predicate WellFormed(f: Export) {
    forall n :: 0 <= n < |f.lines| && f.lines[n].Accepted? ==>
      var c := f.lines[n].call;
      && c.keyId.Some? == f.header.keyId && c.identityReason.Some? == f.header.identityReason
      && c.priceBasis.Some? == f.header.priceBasis && c.piiFindings.Some? == f.header.piiFindings
  }

  /** INSERT ... ON CONFLICT DO UPDATE for every accepted row, the door included. */
  function Insert(calls: Calls, f: Export): Calls {
    map id | id in calls.Keys + Ids(f) :: if Holds(f, id) then RowOf(f, id) else calls[id]
  }

  /** Whether the file with this hash has a stored row with this key. */
  predicate StoredUnder(calls: Calls, sha: string, key: string) {
    exists o :: o in calls && o.sha == sha && CallKey(calls[o].call) == key
  }

  /** The first DELETE of supersede. */
  predicate DisplacedByFile(calls: Calls, f: Export, id: RowId)
    requires id in calls
  {
    && id.sha != f.sha
    && StoredUnder(calls, f.sha, CallKey(calls[id].call))
    && RowGeneration(calls[id]) <= Generation(f)
    && DoorOf(calls[id]) == f.door
  }

  /** The second DELETE: this file's row is displaced by a newer export's copy. */
  predicate DisplacesFile(calls: Calls, f: Export, o: RowId, key: string)
    requires o in calls
  {
    && o.sha != f.sha
    && CallKey(calls[o].call) == key
    && RowGeneration(calls[o]) > Generation(f)
    && DoorOf(calls[o]) == f.door
  }

  predicate DisplacedInFile(calls: Calls, f: Export, id: RowId)
    requires id in calls
  {
    id.sha == f.sha && exists o :: o in calls && DisplacesFile(calls, f, o, CallKey(calls[id].call))
  }

  function WithoutOlder(calls: Calls, f: Export): Calls {
    map id | id in calls && !DisplacedByFile(calls, f, id) :: calls[id]
  }

  function WithoutOutdated(calls: Calls, f: Export): Calls {
    map id | id in calls && !DisplacedInFile(calls, f, id) :: calls[id]
  }

  function Supersede(calls: Calls, f: Export): Calls {
    WithoutOutdated(WithoutOlder(calls, f), f)
  }

  /** What reading one file leaves: nothing changes when the file did not end well. */
  function Step(calls: Calls, f: Export): Calls {
    if f.complete then Supersede(Insert(calls, f), f) else calls
  }

  /** The ledger after a whole history of reads, across however many imports. */
  function Run(calls: Calls, history: seq<Export>): Calls
  {
    if history == [] then calls else Step(Run(calls, history[..|history| - 1]), history[|history| - 1])
  }

  lemma {:induction false} RunConcat(calls: Calls, h: seq<Export>, more: seq<Export>)
    ensures Run(calls, h + more) == Run(Run(calls, h), more)
  {
    if more == [] {
      assert h + more == h;
    } else {
      var n := |more| - 1;
      RunConcat(calls, h, more[..n]);
      assert (h + more)[..|h + more| - 1] == h + more[..n];
    }
  }

  // ------------------------------------------------------------ the history

  /** A hash fixes what is in the file. */
  ghost predicate OneContent(h: seq<Export>) {
    && (forall i :: 0 <= i < |h| ==> WellFormed(h[i]))
    && (forall i, j :: 0 <= i < |h| && 0 <= j < |h| && h[i].sha == h[j].sha ==>
          h[i].lines == h[j].lines && h[i].header == h[j].header)
  }

  /** No file's bytes are read through two doors. */
  ghost predicate OneDoor(h: seq<Export>) {
    forall i, j :: 0 <= i < |h| && 0 <= j < |h| && h[i].sha == h[j].sha ==> h[i].door == h[j].door
  }

  predicate HasKey(f: Export, key: string) {
    exists n :: 0 <= n < |f.lines| && f.lines[n].Accepted? && CallKey(f.lines[n].call) == key
  }

  /** Read to its end through this door, with a row for this call. */
  predicate Carries(f: Export, door: string, key: string) {
    f.complete && f.door == door && HasKey(f, key)
  }

  /** A read of the same bytes through another door takes the rows, door and all. */
  predicate TakenBy(f: Export, sha: string, door: string) {
    f.complete && f.sha == sha && f.door != door
  }

  /** Which read of the history holds a call on a door. */
  function Holder(h: seq<Export>, door: string, key: string): (w: Option<nat>)
    ensures w.Some? ==> w.value < |h| && Carries(h[w.value], door, key)
  {
    if h == [] then None
    else
      var n := |h| - 1;
      var was := Holder(h[..n], door, key);
      var w := if was.Some? && TakenBy(h[n], h[was.value].sha, door) then None else was;
      if Carries(h[n], door, key) && (w.None? || Generation(h[w.value]) <= Generation(h[n])) then Some(n) else w
  }

  ghost predicate LatestOfNewest(h: seq<Export>, door: string, key: string, w: nat) {
    && w < |h| && Carries(h[w], door, key)
    && (forall j :: 0 <= j < |h| && Carries(h[j], door, key) ==>
          Generation(h[j]) < Generation(h[w]) || (Generation(h[j]) == Generation(h[w]) && j <= w))
  }

  /** When no bytes are read through two doors, the holder is the last file read among those
      of the highest generation, and a call has none exactly when no file carries it. */
  lemma {:induction false} HolderIsLatestOfNewest(h: seq<Export>, door: string, key: string)
    requires OneDoor(h)
    ensures match Holder(h, door, key)
            case None => forall j :: 0 <= j < |h| ==> !Carries(h[j], door, key)
            case Some(w) => LatestOfNewest(h, door, key, w)
  {
    if h != [] {
      var n := |h| - 1;
      var p := h[..n];
      assert h == p + [h[n]];
      HolderIsLatestOfNewest(p, door, key);
      var w := Holder(p, door, key);
      HolderAfter(p, h[n], door, key);
      if w.Some? {
        assert h[w.value] == p[w.value] && !TakenBy(h[n], h[w.value].sha, door);
        LatestAfter(p, h[n], door, key, w.value);
      } else {
        assert forall j :: 0 <= j < n ==> p[j] == h[j];
      }
    }
  }

  /** One more read: the latest of the newest stays it, or the file read is. */
  lemma LatestAfter(p: seq<Export>, f: Export, door: string, key: string, w: nat)
    requires LatestOfNewest(p, door, key, w)
    ensures LatestOfNewest(p + [f], door, key,
                           if Carries(f, door, key) && Generation(p[w]) <= Generation(f) then |p| else w)
  {
    assert forall j :: 0 <= j < |p| ==> (p + [f])[j] == p[j];
    assert (p + [f])[|p|] == f;
  }

  /** The row the history says must survive under id. */
  ghost predicate Survives(h: seq<Export>, id: RowId) {
    exists j :: 0 <= j < |h| && SurvivesFrom(h, id, j)
  }

  ghost predicate SurvivesFrom(h: seq<Export>, id: RowId, j: nat)
    requires j < |h|
  {
    Holds(h[j], id) && Holder(h, h[j].door, CallKey(RowOf(h[j], id).call)) == Some(j)
  }

  /** Whether the table holds id exactly when the history says so, with the row it says. */
  ghost predicate AsHistory(calls: Calls, h: seq<Export>, id: RowId) {
    && (id in calls <==> Survives(h, id))
    && (id in calls ==> exists j :: 0 <= j < |h| && SurvivesFrom(h, id, j) && calls[id] == RowOf(h[j], id))
  }

  ghost predicate Exactly(calls: Calls, h: seq<Export>) {
    forall id :: AsHistory(calls, h, id)
  }

  /** How one more file read moves the holder. */
  lemma HolderAfter(p: seq<Export>, f: Export, door: string, key: string)
    ensures var was := Holder(p, door, key);
            var w := if was.Some? && TakenBy(f, p[was.value].sha, door) then None else was;
            Holder(p + [f], door, key) ==
              if Carries(f, door, key) && (w.None? || Generation(p[w.value]) <= Generation(f)) then Some(|p|) else w
  {
    assert (p + [f])[..|p|] == p;
  }

  lemma GenerationOnRow(f: Export, id: RowId)
    requires WellFormed(f) && Holds(f, id)
    ensures RowGeneration(RowOf(f, id)) == Generation(f) && DoorOf(RowOf(f, id)) == f.door
  {
  }

  /** What the reasoning about one more file starts from. */
  ghost predicate OneMore(calls: Calls, p: seq<Export>, f: Export) {
    OneContent(p + [f]) && Exactly(calls, p) && f.complete
  }

  lemma HistoryPrefix(p: seq<Export>, f: Export)
    requires OneContent(p + [f])
    ensures OneContent(p) && WellFormed(f)
    ensures forall j :: 0 <= j < |p| && p[j].sha == f.sha ==> p[j].lines == f.lines && p[j].header == f.header
  {
    var h := p + [f];
    assert forall j :: 0 <= j < |p| ==> h[j] == p[j];
    assert h[|p|] == f;
  }

  /** A stored row of another file, and the read it survives from. */
  lemma KeptFrom(calls: Calls, p: seq<Export>, f: Export, id: RowId) returns (j: nat)
    requires OneMore(calls, p, f) && id in calls
    ensures j < |p| && SurvivesFrom(p, id, j) && calls[id] == RowOf(p[j], id)
    ensures RowGeneration(calls[id]) == Generation(p[j]) && DoorOf(calls[id]) == p[j].door
    ensures id.sha == f.sha ==> Holds(f, id)
  {
    HistoryPrefix(p, f);
    assert AsHistory(calls, p, id);
    j :| 0 <= j < |p| && SurvivesFrom(p, id, j) && calls[id] == RowOf(p[j], id);
    GenerationOnRow(p[j], id);
  }

  /** After the rows of f are written, what is stored under its hash is what it holds. */
  lemma OwnRowsStored(calls: Calls, p: seq<Export>, f: Export, id: RowId)
    requires OneMore(calls, p, f) && id.sha == f.sha
    ensures id in Insert(calls, f) <==> Holds(f, id)
    ensures Holds(f, id) ==> Insert(calls, f)[id] == RowOf(f, id)
  {
    if id in calls {
      var j := KeptFrom(calls, p, f, id);
    }
  }

  lemma StoredIffHas(calls: Calls, p: seq<Export>, f: Export, key: string)
    requires OneMore(calls, p, f)
    ensures StoredUnder(Insert(calls, f), f.sha, key) <==> HasKey(f, key)
  {
    var t := Insert(calls, f);
    if StoredUnder(t, f.sha, key) {
      var o :| o in t && o.sha == f.sha && CallKey(t[o].call) == key;
      OwnRowsStored(calls, p, f, o);
      assert CallKey(f.lines[o.rowNo - 1].call) == key;
    }
    if HasKey(f, key) {
      var o := LineWithKey(f, key);
      OwnRowsStored(calls, p, f, o);
    }
  }

  lemma LineWithKey(f: Export, key: string) returns (o: RowId)
    requires HasKey(f, key)
    ensures Holds(f, o) && CallKey(RowOf(f, o).call) == key
  {
    var n :| 0 <= n < |f.lines| && f.lines[n].Accepted? && CallKey(f.lines[n].call) == key;
    o := RowId(f.sha, n + 1);
  }

  /** A row of another file stays exactly while the read it survives from holds its call. */
  lemma OtherFileStays(calls: Calls, p: seq<Export>, f: Export, id: RowId, j: nat)
    requires OneMore(calls, p, f) && id.sha != f.sha
    requires id in calls && j < |p| && SurvivesFrom(p, id, j) && calls[id] == RowOf(p[j], id)
    ensures id in Step(calls, f) <==> SurvivesFrom(p + [f], id, j)
    ensures id in Step(calls, f) ==> Step(calls, f)[id] == calls[id]
  {
    OtherRowInStep(calls, f, id);
    OtherRowDisplacedIff(calls, p, f, id, j);
    SurvivesAnother(p, f, id, j);
  }

  lemma OtherRowInStep(calls: Calls, f: Export, id: RowId)
    requires f.complete && id.sha != f.sha && id in calls
    ensures id in Insert(calls, f) && Insert(calls, f)[id] == calls[id]
    ensures id in Step(calls, f) <==> !DisplacedByFile(Insert(calls, f), f, id)
    ensures id in Step(calls, f) ==> Step(calls, f)[id] == calls[id]
  {
  }

  /** A row's file, and the file just read, decide whether the row is displaced. */
  predicate Outdone(p: Export, f: Export, key: string) {
    HasKey(f, key) && Generation(p) <= Generation(f) && p.door == f.door
  }

  lemma OtherRowDisplacedIff(calls: Calls, p: seq<Export>, f: Export, id: RowId, j: nat)
    requires OneMore(calls, p, f) && id.sha != f.sha && id in calls && id in Insert(calls, f)
    requires Insert(calls, f)[id] == calls[id] && j < |p| && Holds(p[j], id) && calls[id] == RowOf(p[j], id)
    ensures DisplacedByFile(Insert(calls, f), f, id) <==> Outdone(p[j], f, CallKey(calls[id].call))
  {
    HistoryPrefix(p, f);
    GenerationOnRow(p[j], id);
    StoredIffHas(calls, p, f, CallKey(calls[id].call));
  }

  lemma SurvivesAnother(p: seq<Export>, f: Export, id: RowId, j: nat)
    requires f.complete && id.sha != f.sha && j < |p| && SurvivesFrom(p, id, j)
    ensures SurvivesFrom(p + [f], id, j) <==> !Outdone(p[j], f, CallKey(RowOf(p[j], id).call))
  {
    HolderAfter(p, f, p[j].door, CallKey(RowOf(p[j], id).call));
    assert (p + [f])[j] == p[j];
  }

  lemma OtherFileRow(calls: Calls, p: seq<Export>, f: Export, id: RowId)
    requires OneMore(calls, p, f) && id.sha != f.sha
    ensures AsHistory(Step(calls, f), p + [f], id)
  {
    var h := p + [f];
    if id in calls {
      var j := KeptFrom(calls, p, f, id);
      OtherFileStays(calls, p, f, id, j);
    }
    if Survives(h, id) {
      var j :| 0 <= j < |h| && SurvivesFrom(h, id, j);
      SurvivedBefore(p, f, id, j);
      assert AsHistory(calls, p, id);
      var i := KeptFrom(calls, p, f, id);
      HistoryPrefix(p, f);
      OneSurvivor(p, id, i, j);
      OtherFileStays(calls, p, f, id, j);
    }
  }

  lemma SurvivedBefore(p: seq<Export>, f: Export, id: RowId, j: nat)
    requires id.sha != f.sha && j < |p + [f]| && SurvivesFrom(p + [f], id, j)
    ensures j < |p| && (p + [f])[j] == p[j] && SurvivesFrom(p, id, j)
  {
    HolderAfter(p, f, p[j].door, CallKey(RowOf(p[j], id).call));
  }

  /** A read that still holds a call was not followed by one that took its bytes elsewhere. */
  lemma {:induction false} NotTakenSince(h: seq<Export>, door: string, key: string, i: nat)
    requires Holder(h, door, key) == Some(i)
    ensures i < |h| && forall j :: i < j < |h| ==> !TakenBy(h[j], h[i].sha, door)
  {
    var n := |h| - 1;
    if i < n {
      NotTakenSince(h[..n], door, key, i);
      assert forall j :: i < j < n ==> h[..n][j] == h[j];
    }
  }

  /** A row survives from one read only, so what the history says is one row. */
  lemma OneSurvivor(h: seq<Export>, id: RowId, i: nat, j: nat)
    requires OneContent(h) && i < |h| && j < |h|
    requires SurvivesFrom(h, id, i) && SurvivesFrom(h, id, j)
    ensures i == j
  {
    if i != j {
      var first, last := if i < j then i else j, if i < j then j else i;
      NotTakenSince(h, h[first].door, CallKey(RowOf(h[first], id).call), first);
    }
  }

  /** A call of f stays out exactly when another file holds it from a newer export. */
  lemma NewerCopyStored(calls: Calls, p: seq<Export>, f: Export, key: string)
    requires OneMore(calls, p, f) && HasKey(f, key)
    ensures var u := WithoutOlder(Insert(calls, f), f);
            (exists o :: o in u && DisplacesFile(u, f, o, key))
              <==> Holder(p + [f], f.door, key) != Some(|p|)
  {
    var u := WithoutOlder(Insert(calls, f), f);
    HolderAfter(p, f, f.door, key);
    if exists o :: o in u && DisplacesFile(u, f, o, key) {
      var o :| o in u && DisplacesFile(u, f, o, key);
      var j := KeptFrom(calls, p, f, o);
      assert Holder(p, f.door, key) == Some(j);
    }
    var w := Holder(p, f.door, key);
    if w.Some? && Generation(p[w.value]) > Generation(f) {
      var o := NewerCopy(calls, p, f, key);
      assert o in u && DisplacesFile(u, f, o, key);
    }
  }

  lemma NewerCopy(calls: Calls, p: seq<Export>, f: Export, key: string) returns (o: RowId)
    requires OneMore(calls, p, f)
    requires var w := Holder(p, f.door, key); w.Some? && Generation(p[w.value]) > Generation(f)
    ensures o in WithoutOlder(Insert(calls, f), f)
    ensures DisplacesFile(WithoutOlder(Insert(calls, f), f), f, o, key)
  {
    HistoryPrefix(p, f);
    var j := Holder(p, f.door, key).value;
    o := LineWithKey(p[j], key);
    assert SurvivesFrom(p, o, j);
    assert AsHistory(calls, p, o);
    var i := KeptFrom(calls, p, f, o);
    OneSurvivor(p, o, i, j);
  }

  /** Of the file just read a row survives exactly when the file now holds the call. */
  lemma OwnSurvival(p: seq<Export>, f: Export, id: RowId)
    requires OneContent(p + [f]) && f.complete && id.sha == f.sha
    ensures Survives(p + [f], id) <==>
              Holds(f, id) && Holder(p + [f], f.door, CallKey(RowOf(f, id).call)) == Some(|p|)
  {
    var h := p + [f];
    HistoryPrefix(p, f);
    if Holds(f, id) && Holder(h, f.door, CallKey(RowOf(f, id).call)) == Some(|p|) {
      assert h[|p|] == f && SurvivesFrom(h, id, |p|);
    }
    if Survives(h, id) {
      var j :| 0 <= j < |h| && SurvivesFrom(h, id, j);
      OnlyTheLastRead(p, f, id, j);
    }
  }

  lemma OnlyTheLastRead(p: seq<Export>, f: Export, id: RowId, j: nat)
    requires OneContent(p + [f]) && f.complete && id.sha == f.sha
    requires j < |p + [f]| && SurvivesFrom(p + [f], id, j)
    ensures j == |p|
  {
    if j < |p| {
      assert (p + [f])[j] == p[j];
      HistoryPrefix(p, f);
      assert HasKey(f, CallKey(f.lines[id.rowNo - 1].call));
      HolderAfter(p, f, p[j].door, CallKey(f.lines[id.rowNo - 1].call));
    }
  }

  lemma OwnFileRow(calls: Calls, p: seq<Export>, f: Export, id: RowId)
    requires OneMore(calls, p, f) && id.sha == f.sha
    ensures id in Step(calls, f) <==> Survives(p + [f], id)
    ensures id in Step(calls, f) ==> SurvivesFrom(p + [f], id, |p|) && Step(calls, f)[id] == RowOf(f, id)
  {
    var t := Insert(calls, f);
    var u := WithoutOlder(t, f);
    assert (p + [f])[|p|] == f;
    OwnRowsStored(calls, p, f, id);
    OwnSurvival(p, f, id);
    assert id in u <==> id in t;
    if Holds(f, id) {
      assert HasKey(f, CallKey(RowOf(f, id).call));
      NewerCopyStored(calls, p, f, CallKey(RowOf(f, id).call));
    }
  }

  /** A file that is refused leaves no mark on what the history says. */
  lemma RefusedFile(p: seq<Export>, f: Export, id: RowId)
    requires !f.complete
    ensures Survives(p + [f], id) <==> Survives(p, id)
  {
    var h := p + [f];
    if Survives(h, id) {
      var j :| 0 <= j < |h| && SurvivesFrom(h, id, j);
      assert h[|p|] == f && j < |p|;
      RefusedFileFrom(p, f, id, j);
    }
    if Survives(p, id) {
      var j :| 0 <= j < |p| && SurvivesFrom(p, id, j);
      RefusedFileFrom(p, f, id, j);
    }
  }

  lemma RefusedFileFrom(p: seq<Export>, f: Export, id: RowId, j: nat)
    requires !f.complete && j < |p|
    ensures (p + [f])[j] == p[j]
    ensures SurvivesFrom(p + [f], id, j) <==> SurvivesFrom(p, id, j)
  {
    if Holds(p[j], id) {
      HolderAfter(p, f, p[j].door, CallKey(RowOf(p[j], id).call));
    }
  }

  lemma StepRow(before: Calls, p: seq<Export>, f: Export, id: RowId)
    requires OneContent(p + [f]) && Exactly(before, p)
    ensures AsHistory(Step(before, f), p + [f], id)
  {
    if f.complete && id.sha == f.sha {
      OwnFileRow(before, p, f, id);
      assert (p + [f])[|p|] == f;
    } else if f.complete {
      OtherFileRow(before, p, f, id);
    } else {
      RefusedFile(p, f, id);
      assert AsHistory(before, p, id);
      if id in before {
        var j :| 0 <= j < |p| && SurvivesFrom(p, id, j) && before[id] == RowOf(p[j], id);
        RefusedFileFrom(p, f, id, j);
      }
    }
  }

  /** After any history of reads from an empty store the table is exactly the history: the
      rows of a call on a door are those of the read that holds it, every one of them and no
      other, although every import writes displaced rows again. */
  lemma {:induction false} LedgerIsExactlyTheHistory(h: seq<Export>)
    requires OneContent(h)
    ensures Exactly(Run(map[], h), h)
  {
    if h != [] {
      var n := |h| - 1;
      var p, f := h[..n], h[n];
      assert h == p + [f];
      HistoryPrefix(p, f);
      LedgerIsExactlyTheHistory(p);
      var before := Run(map[], p);
      forall id ensures AsHistory(Step(before, f), h, id) {
        StepRow(before, p, f, id);
      }
    } else {
      assert forall id :: AsHistory(map[], h, id);
    }
  }
}
