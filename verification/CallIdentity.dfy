/**
 Which call a ledger row is, and what becomes of it.

 A call is its run, instant, model, token counts, amount and whether it was blocked.  The key
 the ledger compares writes these one after another between bars, so it tells calls apart as
 far as no bar stands in what it joins.  Rows are deleted for copies of themselves only, and a
 copy always stays.
 */
module CallIdentity {
  import opened Wrappers
  import opened Text
  import opened CallLedger

  const BAR := '|'

  predicate SameCall(a: Call, b: Call) {
    && a.runId == b.runId && a.ts == b.ts && a.model == b.model && a.tokensIn == b.tokensIn
    && a.tokensOut == b.tokensOut && a.micros == b.micros && a.blocked == b.blocked
  }

  // ------------------------------------------------------------------ the key

  /** The part of the key that names the call. */
  function Name(c: Call): string {
    c.runId + "|" + c.ts + "|" + c.model
  }

  /** Figures hold no bar, so equal keys agree on them and on the name before them. */
  lemma KeySplits(a: Call, b: Call)
    requires CallKey(a) == CallKey(b)
    ensures a.blocked == b.blocked && a.micros == b.micros
    ensures a.tokensOut == b.tokensOut && a.tokensIn == b.tokensIn
    ensures Name(a) == Name(b)
  {
    LastField(CallKeyHead(a), if a.blocked then "1" else "0", CallKeyHead(b), if b.blocked then "1" else "0", '|');
    LastField(Name(a) + "|" + Decimal(a.tokensIn) + "|" + Decimal(a.tokensOut), Decimal(a.micros),
              Name(b) + "|" + Decimal(b.tokensIn) + "|" + Decimal(b.tokensOut), Decimal(b.micros), '|');
    LastField(Name(a) + "|" + Decimal(a.tokensIn), Decimal(a.tokensOut),
              Name(b) + "|" + Decimal(b.tokensIn), Decimal(b.tokensOut), '|');
    LastField(Name(a), Decimal(a.tokensIn), Name(b), Decimal(b.tokensIn), '|');
  }

  lemma KeyJoins(a: Call, b: Call)
    requires Name(a) == Name(b) && a.blocked == b.blocked && a.micros == b.micros
    requires a.tokensOut == b.tokensOut && a.tokensIn == b.tokensIn
    ensures CallKey(a) == CallKey(b)
  {
  }

  lemma NameSplits(a: Call, b: Call)
    requires Name(a) == Name(b) && BAR !in a.ts && BAR !in b.ts && BAR !in a.model && BAR !in b.model
    ensures a.runId == b.runId && a.ts == b.ts && a.model == b.model
  {
    LastField(a.runId + "|" + a.ts, a.model, b.runId + "|" + b.ts, b.model, BAR);
    LastField(a.runId, a.ts, b.runId, b.ts, BAR);
  }

  /** Without a bar in instant or model, equal keys are the same call and the same call has one
      key, whatever agent, team or day it is filed under. */
  lemma KeyIsTheCall(a: Call, b: Call)
    requires BAR !in a.ts && BAR !in b.ts && BAR !in a.model && BAR !in b.model
    ensures CallKey(a) == CallKey(b) <==> SameCall(a, b)
  {
    if CallKey(a) == CallKey(b) {
      KeySplits(a, b);
      NameSplits(a, b);
    }
    if SameCall(a, b) {
      KeyJoins(a, b);
    }
  }

  lemma BarsAddUp(x: string, y: string, z: string)
    ensures multiset(x + "|" + y + "|" + z)[BAR] == multiset(x)[BAR] + multiset(y)[BAR] + multiset(z)[BAR] + 2
  {
  }

  lemma BarIsCounted(s: string)
    ensures BAR in s <==> multiset(s)[BAR] > 0
  {
  }

  /** A call's key tells it from every other call if and only if neither its run nor its model
      holds a bar.  An instant never does. */
  lemma KeyTellsTheCallIff(a: Call)
    requires BAR !in a.ts
    ensures (forall b: Call :: BAR !in b.ts && CallKey(b) == CallKey(a) ==> SameCall(a, b))
            <==> BAR !in a.runId && BAR !in a.model
  {
    if BAR in a.model || BAR in a.runId {
      var b := Mistaken(a);
      assert BAR !in b.ts && CallKey(b) == CallKey(a) && !SameCall(a, b);
    } else {
      forall b: Call | BAR !in b.ts && CallKey(b) == CallKey(a) ensures SameCall(a, b) {
        KeySplits(a, b);
        BarsAddUp(a.runId, a.ts, a.model);
        BarsAddUp(b.runId, b.ts, b.model);
        BarIsCounted(a.runId);
        BarIsCounted(a.ts);
        BarIsCounted(a.model);
        BarIsCounted(b.model);
        NameSplits(a, b);
      }
    }
  }

  /** Another call with the key of one whose run or model holds a bar. */
  lemma Mistaken(a: Call) returns (b: Call)
    requires BAR !in a.ts && (BAR in a.model || BAR in a.runId)
    ensures BAR !in b.ts && CallKey(b) == CallKey(a) && !SameCall(a, b)
  {
    if BAR in a.model {
      var i := IndexOf(a.model, BAR);
      var m, rest := a.model[..i], a.model[i + 1..];
      assert a.model == m + "|" + rest;
      b := a.(runId := a.runId + "|" + a.ts, ts := m, model := rest);
      assert a.runId + "|" + a.ts + "|" + (m + "|" + rest) == a.runId + "|" + a.ts + "|" + m + "|" + rest;
    } else {
      var i := LastBar(a.runId);
      var r, rest := a.runId[..i], a.runId[i + 1..];
      assert a.runId == r + "|" + rest;
      b := a.(runId := r, ts := rest, model := a.ts + "|" + a.model);
      assert r + "|" + rest + "|" + a.ts + "|" + a.model == r + "|" + rest + "|" + (a.ts + "|" + a.model);
    }
    KeyJoins(a, b);
  }

  lemma {:induction false} LastBar(s: string) returns (i: nat)
    requires BAR in s
    ensures i < |s| && s[i] == BAR && BAR !in s[i + 1..]
  {
    var n := |s| - 1;
    if s[n] == BAR {
      i := n;
    } else {
      assert s == s[..n] + [s[n]];
      i := LastBar(s[..n]);
      assert s[i + 1..] == s[..n][i + 1..] + [s[n]];
    }
  }

  /** Two different calls with one key: a run that ends in the instant of the other, whose model
      begins with the instant of the first. */
  lemma BarMovesTheInstant(c: Call, first: string, second: string)
    requires first != second
    ensures var a := c.(runId := c.runId + "|" + first, ts := second);
            var b := c.(ts := first, model := second + "|" + c.model);
            CallKey(a) == CallKey(b) && a.ts != b.ts
  {
    var run, model := c.runId, c.model;
    assert run + "|" + first + "|" + second + "|" + model == run + "|" + first + "|" + (second + "|" + model);
    KeyJoins(c.(runId := run + "|" + first, ts := second), c.(ts := first, model := second + "|" + model));
  }

  // ------------------------------------------------------------------ how new an export is

  datatype Optional = KeyIdColumn | IdentityReasonColumn | PriceBasisColumn | PiiFindingsColumn

  function With(s: set<Optional>, c: Optional, there: bool): set<Optional> {
    if there then s + {c} else s
  }

  /** Those of the four columns that are there. */
  function Columns(keyId: bool, identityReason: bool, priceBasis: bool, piiFindings: bool): (s: set<Optional>)
    ensures |s| == Bit(keyId) + Bit(identityReason) + Bit(priceBasis) + Bit(piiFindings)
  {
    var one := With({}, KeyIdColumn, keyId);
    var two := With(one, IdentityReasonColumn, identityReason);
    var three := With(two, PriceBasisColumn, priceBasis);
    With(three, PiiFindingsColumn, piiFindings)
  }

  function HeaderColumns(h: Header): set<Optional> {
    Columns(h.keyId, h.identityReason, h.priceBasis, h.piiFindings)
  }

  function RowColumns(r: Call): set<Optional> {
    Columns(r.keyId.Some?, r.identityReason.Some?, r.priceBasis.Some?, r.piiFindings.Some?)
  }

  /** A generation is a number of optional columns, each of which counts for one. */
  lemma GenerationCountsColumns(f: Export, r: Stored)
    ensures Generation(f) == |HeaderColumns(f.header)| && RowGeneration(r) == |RowColumns(r.call)|
  {
  }

  // ------------------------------------------------------------------ which rows leave

  /** Read through the door; rows without one are from before there was a second. */
  predicate Through(r: Stored, door: string) {
    r.door == Some(door) || (r.door.None? && door == "main")
  }

  /** No instant and no model of the table holds a bar. */
  ghost predicate BarFree(t: Calls) {
    forall id :: id in t ==> BAR !in t[id].call.ts && BAR !in t[id].call.model
  }

  /** After the file's rows are written, a row gives way to another of the same call: a row of
      another file, on the file's door and of no more columns, to a row of the file; a row of the
      file to a row of another on its door of more columns. */
  predicate GivesWay(t: Calls, f: Export, id: RowId, o: RowId)
    requires id in t && o in t
  {
    && SameCall(t[id].call, t[o].call)
    && (if id.sha == f.sha then
          o.sha != f.sha && Through(t[o], f.door) && |RowColumns(t[o].call)| > |HeaderColumns(f.header)|
        else
          o.sha == f.sha && Through(t[id], f.door) && |RowColumns(t[id].call)| <= |HeaderColumns(f.header)|)
  }

  lemma GivesWayIff(t: Calls, f: Export, id: RowId, o: RowId)
    requires id in t && o in t && BarFree(t)
    ensures GivesWay(t, f, id, o) <==>
            if id.sha == f.sha then DisplacesFile(t, f, o, CallKey(t[id].call))
            else o.sha == f.sha && CallKey(t[o].call) == CallKey(t[id].call) && RowGeneration(t[id]) <= Generation(f)
                 && DoorOf(t[id]) == f.door
  {
    KeyIsTheCall(t[id].call, t[o].call);
    GenerationCountsColumns(f, t[id]);
    GenerationCountsColumns(f, t[o]);
  }

  /** Exactly those rows are deleted that give way to a copy. */
  lemma RowLeavesIff(calls: Calls, f: Export, id: RowId)
    requires f.complete && id in Insert(calls, f) && BarFree(Insert(calls, f))
    ensures id !in Step(calls, f) <==>
            exists o :: o in Insert(calls, f) && GivesWay(Insert(calls, f), f, id, o)
    ensures id in Step(calls, f) ==> Step(calls, f)[id] == Insert(calls, f)[id]
  {
    StepKeepsIff(calls, f, id);
    WhoGivesWay(Insert(calls, f), f, id);
  }

  lemma WhoGivesWay(t: Calls, f: Export, id: RowId)
    requires id in t && BarFree(t)
    ensures (exists o :: o in t && GivesWay(t, f, id, o)) <==>
            if id.sha == f.sha then exists o :: o in t && DisplacesFile(t, f, o, CallKey(t[id].call))
            else DisplacedByFile(t, f, id)
  {
    forall o | o in t
      ensures GivesWay(t, f, id, o) <==>
              if id.sha == f.sha then DisplacesFile(t, f, o, CallKey(t[id].call))
              else o.sha == f.sha && CallKey(t[o].call) == CallKey(t[id].call) && RowGeneration(t[id]) <= Generation(f)
                   && DoorOf(t[id]) == f.door
    {
      GivesWayIff(t, f, id, o);
    }
  }

  lemma StepKeepsIff(calls: Calls, f: Export, id: RowId)
    requires f.complete && id in Insert(calls, f)
    ensures var t := Insert(calls, f);
            && (id in Step(calls, f) <==>
                if id.sha == f.sha then !exists o :: o in t && DisplacesFile(t, f, o, CallKey(t[id].call))
                else !DisplacedByFile(t, f, id))
            && (id in Step(calls, f) ==> Step(calls, f)[id] == t[id])
  {
    var t := Insert(calls, f);
    var w := WithoutOlder(t, f);
    forall o | o in t && DisplacesFile(t, f, o, CallKey(t[id].call)) ensures o in w && w[o] == t[o] {
    }
    forall o | o in w ensures o in t && w[o] == t[o] {
    }
    if id.sha == f.sha && id !in Step(calls, f) {
      var o :| o in w && DisplacesFile(w, f, o, CallKey(w[id].call));
      assert DisplacesFile(t, f, o, CallKey(t[id].call));
    }
    if o :| o in t && id.sha == f.sha && DisplacesFile(t, f, o, CallKey(t[id].call)) {
      assert DisplacesFile(w, f, o, CallKey(w[id].call));
    }
  }

  // ------------------------------------------------------------------ no call leaves the ledger

  ghost predicate HasRowOf(calls: Calls, key: string) {
    exists o :: o in calls && CallKey(calls[o].call) == key
  }

  /** Whatever a file deletes, a row of the same key stays. */
  lemma StepLeavesACopy(calls: Calls, f: Export, id: RowId)
    requires f.complete && id in Insert(calls, f)
    ensures HasRowOf(Step(calls, f), CallKey(Insert(calls, f)[id].call))
  {
    var t := Insert(calls, f);
    var key := CallKey(t[id].call);
    StepKeepsIff(calls, f, id);
    if id !in Step(calls, f) {
      var own := id;
      if id.sha != f.sha {
        own :| own in t && own.sha == f.sha && CallKey(t[own].call) == key;
        StepKeepsIff(calls, f, own);
      }
      if own !in Step(calls, f) {
        var o :| o in t && DisplacesFile(t, f, o, key);
        StepKeepsIff(calls, f, o);
        assert o in Step(calls, f);
      }
    }
  }

  /** Reading one more file leaves every call stored before in the ledger. */
  lemma CallsStayed(p: seq<Export>, f: Export, key: string)
    requires OneContent(p + [f]) && HasRowOf(Run(map[], p), key)
    ensures HasRowOf(Step(Run(map[], p), f), key)
  {
    var calls := Run(map[], p);
    var o :| o in calls && CallKey(calls[o].call) == key;
    if f.complete {
      HistoryPrefix(p, f);
      LedgerIsExactlyTheHistory(p);
      var j := KeptFrom(calls, p, f, o);
      assert Insert(calls, f)[o].call == calls[o].call;
      StepLeavesACopy(calls, f, o);
    }
  }

  lemma {:induction false} EveryKeyIsKept(h: seq<Export>, f: Export, id: RowId)
    requires OneContent(h) && f in h && f.complete && Holds(f, id)
    ensures HasRowOf(Run(map[], h), CallKey(RowOf(f, id).call))
  {
    var n := |h| - 1;
    var p, g := h[..n], h[n];
    assert h == p + [g];
    HistoryPrefix(p, g);
    if f in p {
      EveryKeyIsKept(p, f, id);
      CallsStayed(p, g, CallKey(RowOf(f, id).call));
    } else {
      StepLeavesACopy(Run(map[], p), g, id);
    }
  }

  /** No instant read holds a bar; none that RFC 3339 writes does. */
  ghost predicate Timed(h: seq<Export>) {
    forall f, n :: f in h && 0 <= n < |f.lines| && f.lines[n].Accepted? ==> BAR !in f.lines[n].call.ts
  }

  predicate Telling(c: Call) {
    BAR !in c.runId && BAR !in c.model
  }

  ghost predicate HasCall(calls: Calls, c: Call) {
    exists o :: o in calls && SameCall(c, calls[o].call)
  }

  /** Each call some readable file carries is in the ledger, all seven of its fields, however often
      and through whichever doors files are read: only rows of the call itself displace it. */
  ghost predicate CallsKept(calls: Calls, h: seq<Export>) {
    Timed(h) ==>
      forall f, n :: f in h && f.complete && 0 <= n < |f.lines| && f.lines[n].Accepted? && Telling(f.lines[n].call) ==>
        HasCall(calls, f.lines[n].call)
  }

  /** And each row of the ledger is a line of a readable file, as that file has it, under the file's
      hash, the line's number and the door it was read through. */
  ghost predicate OnlyLinesStored(calls: Calls, h: seq<Export>) {
    forall id :: id in calls ==> exists f :: f in h && f.complete && IsLineOf(calls[id], id, f)
  }

  predicate IsLineOf(r: Stored, id: RowId, f: Export) {
    && id.sha == f.sha && 1 <= id.rowNo <= |f.lines| && f.lines[id.rowNo - 1] == Accepted(r.call)
    && r.door == Some(f.door)
  }

  lemma RowsAreLines(h: seq<Export>)
    requires OneContent(h)
    ensures OnlyLinesStored(Run(map[], h), h)
  {
    var calls := Run(map[], h);
    LedgerIsExactlyTheHistory(h);
    forall id | id in calls ensures exists f :: f in h && f.complete && IsLineOf(calls[id], id, f) {
      assert AsHistory(calls, h, id);
      var j :| 0 <= j < |h| && SurvivesFrom(h, id, j) && calls[id] == RowOf(h[j], id);
      assert h[j] in h && h[j].complete && IsLineOf(calls[id], id, h[j]);
    }
  }

  lemma LineIsKept(h: seq<Export>, f: Export, n: nat)
    requires OneContent(h) && Timed(h) && f in h && f.complete && n < |f.lines| && f.lines[n].Accepted?
    requires Telling(f.lines[n].call)
    ensures HasCall(Run(map[], h), f.lines[n].call)
  {
    var calls, c := Run(map[], h), f.lines[n].call;
    EveryKeyIsKept(h, f, RowId(f.sha, n + 1));
    RowsAreLines(h);
    var o :| o in calls && CallKey(calls[o].call) == CallKey(c);
    var g :| g in h && g.complete && IsLineOf(calls[o], o, g);
    assert BAR !in g.lines[o.rowNo - 1].call.ts;
    KeyTellsTheCallIff(c);
  }

  lemma NoCallLeavesTheLedger(h: seq<Export>)
    requires OneContent(h)
    ensures CallsKept(Run(map[], h), h) && OnlyLinesStored(Run(map[], h), h)
  {
    RowsAreLines(h);
    if Timed(h) {
      forall f, n | f in h && f.complete && 0 <= n < |f.lines| && f.lines[n].Accepted? && Telling(f.lines[n].call)
        ensures HasCall(Run(map[], h), f.lines[n].call)
      {
        LineIsKept(h, f, n);
      }
    }
  }
}
