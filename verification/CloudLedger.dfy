/**
 The cloud bill ledger: FOCUS files a provider exports, read from a synced folder.

 Rows are keyed by (connector, file hash, row number).  A provider revises a period by
 overwriting a file in place, so a file read to its end replaces whatever other content its
 path held; a file that is not leaves the earlier version standing.
 */
module CloudLedger {
  import opened Arith
  import opened Wrappers
  import opened Grouping
  import opened Charges

  datatype CloudId = CloudId(connector: string, sha: string, rowNo: nat)

  datatype CloudRow = CloudRow(path: string, day: string, service: string, team: string,
                               category: string, micros: int, invoice: string)

  type CloudTable = map<CloudId, CloudRow>

  /** What one record of a file became under the import's settings. */
  datatype Line = Accepted(row: CloudRow) | Refused

  /** One file of the folder.  skipped: over the size limit on disk, or its bytes could not be
      hashed.  complete: the reader reached its end. */
  datatype CloudFile = CloudFile(path: string, sha: string, skipped: bool, lines: seq<Line>, complete: bool)

  predicate Holds(connector: string, f: CloudFile, id: CloudId) {
    && id.connector == connector && id.sha == f.sha
    && 1 <= id.rowNo <= |f.lines| && f.lines[id.rowNo - 1].Accepted?
  }

  function RowOf(connector: string, f: CloudFile, id: CloudId): CloudRow
    requires Holds(connector, f, id)
  {
    f.lines[id.rowNo - 1].row.(path := f.path)
  }

  function Ids(connector: string, f: CloudFile): (ids: set<CloudId>)
    ensures forall id :: id in ids <==> Holds(connector, f, id)
  {
    var ids := set n | 0 <= n < |f.lines| && f.lines[n].Accepted? :: CloudId(connector, f.sha, n + 1);
    assert forall id :: Holds(connector, f, id) ==> id == CloudId(connector, f.sha, (id.rowNo - 1) + 1);
    ids
  }

  /** The absolute amounts of a file, added up: what bounds every sum taken over its rows. */
  function AbsTotal(lines: seq<Line>): nat {
    if lines == [] then 0
    else AbsTotal(lines[..|lines| - 1])
         + (match lines[|lines| - 1] case Accepted(r) => Abs(r.micros) case Refused => 0)
  }

  /** The accepted amounts at some places of the file, added up. */
  function Selected(lines: seq<Line>, places: set<nat>): int {
    if lines == [] then 0
    else
      var n := |lines| - 1;
      Selected(lines[..n], places)
      + (match lines[n] case Accepted(r) => if n in places then r.micros else 0 case Refused => 0)
  }

  /** Nothing that can be added up of a file's amounts is larger, either way, and the amounts above
      zero less those below are exactly as much. */
  lemma {:induction false} AbsTotalIsTheMost(lines: seq<Line>, places: set<nat>)
    ensures Abs(Selected(lines, places)) <= AbsTotal(lines)
    ensures (forall n :: 0 <= n < |lines| && lines[n].Accepted? ==> (n in places <==> lines[n].row.micros > 0)) ==>
              2 * Selected(lines, places) - SignedTotal(lines) == AbsTotal(lines)
  {
    if lines != [] {
      var n := |lines| - 1;
      AbsTotalIsTheMost(lines[..n], places);
      assert forall i :: 0 <= i < n ==> lines[..n][i] == lines[i];
    }
  }

  /** All of them. */
  function SignedTotal(lines: seq<Line>): int {
    if lines == [] then 0
    else
      SignedTotal(lines[..|lines| - 1])
      + (match lines[|lines| - 1] case Accepted(r) => r.micros case Refused => 0)
  }

  lemma {:induction false} AbsTotalGrows(lines: seq<Line>, n: nat)
    requires n <= |lines|
    ensures AbsTotal(lines[..n]) <= AbsTotal(lines)
  {
    if n < |lines| {
      AbsTotalGrows(lines[..|lines| - 1], n);
      assert lines[..|lines| - 1][..n] == lines[..n];
    } else {
      assert lines[..n] == lines;
    }
  }

  function Insert(connector: string, rows: CloudTable, f: CloudFile): CloudTable {
    map id | id in rows.Keys + Ids(connector, f) ::
      if Holds(connector, f, id) then RowOf(connector, f, id) else rows[id]
  }

  /** An earlier file at the same path with different content. */
  predicate Stale(connector: string, f: CloudFile, id: CloudId, row: CloudRow) {
    id.connector == connector && row.path == f.path && id.sha != f.sha
  }

  /** What a file read to its end leaves: its own rows, and none of its predecessor's. */
  function Replace(connector: string, rows: CloudTable, f: CloudFile): CloudTable {
    var t := Insert(connector, rows, f);
    map id | id in t && !Stale(connector, f, id, t[id]) :: t[id]
  }

  /** The days of the rows a file replaces, and of its own. */
  function StaleDays(connector: string, rows: CloudTable, f: CloudFile): set<string> {
    var t := Insert(connector, rows, f);
    set id | id in t && Stale(connector, f, id, t[id]) :: t[id].day
  }

  function Days(f: CloudFile): set<string> {
    set n | 0 <= n < |f.lines| && f.lines[n].Accepted? :: f.lines[n].row.day
  }

  /** Where an import stands: the table, the hashes met, the money accepted, the files kept
      and the days touched. */
  datatype Progress = Progress(rows: CloudTable, seen: set<string>, abs: nat, kept: seq<CloudFile>, days: set<string>)

  predicate Fits(p: Progress, f: CloudFile) {
    f.complete && p.abs + AbsTotal(f.lines) <= MAX_INT64
  }

  function StepFile(connector: string, p: Progress, f: CloudFile): Progress {
    if f.skipped || f.sha in p.seen then p
    else if !Fits(p, f) then p.(seen := p.seen + {f.sha})
    else Progress(Replace(connector, p.rows, f), p.seen + {f.sha}, p.abs + AbsTotal(f.lines), p.kept + [f],
                  p.days + Days(f) + StaleDays(connector, p.rows, f))
  }

  function Import(connector: string, rows: CloudTable, files: seq<CloudFile>): Progress
  {
    if files == [] then Progress(rows, {}, 0, [], {})
    else StepFile(connector, Import(connector, rows, files[..|files| - 1]), files[|files| - 1])
  }

  /** Which files an import keeps depends on the files alone, never on what is stored. */
  lemma {:induction false} KeptIsDecidedByTheFolder(connector: string, a: CloudTable, b: CloudTable,
                                                    files: seq<CloudFile>)
    ensures var p, q := Import(connector, a, files), Import(connector, b, files);
            p.seen == q.seen && p.abs == q.abs && p.kept == q.kept
  {
    if files != [] {
      KeptIsDecidedByTheFolder(connector, a, b, files[..|files| - 1]);
    }
  }

  /** A folder lists a path once. */
  ghost predicate Folder(files: seq<CloudFile>) {
    forall i, j :: 0 <= i < j < |files| ==> files[i].path != files[j].path
  }

  // ------------------------------------------------------------ which files are kept

  /** A file that can be hashed, none before it in the folder having its bytes. */
  predicate FirstOfItsBytes(files: seq<CloudFile>, i: nat)
    requires i < |files|
  {
    !files[i].skipped && forall j :: 0 <= j < i && !files[j].skipped ==> files[j].sha != files[i].sha
  }

  /** The folder decides alone: the first of its bytes, read to its end, and with the kept files
      before it within what 64 bits hold. */
  predicate Keeps(files: seq<CloudFile>, i: nat)
    requires i < |files|
    decreases i, 1
  {
    FirstOfItsBytes(files, i) && WithinLimits(files, i)
  }

  predicate WithinLimits(files: seq<CloudFile>, i: nat)
    requires i < |files|
    decreases i, 0, 1
  {
    files[i].complete && KeptAbs(files, i) + AbsTotal(files[i].lines) <= MAX_INT64
  }

  function KeptAbs(files: seq<CloudFile>, n: nat): nat
    requires n <= |files|
    decreases n, 0, 0
  {
    if n == 0 then 0
    else KeptAbs(files, n - 1) + (if Keeps(files, n - 1) then AbsTotal(files[n - 1].lines) else 0)
  }

  function KeptOf(files: seq<CloudFile>, n: nat): seq<CloudFile>
    requires n <= |files|
  {
    if n == 0 then []
    else if Keeps(files, n - 1) then KeptOf(files, n - 1) + [files[n - 1]]
    else KeptOf(files, n - 1)
  }

  /** The import has met the first n files and kept of them what the folder says. */
  ghost predicate AsKept(p: Progress, files: seq<CloudFile>, n: nat)
    requires n <= |files|
  {
    p.kept == KeptOf(files, n) && p.abs == KeptAbs(files, n) && p.seen == SeenOf(files, n)
  }

  function SeenOf(files: seq<CloudFile>, n: nat): set<string>
    requires n <= |files|
  {
    if n == 0 then {}
    else if files[n - 1].skipped then SeenOf(files, n - 1)
    else SeenOf(files, n - 1) + {files[n - 1].sha}
  }

  lemma {:induction false} SeenAmong(files: seq<CloudFile>, n: nat, sha: string)
    requires n <= |files|
    ensures sha in SeenOf(files, n) <==> exists j :: 0 <= j < n && !files[j].skipped && files[j].sha == sha
  {
    if n > 0 {
      SeenAmong(files, n - 1, sha);
    }
  }

  lemma FirstIsUnseen(files: seq<CloudFile>, n: nat)
    requires n < |files|
    ensures FirstOfItsBytes(files, n) <==> !files[n].skipped && files[n].sha !in SeenOf(files, n)
  {
    SeenAmong(files, n, files[n].sha);
  }

  lemma NextFile(connector: string, rows: CloudTable, files: seq<CloudFile>, n: nat)
    requires n < |files|
    ensures Import(connector, rows, files[..n + 1])
            == StepFile(connector, Import(connector, rows, files[..n]), files[n])
  {
    assert files[..n + 1][..n] == files[..n];
  }

  /** One more file as the folder sees it. */
  lemma OneMoreOf(files: seq<CloudFile>, n: nat)
    requires n < |files|
    ensures KeptOf(files, n + 1) == if Keeps(files, n) then KeptOf(files, n) + [files[n]] else KeptOf(files, n)
    ensures KeptAbs(files, n + 1) == KeptAbs(files, n) + (if Keeps(files, n) then AbsTotal(files[n].lines) else 0)
    ensures SeenOf(files, n + 1) == if files[n].skipped then SeenOf(files, n) else SeenOf(files, n) + {files[n].sha}
  {
  }

  lemma KeepsAsItStands(p: Progress, files: seq<CloudFile>, n: nat)
    requires n < |files| && AsKept(p, files, n)
    ensures Keeps(files, n) <==> !files[n].skipped && files[n].sha !in p.seen && Fits(p, files[n])
  {
    FirstIsUnseen(files, n);
    assert Keeps(files, n) <==> FirstOfItsBytes(files, n) && WithinLimits(files, n);
  }

  lemma StepKeeps(connector: string, p: Progress, files: seq<CloudFile>, n: nat)
    requires n < |files| && AsKept(p, files, n)
    ensures AsKept(StepFile(connector, p, files[n]), files, n + 1)
    ensures StepFile(connector, p, files[n]).rows
            == if Keeps(files, n) then Replace(connector, p.rows, files[n]) else p.rows
  {
    OneMoreOf(files, n);
    KeepsAsItStands(p, files, n);
    if files[n].sha in p.seen {
      assert p.seen + {files[n].sha} == p.seen;
    }
  }

  /** What an import keeps, whatever was stored before it. */
  lemma {:induction false} ImportKeeps(connector: string, rows: CloudTable, files: seq<CloudFile>, n: nat)
    requires n <= |files|
    ensures AsKept(Import(connector, rows, files[..n]), files, n)
  {
    if n > 0 {
      ImportKeeps(connector, rows, files, n - 1);
      NextFile(connector, rows, files, n - 1);
      StepKeeps(connector, Import(connector, rows, files[..n - 1]), files, n - 1);
    }
  }

  /** A file of the folder is kept if and only if it is the first of its bytes, is read to its end
      and fits. */
  lemma KeptIff(connector: string, rows: CloudTable, files: seq<CloudFile>, i: nat)
    requires Folder(files) && i < |files|
    ensures files[i] in Import(connector, rows, files).kept <==> Keeps(files, i)
  {
    ImportKeeps(connector, rows, files, |files|);
    assert files[..|files|] == files;
    KeptAmong(files, |files|, files[i]);
    OnlyOneIs(files, i);
  }

  lemma OnlyOneIs(files: seq<CloudFile>, i: nat)
    requires Folder(files) && i < |files|
    ensures forall j :: 0 <= j < |files| && files[j] == files[i] ==> j == i
  {
  }

  lemma {:induction false} KeptAmong(files: seq<CloudFile>, n: nat, f: CloudFile)
    requires n <= |files|
    ensures f in KeptOf(files, n) <==> exists i :: 0 <= i < n && Keeps(files, i) && files[i] == f
  {
    if n > 0 {
      KeptAmong(files, n - 1, f);
      if f in KeptOf(files, n) && f !in KeptOf(files, n - 1) {
        assert Keeps(files, n - 1) && files[n - 1] == f;
      }
    }
  }

  // ------------------------------------------------------------ the closed form

  /** A kept file has this row under the import's settings. */
  ghost predicate HeldBy(connector: string, kept: seq<CloudFile>, id: CloudId) {
    exists i :: 0 <= i < |kept| && Holds(connector, kept[i], id)
  }

  /** A kept file with other content took the row's path. */
  ghost predicate Displaced(connector: string, kept: seq<CloudFile>, id: CloudId, row: CloudRow) {
    exists i :: 0 <= i < |kept| && Stale(connector, kept[i], id, row)
  }

  /** The row an import leaves under id, in one formula over the table before it and the
      files it kept: a kept file's row as that file has it, any other row as it was unless a
      kept file with other content took its path. */
  ghost predicate Closed(connector: string, before: CloudTable, kept: seq<CloudFile>, after: CloudTable, id: CloudId) {
    if HeldBy(connector, kept, id) then
      id in after
      && forall i :: 0 <= i < |kept| && Holds(connector, kept[i], id) ==> after[id] == RowOf(connector, kept[i], id)
    else
      && (id in after <==> id in before && !Displaced(connector, kept, id, before[id]))
      && (id in after ==> after[id] == before[id])
  }

  /** No two kept files share a path or their bytes. */
  ghost predicate Apart(kept: seq<CloudFile>) {
    forall i, j :: 0 <= i < j < |kept| ==> kept[i].path != kept[j].path && kept[i].sha != kept[j].sha
  }

  lemma {:induction false} KeptAreApart(files: seq<CloudFile>, n: nat)
    requires n <= |files| && Folder(files)
    ensures Apart(KeptOf(files, n))
  {
    if n > 0 {
      KeptAreApart(files, n - 1);
      if Keeps(files, n - 1) {
        forall g | g in KeptOf(files, n - 1) ensures g.path != files[n - 1].path && g.sha != files[n - 1].sha {
          KeptAmong(files, n - 1, g);
          var j :| 0 <= j < n - 1 && Keeps(files, j) && files[j] == g;
        }
      }
    }
  }

  /** Every import, whatever settings the stored rows were accepted under, has the closed form. */
  lemma ImportClosedForm(connector: string, rows: CloudTable, files: seq<CloudFile>, id: CloudId)
    requires Folder(files)
    ensures Closed(connector, rows, KeptOf(files, |files|), Import(connector, rows, files).rows, id)
  {
    PrefixClosedForm(connector, rows, files, |files|, id);
    assert files[..|files|] == files;
  }

  lemma {:induction false} PrefixClosedForm(connector: string, rows: CloudTable, files: seq<CloudFile>, n: nat,
                                            id: CloudId)
    requires Folder(files) && n <= |files|
    ensures Closed(connector, rows, KeptOf(files, n), Import(connector, rows, files[..n]).rows, id)
  {
    if n > 0 {
      var p := Import(connector, rows, files[..n - 1]);
      PrefixClosedForm(connector, rows, files, n - 1, id);
      ImportKeeps(connector, rows, files, n - 1);
      NextFile(connector, rows, files, n - 1);
      StepKeeps(connector, p, files, n - 1);
      KeptAreApart(files, n);
      if Keeps(files, n - 1) {
        OneMoreKept(connector, rows, p, files[n - 1], id);
      }
    }
  }

  lemma OneMoreKept(connector: string, before: CloudTable, p: Progress, f: CloudFile, id: CloudId)
    requires Apart(p.kept + [f]) && Closed(connector, before, p.kept, p.rows, id)
    ensures Closed(connector, before, p.kept + [f], Replace(connector, p.rows, f), id)
  {
    var kept := p.kept + [f];
    assert kept[|p.kept|] == f;
    assert forall i :: 0 <= i < |p.kept| ==> kept[i] == p.kept[i];
    OneMoreHolds(connector, p.kept, f, id);
    if HeldBy(connector, p.kept, id) {
      var i :| 0 <= i < |p.kept| && Holds(connector, p.kept[i], id);
      assert p.rows[id] == RowOf(connector, kept[i], id);
    } else if id in before {
      OneMoreDisplaces(connector, p.kept, f, id, before[id]);
    }
  }

  lemma OneMoreHolds(connector: string, kept: seq<CloudFile>, f: CloudFile, id: CloudId)
    ensures HeldBy(connector, kept + [f], id) <==> HeldBy(connector, kept, id) || Holds(connector, f, id)
  {
    assert (kept + [f])[|kept|] == f;
    if HeldBy(connector, kept, id) {
      var i :| 0 <= i < |kept| && Holds(connector, kept[i], id);
      assert (kept + [f])[i] == kept[i];
    }
  }

  lemma OneMoreDisplaces(connector: string, kept: seq<CloudFile>, f: CloudFile, id: CloudId, row: CloudRow)
    ensures Displaced(connector, kept + [f], id, row) <==>
            Displaced(connector, kept, id, row) || Stale(connector, f, id, row)
  {
    assert (kept + [f])[|kept|] == f;
    if Displaced(connector, kept, id, row) {
      var i :| 0 <= i < |kept| && Stale(connector, kept[i], id, row);
      assert (kept + [f])[i] == kept[i];
    }
  }

  // ------------------------------------------------------ what an import does

  /** A stored row of the file's own bytes that the file has no more under these settings. */
  predicate Leftover(connector: string, rows: CloudTable, f: CloudFile, id: CloudId) {
    && id in rows && rows[id].path == f.path && id.connector == connector && id.sha == f.sha
    && !Holds(connector, f, id)
  }

  /** What a kept file's path holds afterwards: the file's rows as it has them, none of other
      content, and what the same bytes left there under earlier settings. */
  lemma KeptFileAndLeftovers(connector: string, rows: CloudTable, files: seq<CloudFile>, i: nat, id: CloudId)
    requires Folder(files) && i < |files| && Keeps(files, i) && id.connector == connector
    ensures var after, f := Import(connector, rows, files).rows, files[i];
            && ((id in after && after[id].path == f.path) <==>
                Holds(connector, f, id) || Leftover(connector, rows, f, id))
            && (Holds(connector, f, id) ==> after[id] == RowOf(connector, f, id))
            && (Leftover(connector, rows, f, id) ==> after[id] == rows[id])
  {
    var kept := KeptOf(files, |files|);
    ImportClosedForm(connector, rows, files, id);
    KeptAreApart(files, |files|);
    KeptAmong(files, |files|, files[i]);
    var k :| 0 <= k < |kept| && kept[k] == files[i];
    ClosedAtItsPath(connector, rows, kept, Import(connector, rows, files).rows, k, id);
  }

  lemma ClosedAtItsPath(connector: string, rows: CloudTable, kept: seq<CloudFile>, after: CloudTable, k: nat,
                        id: CloudId)
    requires Apart(kept) && k < |kept| && Closed(connector, rows, kept, after, id) && id.connector == connector
    ensures (id in after && after[id].path == kept[k].path) <==>
            Holds(connector, kept[k], id) || Leftover(connector, rows, kept[k], id)
    ensures Holds(connector, kept[k], id) ==> after[id] == RowOf(connector, kept[k], id)
    ensures Leftover(connector, rows, kept[k], id) ==> after[id] == rows[id]
  {
    if HeldBy(connector, kept, id) {
      var j :| 0 <= j < |kept| && Holds(connector, kept[j], id);
      assert after[id] == RowOf(connector, kept[j], id);
    } else if id in rows && rows[id].path == kept[k].path {
      LeftAtItsPath(connector, kept, k, id, rows[id]);
    }
  }

  lemma LeftAtItsPath(connector: string, kept: seq<CloudFile>, i: nat, id: CloudId, row: CloudRow)
    requires Apart(kept) && i < |kept| && row.path == kept[i].path && id.connector == connector
    ensures Displaced(connector, kept, id, row) <==> id.sha != kept[i].sha
  {
    if id.sha != kept[i].sha {
      assert Stale(connector, kept[i], id, row);
    }
  }

  /** Each accepted line of a kept file is stored under its hash and number, column for column, at
      the file's path. */
  lemma KeptLinesAreStored(connector: string, rows: CloudTable, files: seq<CloudFile>, i: nat, n: nat)
    requires Folder(files) && i < |files| && Keeps(files, i) && n < |files[i].lines| && files[i].lines[n].Accepted?
    ensures var after, id := Import(connector, rows, files).rows, CloudId(connector, files[i].sha, n + 1);
            var line := files[i].lines[n].row;
            id in after && after[id] == CloudRow(files[i].path, line.day, line.service, line.team, line.category,
                                                 line.micros, line.invoice)
  {
    KeptFileAndLeftovers(connector, rows, files, i, CloudId(connector, files[i].sha, n + 1));
  }

  /** A kept file is all its path holds if and only if no row of its bytes is stored there that
      the present settings refuse. */
  lemma KeptFileIsItsPathIff(connector: string, rows: CloudTable, files: seq<CloudFile>, i: nat)
    requires Folder(files) && i < |files| && Keeps(files, i)
    ensures var after, f := Import(connector, rows, files).rows, files[i];
            (forall id :: id in after && id.connector == connector && after[id].path == f.path ==>
               Holds(connector, f, id))
            <==> !exists id :: Leftover(connector, rows, f, id)
  {
    forall id: CloudId | id.connector == connector
      ensures var after, f := Import(connector, rows, files).rows, files[i];
              (id in after && after[id].path == f.path) <==>
              Holds(connector, f, id) || Leftover(connector, rows, f, id)
    {
      KeptFileAndLeftovers(connector, rows, files, i, id);
    }
  }

  /** Some kept file of the folder has this row, at whatever path. */
  ghost predicate Rewritten(connector: string, files: seq<CloudFile>, id: CloudId) {
    exists j :: 0 <= j < |files| && Keeps(files, j) && Holds(connector, files[j], id)
  }

  lemma RewrittenIsHeld(connector: string, files: seq<CloudFile>, id: CloudId)
    ensures Rewritten(connector, files, id) <==> HeldBy(connector, KeptOf(files, |files|), id)
  {
    var kept := KeptOf(files, |files|);
    if Rewritten(connector, files, id) {
      var j :| 0 <= j < |files| && Keeps(files, j) && Holds(connector, files[j], id);
      KeptAmong(files, |files|, files[j]);
      var k :| 0 <= k < |kept| && kept[k] == files[j];
      assert Holds(connector, kept[k], id);
    }
    if HeldBy(connector, kept, id) {
      var k :| 0 <= k < |kept| && Holds(connector, kept[k], id);
      KeptAmong(files, |files|, kept[k]);
    }
  }

  /** A path of which the folder keeps no file (refused part way, over a limit, a duplicate, or
      gone) stands as it was, less the rows a file kept at another path has. */
  lemma UnkeptPathStands(connector: string, rows: CloudTable, files: seq<CloudFile>, path: string, id: CloudId)
    requires Folder(files) && id.connector == connector
    requires forall i :: 0 <= i < |files| && files[i].path == path ==> !Keeps(files, i)
    ensures var after := Import(connector, rows, files).rows;
            && ((id in after && after[id].path == path) <==>
                (id in rows && rows[id].path == path && !Rewritten(connector, files, id)))
            && (id in after && after[id].path == path ==> after[id] == rows[id])
  {
    var kept := KeptOf(files, |files|);
    ImportClosedForm(connector, rows, files, id);
    RewrittenIsHeld(connector, files, id);
    forall k | 0 <= k < |kept| ensures kept[k].path != path {
      KeptAmong(files, |files|, kept[k]);
    }
    if HeldBy(connector, kept, id) {
      var k :| 0 <= k < |kept| && Holds(connector, kept[k], id);
      assert Import(connector, rows, files).rows[id] == RowOf(connector, kept[k], id);
    }
  }

  /** A revision that cannot be read to its end leaves the earlier version of its path standing. */
  lemma BrokenRevisionLeavesItsPath(connector: string, rows: CloudTable, files: seq<CloudFile>, i: nat, id: CloudId)
    requires Folder(files) && i < |files| && !files[i].complete && id.connector == connector
    requires id in rows && rows[id].path == files[i].path && !Rewritten(connector, files, id)
    ensures var after := Import(connector, rows, files).rows; id in after && after[id] == rows[id]
  {
    UnkeptPathStands(connector, rows, files, files[i].path, id);
  }

  /** No row of other content is left at the file's path. */
  ghost predicate ClearOf(connector: string, rows: CloudTable, f: CloudFile) {
    forall id :: id in rows ==> !Stale(connector, f, id, rows[id])
  }

  /** Every row of other content at the file's path is one a kept file has. */
  ghost predicate StaleIsRewritten(connector: string, rows: CloudTable, files: seq<CloudFile>, f: CloudFile) {
    forall id :: id in rows && Stale(connector, f, id, rows[id]) ==> Rewritten(connector, files, id)
  }

  /** A file of the folder clears its path of other content if and only if it is kept, or every
      such row is one a kept file has elsewhere. */
  lemma ClearsItsPathIff(connector: string, rows: CloudTable, files: seq<CloudFile>, i: nat)
    requires Folder(files) && i < |files|
    ensures ClearOf(connector, Import(connector, rows, files).rows, files[i])
            <==> Keeps(files, i) || StaleIsRewritten(connector, rows, files, files[i])
  {
    var after, f := Import(connector, rows, files).rows, files[i];
    if Keeps(files, i) {
      forall id: CloudId | id.connector == connector ensures id in after ==> !Stale(connector, f, id, after[id]) {
        KeptFileAndLeftovers(connector, rows, files, i, id);
      }
    } else {
      forall id: CloudId | id.connector == connector
        ensures (id in after && after[id].path == f.path) <==>
                (id in rows && rows[id].path == f.path && !Rewritten(connector, files, id))
      {
        UnkeptPathStands(connector, rows, files, f.path, id);
      }
    }
  }

  /** So a file that is read to its end within the limits fails to replace its predecessor if and
      only if an earlier file of the folder has its bytes and a row of the predecessor is no kept
      file's. */
  lemma ReadRevisionReplacesIff(connector: string, rows: CloudTable, files: seq<CloudFile>, i: nat)
    requires Folder(files) && i < |files| && !files[i].skipped && WithinLimits(files, i)
    ensures ClearOf(connector, Import(connector, rows, files).rows, files[i])
            <==> (forall j :: 0 <= j < i && !files[j].skipped ==> files[j].sha != files[i].sha)
                 || StaleIsRewritten(connector, rows, files, files[i])
  {
    ClearsItsPathIff(connector, rows, files, i);
  }

  /** No import touches another connector's rows. */
  lemma {:induction false} OtherConnectorsStand(connector: string, rows: CloudTable, files: seq<CloudFile>, id: CloudId)
    requires id.connector != connector
    ensures var after := Import(connector, rows, files).rows;
            (id in after <==> id in rows) && (id in after ==> after[id] == rows[id])
  {
    if files != [] {
      OtherConnectorsStand(connector, rows, files[..|files| - 1], id);
    }
  }

  /** Importing the same folder under the same settings again changes no row, whatever was
      stored before the first. */
  lemma ImportTwiceIsImportOnce(connector: string, rows: CloudTable, files: seq<CloudFile>)
    requires Folder(files)
    ensures var once := Import(connector, rows, files).rows; Import(connector, once, files).rows == once
  {
    var once := Import(connector, rows, files).rows;
    forall id
      ensures id in Import(connector, once, files).rows <==> id in once
      ensures id in once ==> Import(connector, once, files).rows[id] == once[id]
    {
      ImportClosedForm(connector, rows, files, id);
      ImportClosedForm(connector, once, files, id);
      ClosedTwice(connector, rows, KeptOf(files, |files|), once, Import(connector, once, files).rows, id);
    }
  }

  lemma ClosedTwice(connector: string, before: CloudTable, kept: seq<CloudFile>, once: CloudTable,
                    twice: CloudTable, id: CloudId)
    requires Closed(connector, before, kept, once, id) && Closed(connector, once, kept, twice, id)
    ensures id in twice <==> id in once
    ensures id in once ==> twice[id] == once[id]
  {
    if HeldBy(connector, kept, id) {
      var j :| 0 <= j < |kept| && Holds(connector, kept[j], id);
    }
  }

  // ------------------------------------------------- one content for one path

  ghost predicate OneHashPerPath(rows: CloudTable) {
    forall a, b :: a in rows && b in rows && a.connector == b.connector && rows[a].path == rows[b].path ==>
      a.sha == b.sha
  }

  lemma {:induction false} ImportKeepsOneHash(connector: string, rows: CloudTable, files: seq<CloudFile>)
    requires OneHashPerPath(rows)
    ensures OneHashPerPath(Import(connector, rows, files).rows)
  {
    if files != [] {
      ImportKeepsOneHash(connector, rows, files[..|files| - 1]);
    }
  }

  /** The table after any number of imports, of any connectors, settings and folders. */
  function AfterImports(imports: seq<(string, seq<CloudFile>)>): CloudTable {
    if imports == [] then map[]
    else
      var last := imports[|imports| - 1];
      Import(last.0, AfterImports(imports[..|imports| - 1]), last.1).rows
  }

  /** In every reachable table each path of a connector holds rows of one content. */
  lemma {:induction false} ReachableTablesHoldOneHashPerPath(imports: seq<(string, seq<CloudFile>)>)
    ensures OneHashPerPath(AfterImports(imports))
  {
    if imports != [] {
      var last := imports[|imports| - 1];
      ReachableTablesHoldOneHashPerPath(imports[..|imports| - 1]);
      ImportKeepsOneHash(last.0, AfterImports(imports[..|imports| - 1]), last.1);
    }
  }

  // --------------------------------------------------------- the days touched

  datatype CloudSpec = CloudSpec(id: string, source: string)

  const AWS := CloudSpec("aws-data-exports", "aws")
  const GCP := CloudSpec("gcp-billing-export", "gcp")

  function EntryOf(spec: CloudSpec, r: CloudRow): ChargeEntry {
    Entry(ChargeKey(Some(spec.id), spec.source, r.day, r.service, r.team, r.category, "", r.invoice), r.micros, 0)
  }

  function Entries(spec: CloudSpec, rows: CloudTable): map<CloudId, ChargeEntry> {
    map id | id in rows && id.connector == spec.id :: EntryOf(spec, rows[id])
  }

  /** The day of a row is read from the file, whatever the settings. */
  predicate DaysAgree(a: seq<Line>, b: seq<Line>) {
    forall n :: 0 <= n < |a| && n < |b| && a[n].Accepted? && b[n].Accepted? ==> a[n].row.day == b[n].row.day
  }

  /** A file of some import of this connector. */
  ghost predicate ReadIn(imports: seq<(string, seq<CloudFile>)>, connector: string, f: CloudFile) {
    exists k :: 0 <= k < |imports| && imports[k].0 == connector && f in imports[k].1
  }

  /** Imports under whatever settings: one hash reports its rows on one set of days. */
  ghost predicate OneSetOfDays(imports: seq<(string, seq<CloudFile>)>) {
    forall connector, f, g ::
      ReadIn(imports, connector, f) && ReadIn(imports, connector, g) && f.sha == g.sha ==> DaysAgree(f.lines, g.lines)
  }

  /** Each row is from before the import or from a file of it. */
  lemma {:induction false} RowsComeFrom(connector: string, rows: CloudTable, files: seq<CloudFile>, id: CloudId)
    requires id in Import(connector, rows, files).rows
    ensures var row := Import(connector, rows, files).rows[id];
            || (id in rows && row == rows[id])
            || exists f :: f in files && Holds(connector, f, id) && row == RowOf(connector, f, id)
  {
    if files != [] {
      var n := |files| - 1;
      var p, f := Import(connector, rows, files[..n]), files[n];
      if id in p.rows {
        RowsComeFrom(connector, rows, files[..n], id);
        assert forall g :: g in files[..n] ==> g in files;
      }
      assert f in files;
    }
  }

  /** And each row of a reachable table has the day a file of some import reported it on. */
  lemma {:induction false} RowsHaveTheirDay(imports: seq<(string, seq<CloudFile>)>, id: CloudId) returns (f: CloudFile)
    requires id in AfterImports(imports)
    ensures ReadIn(imports, id.connector, f) && Holds(id.connector, f, id)
    ensures AfterImports(imports)[id].day == RowOf(id.connector, f, id).day
  {
    var n := |imports| - 1;
    var before, last := AfterImports(imports[..n]), imports[n];
    RowsComeFrom(last.0, before, last.1, id);
    if id in before && AfterImports(imports)[id] == before[id] {
      f := RowsHaveTheirDay(imports[..n], id);
      var k :| 0 <= k < n && imports[..n][k].0 == id.connector && f in imports[..n][k].1;
      assert imports[k].0 == id.connector && f in imports[k].1;
    } else {
      f :| f in last.1 && Holds(last.0, f, id) && AfterImports(imports)[id] == RowOf(last.0, f, id);
      assert imports[n].0 == id.connector && f in imports[n].1;
    }
  }

  /** The stored rows of the folder's hashes stand on the days the folder reports them on. */
  ghost predicate DaysFixed(connector: string, rows: CloudTable, files: seq<CloudFile>) {
    forall id, i :: id in rows && 0 <= i < |files| && Holds(connector, files[i], id) ==>
      rows[id].day == files[i].lines[id.rowNo - 1].row.day
  }

  /** So after any imports the next folder finds its rows on its own days. */
  lemma ReachableDaysAreFixed(imports: seq<(string, seq<CloudFile>)>, connector: string, files: seq<CloudFile>)
    requires OneSetOfDays(imports + [(connector, files)])
    ensures DaysFixed(connector, AfterImports(imports), files) && OneFolderDays(files)
  {
    var all := imports + [(connector, files)];
    assert forall f :: f in files ==> f in all[|imports|].1;
    forall i | 0 <= i < |files| ensures ReadIn(all, connector, files[i]) {
      assert all[|imports|].0 == connector && files[i] in all[|imports|].1;
    }
    forall id, i | id in AfterImports(imports) && 0 <= i < |files| && Holds(connector, files[i], id)
      ensures AfterImports(imports)[id].day == files[i].lines[id.rowNo - 1].row.day
    {
      var f := RowsHaveTheirDay(imports, id);
      StillRead(imports, (connector, files), connector, f);
      assert DaysAgree(f.lines, files[i].lines);
    }
  }

  lemma StillRead(imports: seq<(string, seq<CloudFile>)>, next: (string, seq<CloudFile>), connector: string,
                  f: CloudFile)
    requires ReadIn(imports, connector, f)
    ensures ReadIn(imports + [next], connector, f)
  {
    var k :| 0 <= k < |imports| && imports[k].0 == connector && f in imports[k].1;
    assert (imports + [next])[k] == imports[k];
  }

  lemma OneMoreImport(imports: seq<(string, seq<CloudFile>)>, connector: string, files: seq<CloudFile>)
    ensures AfterImports(imports + [(connector, files)]) == Import(connector, AfterImports(imports), files).rows
  {
    assert (imports + [(connector, files)])[..|imports|] == imports;
  }

  lemma SameDaysAgain(imports: seq<(string, seq<CloudFile>)>, next: (string, seq<CloudFile>))
    requires OneSetOfDays(imports + [next])
    ensures OneSetOfDays(imports + [next] + [next])
  {
    var once, twice := imports + [next], imports + [next] + [next];
    forall connector, f | ReadIn(twice, connector, f) ensures ReadIn(once, connector, f) {
      var k :| 0 <= k < |twice| && twice[k].0 == connector && f in twice[k].1;
      var j := if k < |once| then k else |imports|;
      assert once[j] == twice[k];
    }
  }

  ghost predicate OneFolderDays(files: seq<CloudFile>) {
    forall i, j :: 0 <= i < |files| && 0 <= j < |files| && files[i].sha == files[j].sha ==>
      DaysAgree(files[i].lines, files[j].lines)
  }

  lemma ReplaceTouches(spec: CloudSpec, rows: CloudTable, f: CloudFile)
    requires forall id :: id in rows && Holds(spec.id, f, id) ==> rows[id].day == f.lines[id.rowNo - 1].row.day
    ensures AgreeOff(Entries(spec, rows), Entries(spec, Replace(spec.id, rows, f)),
                     Days(f) + StaleDays(spec.id, rows, f))
  {
    var t := Insert(spec.id, rows, f);
    var after := Replace(spec.id, rows, f);
    var days := Days(f) + StaleDays(spec.id, rows, f);
    forall id | Holds(spec.id, f, id) ensures f.lines[id.rowNo - 1].row.day in days {
    }
    forall id | id in t && Stale(spec.id, f, id, t[id]) ensures t[id].day in days {
    }
  }

  lemma DaysStayFixed(connector: string, rows: CloudTable, files: seq<CloudFile>, k: nat)
    requires OneFolderDays(files) && DaysFixed(connector, rows, files) && k < |files|
    ensures DaysFixed(connector, Replace(connector, rows, files[k]), files)
  {
    forall id, i | id in Replace(connector, rows, files[k]) && 0 <= i < |files| && Holds(connector, files[i], id)
      ensures Replace(connector, rows, files[k])[id].day == files[i].lines[id.rowNo - 1].row.day
    {
      if Holds(connector, files[k], id) {
        assert DaysAgree(files[k].lines, files[i].lines);
      }
    }
  }

  /** One more file of the import moves rows of the days reported by then only. */
  lemma StepFileTouches(spec: CloudSpec, p: Progress, files: seq<CloudFile>, k: nat)
    requires OneFolderDays(files) && DaysFixed(spec.id, p.rows, files) && k < |files|
    ensures var q := StepFile(spec.id, p, files[k]);
            && DaysFixed(spec.id, q.rows, files) && p.days <= q.days
            && AgreeOff(Entries(spec, p.rows), Entries(spec, q.rows), q.days)
  {
    var f, q := files[k], StepFile(spec.id, p, files[k]);
    if q.rows != p.rows {
      DaysStayFixed(spec.id, p.rows, files, k);
      ReplaceTouches(spec, p.rows, f);
      AgreeOffMore(Entries(spec, p.rows), Entries(spec, q.rows), Days(f) + StaleDays(spec.id, p.rows, f), q.days);
    }
  }

  lemma {:induction false} PrefixTouches(spec: CloudSpec, rows: CloudTable, files: seq<CloudFile>, k: nat)
    requires OneFolderDays(files) && DaysFixed(spec.id, rows, files) && k <= |files|
    ensures var p := Import(spec.id, rows, files[..k]);
            DaysFixed(spec.id, p.rows, files) && AgreeOff(Entries(spec, rows), Entries(spec, p.rows), p.days)
  {
    if k > 0 {
      var p := Import(spec.id, rows, files[..k - 1]);
      PrefixTouches(spec, rows, files, k - 1);
      NextFile(spec.id, rows, files, k - 1);
      StepFileTouches(spec, p, files, k - 1);
      AgreeFurther(spec, rows, p, StepFile(spec.id, p, files[k - 1]));
    }
  }

  lemma AgreeFurther(spec: CloudSpec, rows: CloudTable, p: Progress, q: Progress)
    requires AgreeOff(Entries(spec, rows), Entries(spec, p.rows), p.days) && p.days <= q.days
    requires AgreeOff(Entries(spec, p.rows), Entries(spec, q.rows), q.days)
    ensures AgreeOff(Entries(spec, rows), Entries(spec, q.rows), q.days)
  {
    AgreeOffMore(Entries(spec, rows), Entries(spec, p.rows), p.days, q.days);
    AgreeOffTransitive(Entries(spec, rows), Entries(spec, p.rows), Entries(spec, q.rows), q.days, q.days);
    assert q.days + q.days == q.days;
  }

  /** The days an import reports are all the days whose rows it moved: rows written, rows
      replaced, and nothing for a file it refused. */
  lemma ImportTouches(spec: CloudSpec, rows: CloudTable, files: seq<CloudFile>)
    requires OneFolderDays(files) && DaysFixed(spec.id, rows, files)
    ensures var p := Import(spec.id, rows, files);
            DaysFixed(spec.id, p.rows, files) && AgreeOff(Entries(spec, rows), Entries(spec, p.rows), p.days)
  {
    PrefixTouches(spec, rows, files, |files|);
    assert files[..|files|] == files;
  }

  // ------------------------------------------- bytes already met in the folder

  /** A file with the bytes of an earlier one is passed over before the rows its path held
      are cleared: the folder's b.csv was overwritten with a.csv's bytes, and the charges of
      its former content stay in the table beside a.csv's. */
  lemma DuplicateLeavesItsPathStale() returns (rows: CloudTable, files: seq<CloudFile>, id: CloudId)
    ensures Folder(files)
    ensures |files| == 2 && forall f :: f in files ==> !f.skipped && f.complete
    ensures var after := Import(AWS.id, rows, files).rows;
            id in after && after[id].path == files[1].path && id.sha != files[1].sha
  {
    var row := CloudRow("b.csv", "2026-09-01", "EC2", "", "Usage", 5, "");
    var lines := [Accepted(row)];
    id := CloudId(AWS.id, "former", 1);
    rows := map[id := row];
    var a, b := CloudFile("a.csv", "bytes", false, lines, true), CloudFile("b.csv", "bytes", false, lines, true);
    files := [a, b];
    assert files[..1] == [a] && [a][..0] == [];
    assert AbsTotal(lines) == 5 by {
      assert lines[..0] == [];
    }
    var start := Progress(rows, {}, 0, [], {});
    assert Import(AWS.id, rows, [a]) == StepFile(AWS.id, start, a);
    assert Import(AWS.id, rows, files) == StepFile(AWS.id, Import(AWS.id, rows, [a]), b);
    assert !FirstOfItsBytes(files, 1);
    UnkeptPathStands(AWS.id, rows, files, "b.csv", id);
  }

  // ------------------------------------------------ settings that were changed

  /** The folder's one file under settings that accept its row, and under settings that do not. */
  function OneRowFile(accepted: bool): CloudFile {
    var row := CloudRow("a.csv", "2026-09-01", "EC2", "", "Usage", 5, "");
    CloudFile("a.csv", "bytes", false, [if accepted then Accepted(row) else Refused], true)
  }

  lemma OneFileImport(connector: string, rows: CloudTable, f: CloudFile)
    requires !f.skipped && Fits(Progress(rows, {}, 0, [], {}), f)
    ensures Folder([f]) && Import(connector, rows, [f]).kept == [f]
    ensures Import(connector, rows, [f]).rows == Replace(connector, rows, f)
  {
    assert [f][..0] == [];
    assert Import(connector, rows, [f]) == StepFile(connector, Progress(rows, {}, 0, [], {}), f);
  }

  lemma OneRowFileFits(accepted: bool)
    ensures AbsTotal(OneRowFile(accepted).lines) <= 5
  {
    assert OneRowFile(accepted).lines[..0] == [];
  }

  /** A file accepted under one provider_names setting is imported again after its provider was
      taken off the list: the file is read to its end and kept, and the row its bytes left stays
      in the table and among the charges, although no row of the file is accepted any more. */
  lemma NarrowedSettingsLeaveTheirRows() returns (id: CloudId)
    ensures var wide, narrow := OneRowFile(true), OneRowFile(false);
            var once := Import(GCP.id, map[], [wide]).rows;
            var p := Import(GCP.id, once, [narrow]);
            && wide.path == narrow.path && wide.sha == narrow.sha && p.kept == [narrow]
            && id in p.rows && p.rows[id].path == narrow.path && !Holds(GCP.id, narrow, id)
            && id in Entries(GCP, p.rows)
  {
    var wide, narrow := OneRowFile(true), OneRowFile(false);
    id := CloudId(GCP.id, "bytes", 1);
    OneRowFileFits(true);
    OneRowFileFits(false);
    OneFileImport(GCP.id, map[], wide);
    var once := Import(GCP.id, map[], [wide]).rows;
    assert Holds(GCP.id, wide, id);
    OneFileImport(GCP.id, once, narrow);
  }
}
