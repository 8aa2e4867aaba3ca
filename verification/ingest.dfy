/**
 The upload batch: each file is accepted, skipped or reported, the accepted
 files are merged in upload order, and the merge is renamed and projected into
 the processed table held by the session.
 */
module Ingest {
  import opened Wrappers
  import opened Cells
  import opened Tables
  import opened Columns

  /**
   One uploaded file as the spreadsheet reader returns it (its first row
   dropped, the next row taken as the header), or a file the reader failed on.
   */
  datatype Upload = Readable(table: Table) | Unreadable

  /** What the batch did with one file. */
  datatype Verdict =
    | Accepted          // appended to the merge
    | MissingRequired   // warned about and skipped
    | NoRows            // warned about and not appended
    | ReadFailed        // reported as an error; stops the merge

  predicate HasRequired(t: Table) {
    forall c :: c in REQUIRED_ORIGINAL ==> c in t.columns
  }

  /** The check order of one file: required headers first, then emptiness. */
  function Classify(u: Upload): (v: Verdict)
    ensures v == ReadFailed <==> u.Unreadable?
    ensures v == MissingRequired <==> u.Readable? && !HasRequired(u.table)
    ensures v == NoRows <==> u.Readable? && HasRequired(u.table) && |u.table.rows| == 0
    ensures v == Accepted <==> u.Readable? && HasRequired(u.table) && |u.table.rows| > 0
  {
    match u
    case Unreadable => ReadFailed
    case Readable(t) =>
      if !HasRequired(t) then MissingRequired
      else if |t.rows| == 0 then NoRows
      else Accepted
  }

  /** The tables of the accepted files, in upload order. */
  function AcceptedTables(us: seq<Upload>): (ts: seq<Table>)
    ensures forall t :: t in ts ==> HasRequired(t) && |t.rows| > 0
    ensures |ts| <= |us|
  {
    if |us| == 0 then []
    else
      var init := AcceptedTables(us[..|us| - 1]);
      var last := us[|us| - 1];
      if Classify(last) == Accepted then init + [last.table] else init
  }

  /** Acceptance is decided file by file: the accepted tables of two batches in a row are those of each, in turn. */
  lemma {:induction false} AcceptedTablesAppend(a: seq<Upload>, b: seq<Upload>)
    ensures AcceptedTables(a + b) == AcceptedTables(a) + AcceptedTables(b)
    decreases |b|
  {
    if |b| == 0 {
      assert a + b == a;
    } else {
      var b' := b[..|b| - 1];
      assert (a + b)[..|a + b| - 1] == a + b';
      assert (a + b)[|a + b| - 1] == b[|b| - 1];
      AcceptedTablesAppend(a, b');
    }
  }

  /** A file that is skipped, empty or unreadable leaves the other files' tables as they were. */
  lemma {:induction false} RejectedFileChangesNothing(a: seq<Upload>, u: Upload, b: seq<Upload>)
    requires Classify(u) != Accepted
    ensures AcceptedTables(a + [u] + b) == AcceptedTables(a) + AcceptedTables(b)
  {
    AcceptedTablesAppend(a + [u], b);
    AcceptedTablesAppend(a, [u]);
    assert [u][..0] == [];
  }

  predicate AnyUnreadable(us: seq<Upload>) {
    exists i :: 0 <= i < |us| && us[i].Unreadable?
  }

  /** How the batch ended. */
  datatype Status =
    | Merged                               // processed table stored
    | MissingAfterRename(names: seq<string>) // fixed columns absent after renaming
    | NothingExtracted                     // no file accepted, none failed
    | Stopped                              // some file could not be read
    | Raised                               // the cohort cut raised; the outer handler cleared the session

  /** What the session keeps: the merged table and the processed table, either possibly absent. */
  datatype Session = Session(combined: Option<Table>, processed: Option<seq<Record>>)

  const Cleared := Session(None, None)

  datatype Batch = Batch(verdicts: seq<Verdict>, status: Status, session: Session)

  /** The four required headers survive the merge and become the fixed columns after renaming. */
  lemma {:induction false} MergedHasFixedColumns(ts: seq<Table>)
    requires |ts| > 0 && forall t :: t in ts ==> HasRequired(t)
    ensures forall c :: c in REQUIRED_ORIGINAL ==> c in Concat(ts).columns
    ensures MissingColumns(Rename(Concat(ts)).columns) == []
  {
    var merged := Concat(ts);
    var renamed := Rename(merged);
    assert ts[0] in ts;
    forall k | 0 <= k < |REQUIRED_ORIGINAL|
      ensures FIXED_COLUMNS[k] in renamed.columns
    {
      var c := REQUIRED_ORIGINAL[k];
      assert c in ts[0].columns;
      var j := IndexOf(merged.columns, c);
      RenameRequired();
      assert renamed.columns[j] == FIXED_COLUMNS[k];
    }
    assert forall c :: c in FIXED_COLUMNS ==> c in renamed.columns;
  }

  function Verdicts(us: seq<Upload>): (vs: seq<Verdict>)
    ensures |vs| == |us| && forall i :: 0 <= i < |us| ==> vs[i] == Classify(us[i])
  {
    seq(|us|, i requires 0 <= i < |us| => Classify(us[i]))
  }

  /**
   One pass over the uploads (the loop and the merge decision). The merge
   happens only when some file was accepted and none failed. It stores the
   merged table under its original headers, the corrected behaviour of the
   Findings row in README.md (the script itself stores the object it then
   renames, see `CombinedAsWritten`), and the processed table. When renaming
   gives two cohort columns, the cohort cut raises and the outer handler
   clears both.
   */
  function ProcessBatch(us: seq<Upload>): (b: Batch)
    ensures AnyUnreadable(us) ==> b.status == Stopped && b.session == Cleared
    ensures !AnyUnreadable(us) && |AcceptedTables(us)| == 0 ==> b.status == NothingExtracted && b.session == Cleared
    ensures !AnyUnreadable(us) && |AcceptedTables(us)| > 0 && CohortClash(Concat(AcceptedTables(us)).columns) ==>
      b.status == Raised && b.session == Cleared
    ensures !AnyUnreadable(us) && |AcceptedTables(us)| > 0 && !CohortClash(Concat(AcceptedTables(us)).columns) ==>
      && b.status == Merged
      && b.session.combined == Some(Concat(AcceptedTables(us)))
      && b.session.processed.Some?
      && |b.session.processed.value| == TotalRows(AcceptedTables(us))
    ensures b.session.processed.Some? ==>
      b.session.combined.Some? && Project(Rename(b.session.combined.value)) == Ok(b.session.processed.value)
    ensures !b.status.MissingAfterRename?
  {
    var verdicts := Verdicts(us);
    var accepted := AcceptedTables(us);
    if |accepted| > 0 && !AnyUnreadable(us) then
      var merged := Concat(accepted);
      MergedHasFixedColumns(accepted);
      match Project(Rename(merged))
      case Err(missing) => Batch(verdicts, MissingAfterRename(missing), Session(Some(merged), None))
      case Ok(recs) =>
        if CohortClash(merged.columns) then Batch(verdicts, Raised, Cleared)
        else Batch(verdicts, Merged, Session(Some(merged), Some(recs)))
    else if !AnyUnreadable(us) then Batch(verdicts, NothingExtracted, Cleared)
    else Batch(verdicts, Stopped, Cleared)
  }

  /** The batch reports one verdict per file, in upload order. */
  lemma {:induction false} BatchVerdicts(us: seq<Upload>)
    ensures |ProcessBatch(us).verdicts| == |us|
    ensures forall i :: 0 <= i < |us| ==> ProcessBatch(us).verdicts[i] == Classify(us[i])
  {
  }

  /** The record row `j` of an uploaded file stands for, read under the file's original headers. */
  function FileRecord(t: Table, j: nat): Record
    requires j < |t.rows|
  {
    Record(At(t, j, ORIGINAL_PERIOD), At(t, j, ORIGINAL_COURSE), Truncate(Show(At(t, j, ORIGINAL_REGISTRY))), Coerce(At(t, j, ORIGINAL_GRADE)))
  }

  /** No file of the batch already has a header with one of the new names. */
  predicate NoRenamedHeaders(ts: seq<Table>) {
    forall t :: t in ts ==> PERIOD !in t.columns && COURSE !in t.columns && COHORT !in t.columns
  }

  lemma {:induction false} NoRenamedHeadersNoClash(ts: seq<Table>)
    requires NoRenamedHeaders(ts)
    ensures NoClash(Concat(ts).columns)
  {
    var cols := Concat(ts).columns;
    forall c | c in cols
      ensures c != PERIOD && c != COURSE && c != COHORT
    {
      var k :| 0 <= k < |ts| && c in ts[k].columns;
      assert ts[k] in ts;
    }
  }

  /** Nor does renaming give two cohort columns. */
  lemma {:induction false} NoRenamedHeadersNoCohortClash(ts: seq<Table>)
    requires NoRenamedHeaders(ts)
    ensures !CohortClash(Concat(ts).columns)
  {
    forall c | c in Concat(ts).columns
      ensures c != COHORT
    {
      var k :| 0 <= k < |ts| && c in ts[k].columns;
      assert ts[k] in ts;
    }
  }

  /** A required column of the renamed merge holds, at the row a file's row went to, that row's original cell. */
  lemma {:induction false} RenamedMergeCell(ts: seq<Table>, k: nat, j: nat, c: string)
    requires NoRenamedHeaders(ts)
    requires k < |ts| && j < |ts[k].rows| && c in ts[k].columns
    ensures TotalRows(ts[..k]) + j < |Rename(Concat(ts)).rows|
    ensures At(Rename(Concat(ts)), TotalRows(ts[..k]) + j, RenameColumn(c)) == At(ts[k], j, c)
  {
    var merged := Concat(ts);
    var i := TotalRows(ts[..k]) + j;
    ConcatKeepsRows(ts, k, j, c);
    assert c in merged.columns;
    NoRenamedHeadersNoClash(ts);
    RenameKeepsCells(merged, i, c);
    assert Rename(merged).rows == merged.rows;
  }

  /** Projecting the renamed merge gives, at the row a file's row went to, that row's record. */
  lemma {:induction false} MergedRecord(ts: seq<Table>, k: nat, j: nat)
    requires forall t :: t in ts ==> HasRequired(t)
    requires NoRenamedHeaders(ts)
    requires k < |ts| && j < |ts[k].rows|
    ensures Project(Rename(Concat(ts))).Ok?
    ensures TotalRows(ts[..k]) + j < |Project(Rename(Concat(ts))).value|
    ensures Project(Rename(Concat(ts))).value[TotalRows(ts[..k]) + j] == FileRecord(ts[k], j)
  {
    var t := ts[k];
    var i := TotalRows(ts[..k]) + j;
    var renamed := Rename(Concat(ts));
    assert t in ts;
    RenamedMergeCell(ts, k, j, ORIGINAL_PERIOD);
    RenamedMergeCell(ts, k, j, ORIGINAL_COURSE);
    RenamedMergeCell(ts, k, j, ORIGINAL_REGISTRY);
    RenamedMergeCell(ts, k, j, ORIGINAL_GRADE);
    MergedHasFixedColumns(ts);
    assert Project(renamed).value[i] == ProjectRow(renamed, i);
  }

  /**
   Every processed record comes from its file's row: row `j` of the `k`-th
   accepted file becomes record "rows of the earlier accepted files + j", with
   the period and course as read, the registry number cut to its cohort and the
   grade coerced.
   */
  lemma {:induction false} ProcessedRecordFromFile(us: seq<Upload>, k: nat, j: nat)
    requires !AnyUnreadable(us)
    requires k < |AcceptedTables(us)| && j < |AcceptedTables(us)[k].rows|
    requires NoRenamedHeaders(AcceptedTables(us))
    ensures ProcessBatch(us).session.processed.Some?
    ensures TotalRows(AcceptedTables(us)[..k]) + j < |ProcessBatch(us).session.processed.value|
    ensures ProcessBatch(us).session.processed.value[TotalRows(AcceptedTables(us)[..k]) + j]
      == FileRecord(AcceptedTables(us)[k], j)
  {
    var ts := AcceptedTables(us);
    NoRenamedHeadersNoCohortClash(ts);
    BatchProcessesMerge(us);
    SessionRecord(ProcessBatch(us).session, ts, k, j);
  }

  /** A session holding the projection of the renamed merge holds each file row's record at its merged position. */
  lemma {:induction false} SessionRecord(s: Session, ts: seq<Table>, k: nat, j: nat)
    requires forall t :: t in ts ==> HasRequired(t)
    requires NoRenamedHeaders(ts)
    requires k < |ts| && j < |ts[k].rows|
    requires Project(Rename(Concat(ts))).Ok? && s.processed == Some(Project(Rename(Concat(ts))).value)
    ensures TotalRows(ts[..k]) + j < |s.processed.value|
    ensures s.processed.value[TotalRows(ts[..k]) + j] == FileRecord(ts[k], j)
  {
    MergedRecord(ts, k, j);
  }

  /** A batch that merges stores the projection of the renamed merge of its accepted files. */
  lemma {:induction false} BatchProcessesMerge(us: seq<Upload>)
    requires !AnyUnreadable(us) && |AcceptedTables(us)| > 0
    ensures ProcessBatch(us).session.processed ==
      if CohortClash(Concat(AcceptedTables(us)).columns) then None
      else Some(Project(Rename(Concat(AcceptedTables(us)))).value)
  {
    var s := ProcessBatch(us).session;
    if !CohortClash(Concat(AcceptedTables(us)).columns) {
      assert s.combined == Some(Concat(AcceptedTables(us)));
    }
  }

  /**
   A rerun of the script with the current uploads. Files are processed only
   while no processed table exists; once one does, it is kept whatever is
   uploaded, and without uploads nothing changes.
   */
  function Rerun(s: Session, us: seq<Upload>): (r: Session)
    ensures s.processed.Some? ==> r == s
    ensures |us| == 0 ==> r == s
    ensures |us| > 0 && s.processed.None? ==>
      (r.processed.Some? <==> !AnyUnreadable(us) && |AcceptedTables(us)| > 0 && !CohortClash(Concat(AcceptedTables(us)).columns))
  {
    if |us| > 0 && s.processed.None? then ProcessBatch(us).session else s
  }

  /**
   The merged table as the session actually holds it: the object stored as
   `combined_df` is renamed in place right after being stored.
   */
  function CombinedAsWritten(ts: seq<Table>): Table {
    Rename(Concat(ts))
  }

  /** The stored table never has the original period header, although every merged file had it. */
  lemma {:induction false} CombinedAsWrittenIsRenamed(ts: seq<Table>)
    requires |ts| > 0 && forall t :: t in ts ==> HasRequired(t)
    ensures ORIGINAL_PERIOD in Concat(ts).columns
    ensures ORIGINAL_PERIOD !in CombinedAsWritten(ts).columns
  {
    MergedHasFixedColumns(ts);
    var renamed := CombinedAsWritten(ts);
    forall j | 0 <= j < |renamed.columns|
      ensures renamed.columns[j] != ORIGINAL_PERIOD
    {
      assert renamed.columns[j] == RenameColumn(Concat(ts).columns[j]);
    }
  }

  /**
   The corrected session keeps the merged table under its original headers
   whenever it keeps one, which is whenever the cohort cut does not raise.
   */
  lemma {:induction false} StoredCombinedKeepsOriginalHeaders(us: seq<Upload>)
    requires !AnyUnreadable(us) && |AcceptedTables(us)| > 0
    ensures ProcessBatch(us).session.combined.Some? <==> !CohortClash(Concat(AcceptedTables(us)).columns)
    ensures ProcessBatch(us).session.combined.Some? ==>
      forall c :: c in REQUIRED_ORIGINAL ==> c in ProcessBatch(us).session.combined.value.columns
  {
    MergedHasFixedColumns(AcceptedTables(us));
  }
}
