/**
 Decoded spreadsheet tables and the merge of several of them
 (`pd.concat(dataframes, ignore_index=True)`).
 */
module Tables {
  import opened Cells

  /** Header names and rows of cells, aligned with the header by position. */
  datatype Table = Table(columns: seq<string>, rows: seq<seq<Cell>>)

  /** Position of the first column called `c`. */
  function IndexOf(names: seq<string>, c: string): (k: nat)
    requires c in names
    ensures k < |names| && names[k] == c
    ensures c !in names[..k]
  {
    if names[0] == c then 0
    else
      var k := IndexOf(names[1..], c);
      assert names[..k + 1] == [names[0]] + names[1..][..k];
      1 + k
  }

  /** The first position holding `c` is the one `IndexOf` finds. */
  lemma {:induction false} IndexOfFirst(names: seq<string>, c: string, k: nat)
    requires k < |names| && names[k] == c && c !in names[..k]
    ensures IndexOf(names, c) == k
  {
    var m := IndexOf(names, c);
    assert forall j :: 0 <= j < k ==> names[..k][j] == names[j];
    assert forall j :: 0 <= j < m ==> names[..m][j] == names[j];
  }

  /**
   The cell of `row` under the first column called `c`. A column the table does
   not have, or a row shorter than the header, reads as an empty cell, which is
   how pandas fills the gaps.
   */
  function Lookup(names: seq<string>, row: seq<Cell>, c: string): Cell {
    if c in names && IndexOf(names, c) < |row| then row[IndexOf(names, c)] else Blank
  }

  function At(t: Table, i: nat, c: string): Cell
    requires i < |t.rows|
  {
    Lookup(t.columns, t.rows[i], c)
  }

  /** `have` followed by the names of `more` it lacks, in order of first appearance. */
  function Union(have: seq<string>, more: seq<string>): (u: seq<string>)
    ensures |have| <= |u| && u[..|have|] == have
    ensures forall c :: c in u <==> c in have || c in more
    decreases |more|
  {
    if |more| == 0 then have
    else
      assert forall c :: c in more <==> c == more[0] || c in more[1..] by {
        assert more == [more[0]] + more[1..];
      }
      if more[0] in have then Union(have, more[1..])
      else
        var u := Union(have + [more[0]], more[1..]);
        assert u[..|have|] == (have + [more[0]])[..|have|];
        u
  }

  /** The merged header: every file's columns, in order of first appearance across the files. */
  function AllColumns(ts: seq<Table>): (cols: seq<string>)
    ensures forall k, c :: 0 <= k < |ts| && c in ts[k].columns ==> c in cols
    ensures forall c :: c in cols ==> exists k :: 0 <= k < |ts| && c in ts[k].columns
  {
    if |ts| == 0 then []
    else
      var init := ts[..|ts| - 1];
      var cols := Union(AllColumns(init), ts[|ts| - 1].columns);
      assert forall k :: 0 <= k < |init| ==> ts[k] == init[k];
      cols
  }

  /** A row moved under a wider header; the cells of columns it lacked are empty. */
  function Realign(names: seq<string>, row: seq<Cell>, cols: seq<string>): (r: seq<Cell>)
    ensures |r| == |cols|
  {
    seq(|cols|, j requires 0 <= j < |cols| => Lookup(names, row, cols[j]))
  }

  /** Realigning keeps the value of every column, provided the new header has all the old columns. */
  lemma {:induction false} LookupRealign(names: seq<string>, row: seq<Cell>, cols: seq<string>, c: string)
    requires forall d :: d in names ==> d in cols
    ensures Lookup(cols, Realign(names, row, cols), c) == Lookup(names, row, c)
  {
    if c in cols {
      var k := IndexOf(cols, c);
      assert Realign(names, row, cols)[k] == Lookup(names, row, c);
    }
  }

  /** Number of rows in all tables together. */
  function TotalRows(ts: seq<Table>): nat {
    if |ts| == 0 then 0 else TotalRows(ts[..|ts| - 1]) + |ts[|ts| - 1].rows|
  }

  /** The rows of every table in turn, each realigned under `cols`. */
  function Stack(ts: seq<Table>, cols: seq<string>): (rows: seq<seq<Cell>>)
    ensures |rows| == TotalRows(ts)
    ensures forall i :: 0 <= i < |rows| ==> |rows[i]| == |cols|
  {
    if |ts| == 0 then []
    else
      var last := ts[|ts| - 1];
      Stack(ts[..|ts| - 1], cols) + seq(|last.rows|, j requires 0 <= j < |last.rows| => Realign(last.columns, last.rows[j], cols))
  }

  /** The tables merged in order: header union, rows one file after the other. */
  function Concat(ts: seq<Table>): (t: Table)
    ensures |t.rows| == TotalRows(ts)
    ensures forall k, c :: 0 <= k < |ts| && c in ts[k].columns ==> c in t.columns
    ensures forall c :: c in t.columns ==> exists k :: 0 <= k < |ts| && c in ts[k].columns
    ensures forall i :: 0 <= i < |t.rows| ==> |t.rows[i]| == |t.columns|
  {
    var cols := AllColumns(ts);
    Table(cols, Stack(ts, cols))
  }

  /** Rows before table `m` number at least as many as the rows of the tables before `k` and of `k` itself. */
  lemma {:induction false} TotalRowsGrows(ts: seq<Table>, k: nat, m: nat)
    requires k < m <= |ts|
    ensures TotalRows(ts[..k]) + |ts[k].rows| <= TotalRows(ts[..m])
    decreases m
  {
    assert ts[..m][..m - 1] == ts[..m - 1];
    if k < m - 1 {
      TotalRowsGrows(ts, k, m - 1);
    }
  }

  /** Row `j` of table `k` lands at position "rows of the earlier tables + j" of the stack. */
  lemma {:induction false} StackPlacesRow(ts: seq<Table>, cols: seq<string>, k: nat, j: nat)
    requires k < |ts| && j < |ts[k].rows|
    ensures TotalRows(ts[..k]) + j < TotalRows(ts)
    ensures Stack(ts, cols)[TotalRows(ts[..k]) + j] == Realign(ts[k].columns, ts[k].rows[j], cols)
    decreases |ts|
  {
    var init := ts[..|ts| - 1];
    assert ts[..|ts|] == ts;
    TotalRowsGrows(ts, k, |ts|);
    if k < |ts| - 1 {
      assert init[..k] == ts[..k] && init[k] == ts[k];
      StackPlacesRow(init, cols, k, j);
    } else {
      assert init == ts[..k];
    }
  }

  /**
   Merging keeps every file's rows, in file order and in their order within the
   file, with every cell in place; columns a file lacks read as empty cells.
   */
  lemma {:induction false} ConcatKeepsRows(ts: seq<Table>, k: nat, j: nat, c: string)
    requires k < |ts| && j < |ts[k].rows|
    ensures TotalRows(ts[..k]) + j < |Concat(ts).rows|
    ensures At(Concat(ts), TotalRows(ts[..k]) + j, c) == At(ts[k], j, c)
  {
    var cols := AllColumns(ts);
    StackPlacesRow(ts, cols, k, j);
    LookupRealign(ts[k].columns, ts[k].rows[j], cols, c);
  }
}
