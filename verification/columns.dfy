/**
 The fixed column set: renaming the original headers, and projecting the
 merged table onto the four columns the analysis uses.
 */
module Columns {
  import opened Wrappers
  import opened Cells
  import opened Tables

  const ORIGINAL_PERIOD := "Περίοδος δήλωσης"
  const ORIGINAL_COURSE := "Τμήμα Τάξης"
  const ORIGINAL_REGISTRY := "Αριθμός Μητρώου"
  const ORIGINAL_GRADE := "Βαθμολογία"

  const PERIOD := "Περίοδος"
  const COURSE := "Μάθημα"
  const COHORT := "Έτος Εγγραφής"
  const GRADE := "Βαθμολογία"

  /** Headers every uploaded file must have. */
  const REQUIRED_ORIGINAL: seq<string> := [ORIGINAL_PERIOD, ORIGINAL_COURSE, ORIGINAL_REGISTRY, ORIGINAL_GRADE]

  /** The columns of the processed table, in this order. */
  const FIXED_COLUMNS: seq<string> := [PERIOD, COURSE, COHORT, GRADE]

  /** The renaming dictionary; the grade column keeps its name and is not in it. */
  const RENAME: map<string, string> := map[ORIGINAL_PERIOD := PERIOD, ORIGINAL_COURSE := COURSE, ORIGINAL_REGISTRY := COHORT]

  /** Number of leading characters of the registry number that identify the enrolment cohort. */
  const COHORT_WIDTH: nat := 3

  function RenameColumn(name: string): (r: string)
    ensures r != name <==> name in {ORIGINAL_PERIOD, ORIGINAL_COURSE, ORIGINAL_REGISTRY}
  {
    if name in RENAME then RENAME[name] else name
  }

  /** The four required headers become the four fixed columns, position by position. */
  lemma {:induction false} RenameRequired()
    ensures forall k :: 0 <= k < |REQUIRED_ORIGINAL| ==> RenameColumn(REQUIRED_ORIGINAL[k]) == FIXED_COLUMNS[k]
  {
  }

  /** `rename(columns=RENAME)`: headers change, cells do not. */
  function Rename(t: Table): (r: Table)
    ensures |r.columns| == |t.columns| && r.rows == t.rows
    ensures forall j :: 0 <= j < |t.columns| && t.columns[j] !in RENAME ==> r.columns[j] == t.columns[j]
    ensures forall j :: 0 <= j < |t.columns| && t.columns[j] in RENAME ==> r.columns[j] == RENAME[t.columns[j]]
  {
    Table(seq(|t.columns|, j requires 0 <= j < |t.columns| => RenameColumn(t.columns[j])), t.rows)
  }

  /** No two headers of the table end up with the same name after renaming. */
  predicate NoClash(names: seq<string>) {
    forall i, j :: 0 <= i < |names| && 0 <= j < |names| && RenameColumn(names[i]) == RenameColumn(names[j]) ==> names[i] == names[j]
  }

  /**
   Reading a renamed table under the new name of a column gives what the
   original table held under the old name.
   */
  lemma {:induction false} RenameKeepsCells(t: Table, i: nat, c: string)
    requires NoClash(t.columns)
    requires i < |t.rows| && c in t.columns
    ensures At(Rename(t), i, RenameColumn(c)) == At(t, i, c)
  {
    var r := Rename(t);
    var k := IndexOf(t.columns, c);
    assert r.columns[k] == RenameColumn(c);
    forall j | 0 <= j < k
      ensures r.columns[..k][j] != RenameColumn(c)
    {
      assert t.columns[..k][j] == t.columns[j] != c;
      assert r.columns[j] == RenameColumn(t.columns[j]);
    }
    IndexOfFirst(r.columns, RenameColumn(c), k);
  }

  /**
   The merged header holds both the registry header and a header already called
   by its new name, so renaming gives two columns called `COHORT`.
   */
  predicate CohortClash(names: seq<string>) {
    ORIGINAL_REGISTRY in names && COHORT in names
  }

  /**
   A clash is exactly two positions that renaming sends to `COHORT`; for the
   converse the header must be free of repeats, as decoded headers are.
   */
  lemma {:induction false} CohortClashDuplicates(t: Table)
    ensures CohortClash(t.columns) ==>
      exists i, j :: 0 <= i < |t.columns| && 0 <= j < |t.columns| && i != j && Rename(t).columns[i] == COHORT && Rename(t).columns[j] == COHORT
    ensures (forall i, j :: 0 <= i < j < |t.columns| ==> t.columns[i] != t.columns[j]) &&
      (exists i, j :: 0 <= i < |t.columns| && 0 <= j < |t.columns| && i != j && Rename(t).columns[i] == COHORT && Rename(t).columns[j] == COHORT)
      ==> CohortClash(t.columns)
  {
    var r := Rename(t);
    if CohortClash(t.columns) {
      var i := IndexOf(t.columns, ORIGINAL_REGISTRY);
      var j := IndexOf(t.columns, COHORT);
      assert r.columns[i] == RenameColumn(ORIGINAL_REGISTRY) == COHORT;
      assert r.columns[j] == RenameColumn(COHORT) == COHORT;
    }
    forall i | 0 <= i < |t.columns| && r.columns[i] == COHORT
      ensures t.columns[i] == ORIGINAL_REGISTRY || t.columns[i] == COHORT
    {
      assert r.columns[i] == RenameColumn(t.columns[i]);
    }
  }

  /** `str[:3]`: the first three characters, or the whole string when it is shorter. */
  function Truncate(s: string): (r: string)
    ensures |s| <= COHORT_WIDTH ==> r == s
    ensures |s| >= COHORT_WIDTH ==> |r| == COHORT_WIDTH
    ensures r == s[..|r|]
  {
    if |s| <= COHORT_WIDTH then s else s[..COHORT_WIDTH]
  }

  lemma {:induction false} TruncateIdempotent(s: string)
    ensures Truncate(Truncate(s)) == Truncate(s)
  {
  }

  /** A registry number keeps its first three digits, whether stored as text or as a number. */
  lemma {:induction false} TruncateRegistryNumber()
    ensures Truncate(Show(Text("2023001234"))) == "202"
    ensures Truncate(Show(Number(2023001234 as real))) == "202"
  {
    RegistryDigits();
    Numerals.NumberTextOfInteger(2023001234);
    assert Show(Number(2023001234 as real)) == "2023001234";
  }

  /** The decimal digits of the sample registry number, built up one digit at a time. */
  lemma {:induction false} RegistryDigits()
    ensures Numerals.IntText(2023001234) == "2023001234"
  {
    assert Numerals.NatText(20) == "20";
    assert Numerals.NatText(202) == "202";
    assert Numerals.NatText(2023) == "2023";
    assert Numerals.NatText(20230) == "20230";
    assert Numerals.NatText(202300) == "202300";
    assert Numerals.NatText(2023001) == "2023001";
    assert Numerals.NatText(20230012) == "20230012";
    assert Numerals.NatText(202300123) == "202300123";
    assert Numerals.NatText(2023001234) == "2023001234";
  }

  /** One row of the processed table. */
  datatype Record = Record(period: Cell, course: Cell, cohort: string, grade: Option<real>)

  /** The fixed columns the header lacks. */
  function MissingColumns(names: seq<string>): (m: seq<string>)
    ensures forall c :: c in m <==> c in FIXED_COLUMNS && c !in names
    ensures |m| == 0 <==> forall c :: c in FIXED_COLUMNS ==> c in names
  {
    (if PERIOD in names then [] else [PERIOD])
      + (if COURSE in names then [] else [COURSE])
      + (if COHORT in names then [] else [COHORT])
      + (if GRADE in names then [] else [GRADE])
  }

  /** The processed record of row `i`: registry number cut to its cohort, grade coerced to a number or None. */
  function ProjectRow(t: Table, i: nat): (r: Record)
    requires i < |t.rows|
    ensures r.period == At(t, i, PERIOD) && r.course == At(t, i, COURSE)
    ensures |r.cohort| <= COHORT_WIDTH && |r.cohort| <= |Show(At(t, i, COHORT))|
    ensures |r.cohort| == if |Show(At(t, i, COHORT))| <= COHORT_WIDTH then |Show(At(t, i, COHORT))| else COHORT_WIDTH
    ensures r.cohort == Show(At(t, i, COHORT))[..|r.cohort|]
    ensures r.grade == Coerce(At(t, i, GRADE))
  {
    Record(At(t, i, PERIOD), At(t, i, COURSE), Truncate(Show(At(t, i, COHORT))), Coerce(At(t, i, GRADE)))
  }

  /**
   `t[FIXED_COLUMNS].copy()` followed by the cohort truncation and the grade
   coercion; fails with the names of the fixed columns the table lacks.
   */
  function Project(t: Table): (r: Result<seq<Record>, seq<string>>)
    ensures r.Err? <==> exists c :: c in FIXED_COLUMNS && c !in t.columns
    ensures r.Err? ==> forall c :: c in r.error <==> c in FIXED_COLUMNS && c !in t.columns
    ensures r.Ok? ==> |r.value| == |t.rows|
    ensures r.Ok? ==> forall i :: 0 <= i < |t.rows| ==> r.value[i] == ProjectRow(t, i)
  {
    var missing := MissingColumns(t.columns);
    if |missing| > 0 then Err(missing)
    else Ok(seq(|t.rows|, i requires 0 <= i < |t.rows| => ProjectRow(t, i)))
  }

  /**
   Columns other than the fixed four play no part: two tables that agree on
   the fixed columns project to the same records.
   */
  lemma {:induction false} ProjectIgnoresOtherColumns(t: Table, u: Table)
    requires |t.rows| == |u.rows|
    requires forall c :: c in FIXED_COLUMNS ==> (c in t.columns <==> c in u.columns)
    requires forall i, c :: 0 <= i < |t.rows| && c in FIXED_COLUMNS ==> At(t, i, c) == At(u, i, c)
    ensures Project(t) == Project(u)
  {
    assert PERIOD in FIXED_COLUMNS && COURSE in FIXED_COLUMNS && COHORT in FIXED_COLUMNS && GRADE in FIXED_COLUMNS;
    assert MissingColumns(t.columns) == MissingColumns(u.columns);
    forall i | 0 <= i < |t.rows|
      ensures ProjectRow(t, i) == ProjectRow(u, i)
    {
      assert At(t, i, PERIOD) == At(u, i, PERIOD);
      assert At(t, i, COURSE) == At(u, i, COURSE);
      assert At(t, i, COHORT) == At(u, i, COHORT);
      assert At(t, i, GRADE) == At(u, i, GRADE);
    }
    if Project(t).Ok? {
      assert Project(t).value == Project(u).value;
    }
  }

  function GradeCell(g: Option<real>): Cell {
    match g
    case Some(x) => Number(x)
    case None => Blank
  }

  /** The processed table as a table: exactly the fixed columns, one row per record. */
  function ToTable(recs: seq<Record>): (t: Table)
    ensures t.columns == FIXED_COLUMNS && |t.rows| == |recs|
  {
    Table(FIXED_COLUMNS, seq(|recs|, i requires 0 <= i < |recs| =>
      [recs[i].period, recs[i].course, Text(recs[i].cohort), GradeCell(recs[i].grade)]))
  }

  /** Projecting a processed table again changes nothing: cohorts are already cut and grades already numbers. */
  lemma {:induction false} ProjectProcessed(recs: seq<Record>)
    requires forall i :: 0 <= i < |recs| ==> |recs[i].cohort| <= COHORT_WIDTH
    ensures Project(ToTable(recs)) == Ok(recs)
  {
    var t := ToTable(recs);
    assert IndexOf(FIXED_COLUMNS, PERIOD) == 0;
    assert IndexOf(FIXED_COLUMNS, COURSE) == 1;
    assert IndexOf(FIXED_COLUMNS, COHORT) == 2;
    assert IndexOf(FIXED_COLUMNS, GRADE) == 3;
    forall i | 0 <= i < |recs|
      ensures ProjectRow(t, i) == recs[i]
    {
      var row := t.rows[i];
      assert |row| == 4;
      assert At(t, i, PERIOD) == row[0] == recs[i].period;
      assert At(t, i, COURSE) == row[1] == recs[i].course;
      assert At(t, i, COHORT) == row[2] == Text(recs[i].cohort);
      assert At(t, i, GRADE) == row[3] == GradeCell(recs[i].grade);
    }
    assert MissingColumns(t.columns) == [];
    assert Project(t).value == recs;
  }

  /** The projection is idempotent on the tables it produces. */
  lemma {:induction false} ProjectIdempotent(t: Table)
    requires Project(t).Ok?
    ensures Project(ToTable(Project(t).value)) == Project(t)
  {
    ProjectProcessed(Project(t).value);
  }
}
