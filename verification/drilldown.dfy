/**
 The two-level drill-down over the processed table: period options, the
 period filter and the summary by course, then course options, the course
 filter and the summary by enrolment cohort.
 */
module Drilldown {
  import opened Cells
  import opened Ordering
  import opened Columns

  /** The pass mark; a grade equal to it passes. */
  const PASS_MARK: real := 5.0

  /** The processed columns the drill-down filters and groups on. */
  datatype Field = PeriodField | CourseField | CohortField

  function KeyOf(r: Record, f: Field): Cell {
    match f
    case PeriodField => r.period
    case CourseField => r.course
    case CohortField => Text(r.cohort)
  }

  predicate Participated(r: Record) {
    r.grade.Some?
  }

  predicate Passed(r: Record) {
    r.grade.Some? && r.grade.value >= PASS_MARK
  }

  function AsSet(s: seq<Cell>): set<Cell> {
    set x | x in s
  }

  /** The values of one column, row by row. */
  function ColumnOf(rows: seq<Record>, f: Field): (col: seq<Cell>)
    ensures |col| == |rows| && forall i :: 0 <= i < |rows| ==> col[i] == KeyOf(rows[i], f)
  {
    seq(|rows|, i requires 0 <= i < |rows| => KeyOf(rows[i], f))
  }

  /** `sorted(rows[field].unique())`: each value occurring in the column, once, ascending. */
  function Options(rows: seq<Record>, f: Field): (opts: seq<Cell>)
    ensures Sorted(opts)
    ensures forall y :: y in opts <==> y in ColumnOf(rows, f)
  {
    SortedDistinct(ColumnOf(rows, f))
  }

  /** A value occurs in the column exactly when some row holds it. */
  lemma {:induction false} InColumn(rows: seq<Record>, f: Field, y: Cell)
    ensures y in ColumnOf(rows, f) <==> exists i :: 0 <= i < |rows| && KeyOf(rows[i], f) == y
  {
    var col := ColumnOf(rows, f);
    if y in col {
      var i :| 0 <= i < |col| && col[i] == y;
    }
  }

  /** The ticked checkboxes, in the order the options are shown. */
  function Selected(options: seq<Cell>, ticked: set<Cell>): (s: seq<Cell>)
    ensures forall y :: y in s <==> y in options && y in ticked
    ensures Sorted(options) ==> Sorted(s)
  {
    if |options| == 0 then []
    else
      var rest := Selected(options[1..], ticked);
      assert forall y :: y in options <==> y == options[0] || y in options[1..] by {
        assert options == [options[0]] + options[1..];
      }
      if options[0] in ticked then
        assert Sorted(options) ==> forall y :: y in rest ==> Less(options[0], y) by {
          if Sorted(options) {
            forall y | y in rest
              ensures Less(options[0], y)
            {
              var j :| 0 <= j < |options[1..]| && options[1..][j] == y;
              assert options[j + 1] == y;
            }
          }
        }
        [options[0]] + rest
      else rest
  }

  /** Nothing is selected exactly when no offered option is ticked. */
  lemma {:induction false} SelectedEmpty(options: seq<Cell>, ticked: set<Cell>)
    ensures |Selected(options, ticked)| == 0 <==> forall c :: c in options ==> c !in ticked
  {
    var s := Selected(options, ticked);
    if |s| > 0 {
      assert s[0] in s;
    }
  }

  /** `rows[rows[field].isin(selected)]`: the rows whose value is selected, in their order. */
  function Filter(rows: seq<Record>, f: Field, sel: set<Cell>): (r: seq<Record>)
    ensures |r| <= |rows|
  {
    if |rows| == 0 then []
    else
      var init := rows[..|rows| - 1];
      var last := rows[|rows| - 1];
      assert rows == init + [last];
      Filter(init, f, sel) + (if KeyOf(last, f) in sel then [last] else [])
  }

  /** A row survives the filter exactly when it is a row of the table whose value is selected. */
  lemma {:induction false} FilterMembers(rows: seq<Record>, f: Field, sel: set<Cell>)
    ensures forall x :: x in Filter(rows, f, sel) <==> x in rows && KeyOf(x, f) in sel
    decreases |rows|
  {
    if |rows| > 0 {
      var init := rows[..|rows| - 1];
      FilterMembers(init, f, sel);
      assert rows == init + [rows[|rows| - 1]];
    }
  }

  /** The filter only drops rows: it never repeats one. */
  lemma {:induction false} FilterSubMultiset(rows: seq<Record>, f: Field, sel: set<Cell>)
    ensures multiset(Filter(rows, f, sel)) <= multiset(rows)
    decreases |rows|
  {
    if |rows| > 0 {
      var init := rows[..|rows| - 1];
      FilterSubMultiset(init, f, sel);
      assert rows == init + [rows[|rows| - 1]];
    }
  }

  /** Filtering works row by row, so it keeps the order of the rows. */
  lemma {:induction false} FilterAppend(a: seq<Record>, b: seq<Record>, f: Field, sel: set<Cell>)
    ensures Filter(a + b, f, sel) == Filter(a, f, sel) + Filter(b, f, sel)
    decreases |b|
  {
    if |b| == 0 {
      assert a + b == a;
    } else {
      var b' := b[..|b| - 1];
      assert (a + b)[..|a + b| - 1] == a + b';
      assert (a + b)[|a + b| - 1] == b[|b| - 1];
      FilterAppend(a, b', f, sel);
    }
  }

  /** Only which values of the column are selected matters, not what else the selection holds. */
  lemma {:induction false} FilterSameVerdicts(rows: seq<Record>, f: Field, a: set<Cell>, b: set<Cell>)
    requires forall i :: 0 <= i < |rows| ==> (KeyOf(rows[i], f) in a <==> KeyOf(rows[i], f) in b)
    ensures Filter(rows, f, a) == Filter(rows, f, b)
    decreases |rows|
  {
    if |rows| > 0 {
      FilterSameVerdicts(rows[..|rows| - 1], f, a, b);
    }
  }

  /** Selecting every option of the column keeps the whole table. */
  lemma {:induction false} FilterAllOptions(rows: seq<Record>, f: Field)
    ensures Filter(rows, f, AsSet(Options(rows, f))) == rows
  {
    FilterKeepsAll(rows, f, AsSet(Options(rows, f)));
  }

  /** A selection that holds every row's value keeps every row. */
  lemma {:induction false} FilterKeepsAll(rows: seq<Record>, f: Field, sel: set<Cell>)
    requires forall i :: 0 <= i < |rows| ==> KeyOf(rows[i], f) in sel
    ensures Filter(rows, f, sel) == rows
    decreases |rows|
  {
    if |rows| > 0 {
      var init := rows[..|rows| - 1];
      var last := rows[|rows| - 1];
      forall i | 0 <= i < |init|
        ensures KeyOf(init[i], f) in sel
      {
        assert init[i] == rows[i];
      }
      FilterKeepsAll(init, f, sel);
      assert KeyOf(last, f) in sel;
      assert rows == init + [last];
    }
  }

  /** The values occurring in a column. */
  function Present(rows: seq<Record>, f: Field): set<Cell> {
    AsSet(ColumnOf(rows, f))
  }

  /** Splitting the selection into disjoint parts splits the filtered rows accordingly. */
  lemma {:induction false} FilterDisjointUnion(rows: seq<Record>, f: Field, a: set<Cell>, b: set<Cell>)
    requires a !! b
    ensures |Filter(rows, f, a + b)| == |Filter(rows, f, a)| + |Filter(rows, f, b)|
    decreases |rows|
  {
    if |rows| > 0 {
      FilterDisjointUnion(rows[..|rows| - 1], f, a, b);
    }
  }

  /** The three counts of one group. */
  datatype Summary = Summary(key: Cell, enrolled: nat, participated: nat, passed: nat)

  /**
   The aggregation of the group with value `k`: `size` of the group, `count`
   of its non-null grades, and the number of grades at or above the pass mark.
   */
  function Tally(rows: seq<Record>, f: Field, k: Cell): (s: Summary)
    ensures s.key == k
    ensures s.passed <= s.participated <= s.enrolled <= |rows|
  {
    if |rows| == 0 then Summary(k, 0, 0, 0)
    else Count(Tally(rows[..|rows| - 1], f, k), rows[|rows| - 1], f)
  }

  /** Adds one row to the counts of group `t.key` when the row belongs to it. */
  function Count(t: Summary, r: Record, f: Field): Summary {
    if KeyOf(r, f) == t.key then
      Summary(t.key, t.enrolled + 1, t.participated + (if Participated(r) then 1 else 0), t.passed + (if Passed(r) then 1 else 0))
    else t
  }

  /** The rows with a grade. */
  function Graded(rows: seq<Record>): (r: seq<Record>)
    ensures forall x :: x in r <==> x in rows && Participated(x)
  {
    if |rows| == 0 then []
    else
      var last := rows[|rows| - 1];
      assert rows == rows[..|rows| - 1] + [last];
      Graded(rows[..|rows| - 1]) + (if Participated(last) then [last] else [])
  }

  /** The rows with a passing grade. */
  function Passing(rows: seq<Record>): (r: seq<Record>)
    ensures forall x :: x in r <==> x in rows && Passed(x)
  {
    if |rows| == 0 then []
    else
      var last := rows[|rows| - 1];
      assert rows == rows[..|rows| - 1] + [last];
      Passing(rows[..|rows| - 1]) + (if Passed(last) then [last] else [])
  }

  lemma {:induction false} AppendOne(g: seq<Record>, x: Record)
    ensures Graded(g + [x]) == Graded(g) + (if Participated(x) then [x] else [])
    ensures Passing(g + [x]) == Passing(g) + (if Passed(x) then [x] else [])
  {
    assert (g + [x])[..|g|] == g;
  }

  /**
   The counts are those of the group's rows: Enrolled counts every row of the
   group, null grades included; Participated the rows with a grade; Passed the
   rows with a grade of at least the pass mark.
   */
  lemma {:induction false} TallyCounts(rows: seq<Record>, f: Field, k: Cell)
    ensures Tally(rows, f, k).enrolled == |Filter(rows, f, {k})|
    ensures Tally(rows, f, k).participated == |Graded(Filter(rows, f, {k}))|
    ensures Tally(rows, f, k).passed == |Passing(Filter(rows, f, {k}))|
    decreases |rows|
  {
    if |rows| > 0 {
      var init := rows[..|rows| - 1];
      var last := rows[|rows| - 1];
      TallyCounts(init, f, k);
      var g := Filter(init, f, {k});
      assert Tally(rows, f, k) == Count(Tally(init, f, k), last, f);
      if KeyOf(last, f) == k {
        assert Filter(rows, f, {k}) == g + [last];
        AppendOne(g, last);
      } else {
        assert Filter(rows, f, {k}) == g;
      }
    }
  }

  function AddCounts(s: Summary, t: Summary): Summary {
    Summary(s.key, s.enrolled + t.enrolled, s.participated + t.participated, s.passed + t.passed)
  }

  lemma {:induction false} TallyAppend(a: seq<Record>, b: seq<Record>, f: Field, k: Cell)
    ensures Tally(a + b, f, k) == AddCounts(Tally(a, f, k), Tally(b, f, k))
    decreases |b|
  {
    if |b| == 0 {
      assert a + b == a;
    } else {
      var b' := b[..|b| - 1];
      var x := b[|b| - 1];
      assert (a + b)[..|a + b| - 1] == a + b';
      assert (a + b)[|a + b| - 1] == x;
      assert Tally(a + b, f, k) == Count(Tally(a + b', f, k), x, f);
      assert Tally(b, f, k) == Count(Tally(b', f, k), x, f);
      TallyAppend(a, b', f, k);
    }
  }

  lemma {:induction false} TallyRemove(b: seq<Record>, i: nat, f: Field, k: Cell)
    requires i < |b|
    ensures Tally(b, f, k) == AddCounts(Tally(b[..i] + b[i + 1..], f, k), Tally([b[i]], f, k))
  {
    var b1, b2 := b[..i], b[i + 1..];
    assert b == (b1 + [b[i]]) + b2;
    TallyAppend(b1 + [b[i]], b2, f, k);
    TallyAppend(b1, [b[i]], f, k);
    TallyAppend(b1, b2, f, k);
  }

  lemma {:induction false} MultisetRemove(b: seq<Record>, i: nat)
    requires i < |b|
    ensures multiset(b[..i] + b[i + 1..]) == multiset(b) - multiset{b[i]}
  {
    assert b == b[..i] + [b[i]] + b[i + 1..];
  }

  /** The counts do not depend on the order of the rows. */
  lemma {:induction false} TallyOrderFree(a: seq<Record>, b: seq<Record>, f: Field, k: Cell)
    requires multiset(a) == multiset(b)
    ensures Tally(a, f, k) == Tally(b, f, k)
    decreases |a|
  {
    if |a| > 0 {
      var init := a[..|a| - 1];
      var x := a[|a| - 1];
      assert a == init + [x];
      assert x in multiset(b);
      var i :| 0 <= i < |b| && b[i] == x;
      MultisetRemove(b, i);
      MultisetRemove(a, |a| - 1);
      TallyOrderFree(init, b[..i] + b[i + 1..], f, k);
      TallyAppend(init, [x], f, k);
      TallyRemove(b, i, f, k);
    }
  }

  /** The values that form groups: `groupby` drops empty keys. */
  function GroupKeys(rows: seq<Record>, f: Field): (keys: seq<Cell>)
    ensures Sorted(keys)
    ensures forall y :: y in keys <==> y != Blank && y in ColumnOf(rows, f)
  {
    var opts := Options(rows, f);
    if |opts| > 0 && opts[|opts| - 1] == Blank then
      var n := |opts| - 1;
      SortedHasNoDuplicates(opts);
      assert forall y :: y in opts[..n] <==> y in opts && y != Blank by {
        assert opts == opts[..n] + [Blank];
        forall y | y in opts[..n]
          ensures y != Blank
        {
          var j :| 0 <= j < n && opts[..n][j] == y;
          assert opts[j] == y;
        }
      }
      opts[..n]
    else
      forall j | 0 <= j < |opts|
        ensures opts[j] != Blank
      {
        if j < |opts| - 1 {
          assert Less(opts[j], opts[|opts| - 1]);
        }
      }
      opts
  }

  /**
   `groupby(field).agg(...)`: one summary row per non-empty value of the
   column, in ascending order of the values.
   */
  function Aggregate(rows: seq<Record>, f: Field): (s: seq<Summary>)
    ensures |s| == |GroupKeys(rows, f)|
    ensures forall i :: 0 <= i < |s| ==> s[i].key == GroupKeys(rows, f)[i]
    ensures forall i :: 0 <= i < |s| ==> s[i] == Tally(rows, f, s[i].key)
  {
    Tallies(rows, f, GroupKeys(rows, f))
  }

  /** One tally per key, in the order of the keys. */
  function Tallies(rows: seq<Record>, f: Field, keys: seq<Cell>): (s: seq<Summary>)
    ensures |s| == |keys| && forall i :: 0 <= i < |keys| ==> s[i] == Tally(rows, f, keys[i])
  {
    if |keys| == 0 then [] else [Tally(rows, f, keys[0])] + Tallies(rows, f, keys[1..])
  }

  function KeysOf(s: seq<Summary>): (keys: seq<Cell>)
    ensures |keys| == |s| && forall i :: 0 <= i < |s| ==> keys[i] == s[i].key
  {
    seq(|s|, i requires 0 <= i < |s| => s[i].key)
  }

  /**
   Every summary row is a non-empty group, its keys ascend strictly, every
   non-empty value of the column has its row, and for each group
   Passed <= Participated <= Enrolled.
   */
  lemma {:induction false} AggregateShape(rows: seq<Record>, f: Field)
    ensures Sorted(KeysOf(Aggregate(rows, f)))
    ensures forall i :: 0 <= i < |rows| && KeyOf(rows[i], f) != Blank ==> KeyOf(rows[i], f) in KeysOf(Aggregate(rows, f))
    ensures forall s :: s in Aggregate(rows, f) ==>
      s.key != Blank && 1 <= s.enrolled && s.passed <= s.participated <= s.enrolled
  {
    var agg := Aggregate(rows, f);
    var keys := GroupKeys(rows, f);
    assert KeysOf(agg) == keys;
    forall s | s in agg
      ensures s.key != Blank && 1 <= s.enrolled
    {
      var n :| 0 <= n < |agg| && agg[n] == s;
      assert s.key in keys;
      var i :| 0 <= i < |rows| && KeyOf(rows[i], f) == s.key;
      TallyCounts(rows, f, s.key);
      FilterMembers(rows, f, {s.key});
      assert rows[i] in Filter(rows, f, {s.key});
    }
  }

  function TotalEnrolled(s: seq<Summary>): nat {
    if |s| == 0 then 0 else s[0].enrolled + TotalEnrolled(s[1..])
  }

  /** Summing the group sizes over distinct keys counts the rows whose value is one of them. */
  lemma {:induction false} TotalEnrolledOfKeys(rows: seq<Record>, f: Field, keys: seq<Cell>)
    requires Sorted(keys)
    ensures TotalEnrolled(Tallies(rows, f, keys)) == |Filter(rows, f, AsSet(keys))|
    decreases |keys|
  {
    if |keys| == 0 {
      assert AsSet(keys) == {};
      FilterEmptySelection(rows, f);
    } else {
      var rest := keys[1..];
      assert Sorted(rest);
      TotalEnrolledOfKeys(rows, f, rest);
      SortedHasNoDuplicates(keys);
      assert keys[0] !in AsSet(rest);
      assert AsSet(keys) == {keys[0]} + AsSet(rest) by {
        assert keys == [keys[0]] + rest;
      }
      FilterDisjointUnion(rows, f, {keys[0]}, AsSet(rest));
      TallyCounts(rows, f, keys[0]);
    }
  }

  lemma {:induction false} FilterEmptySelection(rows: seq<Record>, f: Field)
    ensures Filter(rows, f, {}) == []
    decreases |rows|
  {
    if |rows| > 0 {
      FilterEmptySelection(rows[..|rows| - 1], f);
    }
  }

  /** The Enrolled counts add up to the number of rows with a non-empty value. */
  lemma {:induction false} AggregateTotal(rows: seq<Record>, f: Field)
    ensures TotalEnrolled(Aggregate(rows, f)) == |Filter(rows, f, Present(rows, f) - {Blank})|
  {
    var keys := GroupKeys(rows, f);
    TotalEnrolledOfKeys(rows, f, keys);
    var col := ColumnOf(rows, f);
    assert forall i :: 0 <= i < |rows| ==> KeyOf(rows[i], f) in Present(rows, f) by {
      forall i | 0 <= i < |rows|
        ensures KeyOf(rows[i], f) in Present(rows, f)
      {
        assert col[i] == KeyOf(rows[i], f);
      }
    }
    FilterSameVerdicts(rows, f, AsSet(keys), Present(rows, f) - {Blank});
  }

  /** A cohort is never empty, so the cohort summary accounts for every row. */
  lemma {:induction false} CohortTotal(rows: seq<Record>)
    ensures TotalEnrolled(Aggregate(rows, CohortField)) == |rows|
  {
    AggregateTotal(rows, CohortField);
    var col := ColumnOf(rows, CohortField);
    forall i | 0 <= i < |rows|
      ensures KeyOf(rows[i], CohortField) in Present(rows, CohortField) - {Blank}
    {
      assert col[i] == KeyOf(rows[i], CohortField);
    }
    FilterKeepsAll(rows, CohortField, Present(rows, CohortField) - {Blank});
  }

  /** The summary does not depend on the order of the rows. */
  lemma {:induction false} AggregateOrderFree(a: seq<Record>, b: seq<Record>, f: Field)
    requires multiset(a) == multiset(b)
    ensures Aggregate(a, f) == Aggregate(b, f)
  {
    forall y
      ensures y in ColumnOf(a, f) <==> y in ColumnOf(b, f)
    {
      InColumn(a, f, y);
      InColumn(b, f, y);
      if y in ColumnOf(a, f) {
        var i :| 0 <= i < |a| && KeyOf(a[i], f) == y;
        assert a[i] in multiset(b);
        var j :| 0 <= j < |b| && b[j] == a[i];
      }
      if y in ColumnOf(b, f) {
        var i :| 0 <= i < |b| && KeyOf(b[i], f) == y;
        assert b[i] in multiset(a);
        var j :| 0 <= j < |a| && a[j] == b[i];
      }
    }
    SortedUnique(GroupKeys(a, f), GroupKeys(b, f));
    forall k
      ensures Tally(a, f, k) == Tally(b, f, k)
    {
      TallyOrderFree(a, b, f, k);
    }
  }

  /** Filtering the period-filtered rows by course is filtering by both, in either order. */
  lemma {:induction false} FilterCommutes(rows: seq<Record>, f: Field, a: set<Cell>, g: Field, b: set<Cell>)
    ensures Filter(Filter(rows, f, a), g, b) == Filter(Filter(rows, g, b), f, a)
    decreases |rows|
  {
    if |rows| > 0 {
      var init := rows[..|rows| - 1];
      var x := rows[|rows| - 1];
      FilterCommutes(init, f, a, g, b);
      var xa := if KeyOf(x, f) in a then [x] else [];
      var xb := if KeyOf(x, g) in b then [x] else [];
      FilterAppend(Filter(init, f, a), xa, f, a);
      FilterAppend(Filter(init, f, a), xa, g, b);
      FilterAppend(Filter(init, g, b), xb, f, a);
      FilterAppend(Filter(init, g, b), xb, g, b);
    }
  }

  /**
   The filters form a cascade: the doubly filtered rows are among the
   period-filtered rows, which are among all rows, and a row survives exactly
   when both its period and its course are selected.
   */
  lemma {:induction false} FilterCascade(recs: seq<Record>, periods: set<Cell>, courses: set<Cell>)
    ensures multiset(Filter(Filter(recs, PeriodField, periods), CourseField, courses))
      <= multiset(Filter(recs, PeriodField, periods)) <= multiset(recs)
    ensures forall x :: (x in Filter(Filter(recs, PeriodField, periods), CourseField, courses)
      <==> x in recs && x.period in periods && x.course in courses)
    ensures Filter(Filter(recs, PeriodField, periods), CourseField, courses)
      == Filter(Filter(recs, CourseField, courses), PeriodField, periods)
  {
    FilterCommutes(recs, PeriodField, periods, CourseField, courses);
    var byPeriod := Filter(recs, PeriodField, periods);
    var byBoth := Filter(byPeriod, CourseField, courses);
    FilterMembers(recs, PeriodField, periods);
    FilterMembers(byPeriod, CourseField, courses);
    FilterSubMultiset(recs, PeriodField, periods);
    FilterSubMultiset(byPeriod, CourseField, courses);
    forall x
      ensures x in byBoth <==> x in recs && x.period in periods && x.course in courses
    {
      assert KeyOf(x, PeriodField) == x.period && KeyOf(x, CourseField) == x.course;
    }
  }

  /** Each row's value is among the column's options. */
  lemma {:induction false} RowsInOptions(rows: seq<Record>, f: Field)
    ensures forall i :: 0 <= i < |rows| ==> KeyOf(rows[i], f) in Options(rows, f)
  {
    var col := ColumnOf(rows, f);
    forall i | 0 <= i < |rows|
      ensures KeyOf(rows[i], f) in Options(rows, f)
    {
      assert col[i] == KeyOf(rows[i], f);
    }
  }

  /** Filtering on the ticked options is filtering on the ticked values: nothing outside the options can match. */
  lemma {:induction false} FilterTicked(rows: seq<Record>, f: Field, ticked: set<Cell>)
    ensures Filter(rows, f, AsSet(Selected(Options(rows, f), ticked))) == Filter(rows, f, ticked)
  {
    RowsInOptions(rows, f);
    FilterSameVerdicts(rows, f, AsSet(Selected(Options(rows, f), ticked)), ticked);
  }

  /** An option is a value some row holds, so selecting one keeps at least that row. */
  lemma {:induction false} SelectionFindsRows(rows: seq<Record>, f: Field, ticked: set<Cell>)
    requires |Selected(Options(rows, f), ticked)| > 0
    ensures |Filter(rows, f, ticked)| > 0
  {
    var p := Selected(Options(rows, f), ticked)[0];
    InColumn(rows, f, p);
    var i :| 0 <= i < |rows| && KeyOf(rows[i], f) == p;
    FilterMembers(rows, f, ticked);
    assert rows[i] in Filter(rows, f, ticked);
  }

  /** Every selected value is text, as joining the selections into the heading requires. */
  predicate AllText(s: seq<Cell>) {
    forall i :: 0 <= i < |s| ==> s[i].Text?
  }

  /** What the course step shows once periods are chosen. */
  datatype Detail =
    | AwaitingCourses                    // no course ticked: a request to tick one
    | JoinFailed                         // a selected period or course is not text: the heading join raises
    | NoCourseData                       // the ticked courses matched no row
    | ByCohort(summary: seq<Summary>)    // the summary by enrolment cohort

  /** What the analysis shows for the current checkboxes. */
  datatype Stage =
    | AwaitingPeriods                    // no period ticked: a request to tick one
    | NoPeriodData                       // the ticked periods matched no row
    | ByCourse(summary: seq<Summary>, courseOptions: seq<Cell>, detail: Detail)

  /**
   The course step over the period-filtered rows, with the selected periods:
   an empty course selection asks for one; otherwise the heading joins the
   selected periods and courses, which raises unless all are text; otherwise
   the matching rows are summarised by cohort. "No data" is never shown.
   */
  function CourseStep(byPeriod: seq<Record>, periods: seq<Cell>, tickedCourses: set<Cell>): (d: Detail)
    ensures d.AwaitingCourses? <==> forall c :: c in Options(byPeriod, CourseField) ==> c !in tickedCourses
    ensures d.JoinFailed? <==>
      !d.AwaitingCourses? && !(AllText(periods) && AllText(Selected(Options(byPeriod, CourseField), tickedCourses)))
    ensures !d.NoCourseData?
    ensures d.ByCohort? ==> d.summary == Aggregate(Filter(byPeriod, CourseField, tickedCourses), CohortField)
  {
    var courses := Selected(Options(byPeriod, CourseField), tickedCourses);
    FilterTicked(byPeriod, CourseField, tickedCourses);
    SelectedEmpty(Options(byPeriod, CourseField), tickedCourses);
    if |courses| == 0 then AwaitingCourses
    else if !(AllText(periods) && AllText(courses)) then JoinFailed
    else
      SelectionFindsRows(byPeriod, CourseField, tickedCourses);
      var byBoth := Filter(byPeriod, CourseField, AsSet(courses));
      if |byBoth| == 0 then NoCourseData
      else ByCohort(Aggregate(byBoth, CohortField))
  }

  /**
   The drill-down for the ticked period and course checkboxes. Only options
   that are offered count as selected; an empty selection asks for one instead
   of aggregating, and the "no data" messages can never be reached.
   */
  function DrillDown(recs: seq<Record>, tickedPeriods: set<Cell>, tickedCourses: set<Cell>): (v: Stage)
    ensures v.AwaitingPeriods? <==> forall p :: p in Options(recs, PeriodField) ==> p !in tickedPeriods
    ensures !v.NoPeriodData?
    ensures v.ByCourse? ==>
      var byPeriod := Filter(recs, PeriodField, tickedPeriods);
      && |byPeriod| > 0
      && v.summary == Aggregate(byPeriod, CourseField)
      && v.courseOptions == Options(byPeriod, CourseField)
      && v.detail == CourseStep(byPeriod, Selected(Options(recs, PeriodField), tickedPeriods), tickedCourses)
  {
    var periods := Selected(Options(recs, PeriodField), tickedPeriods);
    FilterTicked(recs, PeriodField, tickedPeriods);
    SelectedEmpty(Options(recs, PeriodField), tickedPeriods);
    if |periods| == 0 then AwaitingPeriods
    else
      SelectionFindsRows(recs, PeriodField, tickedPeriods);
      var byPeriod := Filter(recs, PeriodField, AsSet(periods));
      if |byPeriod| == 0 then NoPeriodData
      else ByCourse(Aggregate(byPeriod, CourseField), Options(byPeriod, CourseField), CourseStep(byPeriod, periods, tickedCourses))
  }

  /** Ticking every period gives the course summary of the whole table. */
  lemma {:induction false} AllPeriodsIsWholeTable(recs: seq<Record>, tickedCourses: set<Cell>)
    requires |recs| > 0
    ensures DrillDown(recs, AsSet(Options(recs, PeriodField)), tickedCourses).ByCourse?
    ensures DrillDown(recs, AsSet(Options(recs, PeriodField)), tickedCourses).summary == Aggregate(recs, CourseField)
  {
    FilterAllOptions(recs, PeriodField);
    RowsInOptions(recs, PeriodField);
    assert KeyOf(recs[0], PeriodField) in Options(recs, PeriodField);
  }

  /** The cohort summary accounts for every row matching both selections, and there is at least one. */
  lemma {:induction false} CohortSummaryCoversSelection(recs: seq<Record>, tickedPeriods: set<Cell>, tickedCourses: set<Cell>)
    requires DrillDown(recs, tickedPeriods, tickedCourses).ByCourse?
    requires DrillDown(recs, tickedPeriods, tickedCourses).detail.ByCohort?
    ensures TotalEnrolled(DrillDown(recs, tickedPeriods, tickedCourses).detail.summary)
      == |Filter(Filter(recs, PeriodField, tickedPeriods), CourseField, tickedCourses)|
      > 0
  {
    var byPeriod := Filter(recs, PeriodField, tickedPeriods);
    var byBoth := Filter(byPeriod, CourseField, tickedCourses);
    var d := CourseStep(byPeriod, Selected(Options(recs, PeriodField), tickedPeriods), tickedCourses);
    assert DrillDown(recs, tickedPeriods, tickedCourses).detail == d;
    assert d.summary == Aggregate(byBoth, CohortField);
    CohortTotal(byBoth);
    SelectedEmpty(Options(byPeriod, CourseField), tickedCourses);
    SelectionFindsRows(byPeriod, CourseField, tickedCourses);
  }

  /** When a column holds only text, so does every selection of its options. */
  lemma {:induction false} TextColumnOptions(rows: seq<Record>, f: Field, ticked: set<Cell>)
    requires forall i :: 0 <= i < |rows| ==> KeyOf(rows[i], f).Text?
    ensures AllText(Selected(Options(rows, f), ticked))
  {
    var sel := Selected(Options(rows, f), ticked);
    forall n | 0 <= n < |sel|
      ensures sel[n].Text?
    {
      assert sel[n] in Options(rows, f);
      InColumn(rows, f, sel[n]);
    }
  }

  /**
   When every period and course is text, the heading join cannot raise: once
   a period and a course are ticked, the cohort summary is shown.
   */
  lemma {:induction false} TextSelectionsReachCohorts(recs: seq<Record>, tickedPeriods: set<Cell>, tickedCourses: set<Cell>)
    requires forall i :: 0 <= i < |recs| ==> recs[i].period.Text? && recs[i].course.Text?
    requires DrillDown(recs, tickedPeriods, tickedCourses).ByCourse?
    requires exists c :: c in DrillDown(recs, tickedPeriods, tickedCourses).courseOptions && c in tickedCourses
    ensures DrillDown(recs, tickedPeriods, tickedCourses).detail.ByCohort?
  {
    var byPeriod := Filter(recs, PeriodField, tickedPeriods);
    TextColumnOptions(recs, PeriodField, tickedPeriods);
    FilterMembers(recs, PeriodField, tickedPeriods);
    forall i | 0 <= i < |byPeriod|
      ensures KeyOf(byPeriod[i], CourseField).Text?
    {
      assert byPeriod[i] in recs;
    }
    TextColumnOptions(byPeriod, CourseField, tickedCourses);
  }
}
