# Course statistics from spreadsheet uploads — a Dafny model

This model covers the data path of the Streamlit app `streamlit_app.py`. The app reads a batch of
exported grade spreadsheets and merges them. It renames the columns, projects the
merged table onto four fixed columns, and then drills down:

- the user ticks examination periods and gets a summary by course;
- the user then ticks courses and gets a summary by enrolment cohort.

Each summary row gives three counts:

- Enrolled: the size of the group;
- Participated: the grades present;
- Passed: the grades of at least 5.

The modules follow the stages of the script:

- `Wrappers`: `Option` and `Result`.
- `Numerals`: decimal text of numbers, both the rendering `astype(str)` applies and the parsing
  `pd.to_numeric(errors='coerce')` applies.
- `Cells`: a spreadsheet cell is text, a number or empty (pandas' NaN). This module has the two per-cell conversions.
- `Ordering`: the total order used for sorted option lists and group keys, and `sorted(unique())`.
- `Tables`: decoded tables, column lookup, and `pd.concat(..., ignore_index=True)`. The header
  union is taken in order of first appearance, and the gaps read as empty cells.
- `Columns`: the header constants, `FIXED_COLUMNS`, the renaming dictionary, the rename, the
  truncation of the registry number to its cohort, and the projection onto the fixed
  columns into typed `Record`s.
- `Ingest`: per-file acceptance, the merge decision, the session state and reruns.
- `Drilldown`: the option lists, the checkbox selections, the `isin` filters, the `groupby`
  aggregation, and the two-step drill-down with its messages.

Two observations come out of the proofs:

- The "no data for the selected periods" and "no data for this combination" messages can
  never be shown. Both steps offer only values that occur in the rows being filtered, so
  a non-empty selection always keeps a row (`Drilldown.DrillDown`, `Drilldown.CourseStep`).
- The session's `combined_df` is documented as the merged table before renaming. The
  script stores the very object that it then renames in place (see Findings).

## Model

| member | source | states |
|---|---|---|
| `Columns.RenameColumn` | streamlit_app.py:61-66 | A header changes name exactly when it is one of the three original headers in the renaming dictionary; the grade header keeps its name |
| `Columns.RenameRequired` | streamlit_app.py:46-66 | The four required original headers rename, position by position, to the four fixed columns in their fixed order |
| `Columns.Rename` | streamlit_app.py:143 | Renaming keeps the number of columns and every cell; dictionary headers take their new name and all others are untouched |
| `Columns.CohortClashDuplicates` | streamlit_app.py:143-161 | A header list with both the registry header and the cohort name renames to two cohort columns; for distinct headers this is the only way to get two |
| `Columns.RenameKeepsCells` | streamlit_app.py:143 | When no two headers collide after renaming, reading a renamed table under a column's new name gives what the original held under the old name |
| `Columns.Truncate` | streamlit_app.py:161 | The cohort is a prefix of the rendered registry number: the whole text when it has at most three characters, otherwise exactly three |
| `Columns.TruncateIdempotent` | streamlit_app.py:161 | Cutting an already cut cohort changes nothing |
| `Columns.TruncateRegistryNumber` | streamlit_app.py:161 | A registry number yields the same three-digit cohort whether the sheet stores it as text or as a number |
| `Columns.MissingColumns` | streamlit_app.py:149 | The missing list holds exactly the fixed columns the header lacks, and is empty exactly when all four are present |
| `Columns.ProjectRow` | streamlit_app.py:158-164 | A processed record carries the row's period and course unchanged, its cohort as the first min(3, length) characters of the rendered registry cell, and its grade as the numeric coercion of the grade cell |
| `Columns.Project` | streamlit_app.py:149-164 | The projection fails exactly when a fixed column is missing, reporting exactly the missing ones; otherwise it yields one record per row, each the row's projection |
| `Columns.ProjectIgnoresOtherColumns` | streamlit_app.py:158 | Two tables that agree on the fixed columns project to the same result, whatever other columns they have |
| `Columns.ProjectProcessed` | streamlit_app.py:158-164 | Projecting the processed table, laid out under the fixed columns, gives back the same records |
| `Columns.ProjectIdempotent` | streamlit_app.py:158-164 | The projection is idempotent on its own output |
| `Cells.Show` | streamlit_app.py:161 | String rendering keeps text as it is, renders an empty cell as "nan", and renders a number with at least one digit |
| `Cells.Coerce` | streamlit_app.py:164 | Coercion keeps numbers and turns empty cells into nulls; text becomes a number only if it is written in digits, a point and a leading sign |
| `Cells.CoerceIntegerText` | streamlit_app.py:164 | An integer grade coerces to the same value whether stored as a number or as its text |
| `Cells.LetterGradeIsNull` | streamlit_app.py:164 | A letter grade coerces to null |
| `Numerals.NatTextValue` | streamlit_app.py:161 | The rendered digits of a natural number read back as that number |
| `Numerals.NumberTextOfInteger` | streamlit_app.py:161 | An integer-valued number renders exactly as the integer's digits |
| `Numerals.ParseNumber` | streamlit_app.py:164 | Text that parses contains a digit and only digits, points and a leading sign |
| `Numerals.ParseIntText` | streamlit_app.py:164 | Parsing the text of any integer gives that integer back |
| `Numerals.LetterIsNotNumber` | streamlit_app.py:164 | A single non-digit character is not a number |
| `Ordering.TextLessTransitive` | streamlit_app.py:205 | The string order used by sorting is transitive |
| `Ordering.TextLessTotal` | streamlit_app.py:205 | Any two different strings are ordered one way or the other |
| `Ordering.LessTransitive` | streamlit_app.py:205 | The cell order is transitive |
| `Ordering.LessTotal` | streamlit_app.py:205 | Any two different cells are ordered one way or the other |
| `Ordering.SortedHasNoDuplicates` | streamlit_app.py:205 | A strictly ascending list has no repeated value |
| `Ordering.Insert` | streamlit_app.py:205 | Inserting into a strictly ascending list keeps it strictly ascending and adds exactly the new value |
| `Ordering.SortedDistinct` | streamlit_app.py:205 | `sorted(unique())` is strictly ascending and holds exactly the values of the column |
| `Ordering.SortedUnique` | streamlit_app.py:205 | Two strictly ascending lists with the same values are equal |
| `Ordering.SortedDistinctOrderFree` | streamlit_app.py:205 | The option list depends only on which values occur, not on row order or repetition |
| `Tables.IndexOf` | streamlit_app.py:158 | Column lookup finds the first header with the name |
| `Tables.IndexOfFirst` | streamlit_app.py:158 | Any position holding the name with no earlier occurrence is the one lookup finds |
| `Tables.Union` | streamlit_app.py:137 | The merged header keeps the earlier headers in place and holds exactly the names of both |
| `Tables.AllColumns` | streamlit_app.py:137 | The merged header holds exactly the headers of the merged files |
| `Tables.LookupRealign` | streamlit_app.py:137 | Realigning a row under the merged header keeps every cell under its name, and a column the file lacks reads empty |
| `Tables.Stack` | streamlit_app.py:137 | The stacked rows number the total rows of all files and each has one cell per merged column |
| `Tables.Concat` | streamlit_app.py:137 | The merge has all files' rows, exactly the files' headers, and rectangular rows |
| `Tables.StackPlacesRow` | streamlit_app.py:137 | Row j of file k lands at position "rows of the earlier files + j" |
| `Tables.ConcatKeepsRows` | streamlit_app.py:137 | In the merge, that position holds the file row's cell under every column name |
| `Ingest.Classify` | streamlit_app.py:113-129 | A file fails when it cannot be read; otherwise it is skipped when it lacks a required header, reported empty when it has no rows, and appended when it has both, in that order |
| `Ingest.AcceptedTables` | streamlit_app.py:117-123 | Every appended table has all required headers and at least one row |
| `Ingest.AcceptedTablesAppend` | streamlit_app.py:107-132 | Acceptance is decided file by file: two consecutive batches accept the tables of each, in order |
| `Ingest.RejectedFileChangesNothing` | streamlit_app.py:118-129 | A skipped, empty or unreadable file adds nothing to the merge |
| `Ingest.MergedHasFixedColumns` | streamlit_app.py:135-151 | When every merged file has the required headers, the merge has them too, and after renaming no fixed column is missing |
| `Ingest.ProcessBatch` | streamlit_app.py:90-178 | There is one verdict per file. Any failed read stops the batch and leaves the session empty. No accepted file gives the "nothing extracted" outcome and an empty session. When the merge carries both the registry header and the cohort name, the cohort cut raises and the outer handler (184-192) clears both tables. Otherwise the merge is stored, as the corrected pre-rename table of the Findings row rather than the renamed object the script stores; the processed table is the projection of its renamed form, one record per merged row; and the "missing after rename" error is unreachable |
| `Ingest.BatchVerdicts` | streamlit_app.py:107-129 | There is one verdict per uploaded file, the file's own classification, in upload order |
| `Ingest.NoRenamedHeadersNoCohortClash` | streamlit_app.py:143-161 | A merge of files without headers already carrying the new names never produces two cohort columns |
| `Ingest.NoRenamedHeadersNoClash` | streamlit_app.py:143 | Files without headers already carrying the new names produce no rename collisions |
| `Ingest.RenamedMergeCell` | streamlit_app.py:137-143 | A required cell of a file row is found, after merging and renaming, under the column's new name at the row's merged position |
| `Ingest.MergedRecord` | streamlit_app.py:137-164 | The record at a file row's merged position is that row's period, course, cohort and coerced grade |
| `Ingest.SessionRecord` | streamlit_app.py:137-167 | A session holding the projection of the renamed merge holds each file row's record at the row's merged position |
| `Ingest.ProcessedRecordFromFile` | streamlit_app.py:105-167 | Every row of every accepted file appears in the stored processed table, at its merged position, as its own record |
| `Ingest.BatchProcessesMerge` | streamlit_app.py:135-167 | A batch without a failed file stores the projection of the renamed merge of its accepted files, and nothing when the merge has two cohort columns |
| `Ingest.Rerun` | streamlit_app.py:90-93 | A rerun keeps an existing processed table whatever is uploaded, changes nothing without uploads, and otherwise produces a processed table exactly when no file failed, some file was accepted and the merge does not carry both the registry header and the cohort name |
| `Ingest.CombinedAsWrittenIsRenamed` | streamlit_app.py:137-143 | As written, the stored merged table loses the original period header although every merged file has it |
| `Ingest.StoredCombinedKeepsOriginalHeaders` | streamlit_app.py:73 | The corrected session stores a merged table exactly when the cohort cut does not raise, and keeps it under all four original headers |
| `Drilldown.Options` | streamlit_app.py:205 | The option list is strictly ascending and holds exactly the values occurring in the column |
| `Drilldown.InColumn` | streamlit_app.py:205 | A value occurs in the column exactly when some row holds it |
| `Drilldown.Selected` | streamlit_app.py:214-224 | The selection holds exactly the offered options that are ticked, in the options' order |
| `Drilldown.SelectedEmpty` | streamlit_app.py:227 | Nothing is selected exactly when no offered option is ticked |
| `Drilldown.FilterMembers` | streamlit_app.py:229 | A row survives `isin` exactly when it is a row of the table whose value is selected |
| `Drilldown.FilterSubMultiset` | streamlit_app.py:229 | Filtering never repeats a row |
| `Drilldown.FilterAppend` | streamlit_app.py:229 | Filtering distributes over concatenation, so it keeps row order |
| `Drilldown.FilterSameVerdicts` | streamlit_app.py:229 | Only the selected status of the values present matters |
| `Drilldown.FilterAllOptions` | streamlit_app.py:229 | Selecting every option keeps the whole table |
| `Drilldown.FilterKeepsAll` | streamlit_app.py:229 | A selection holding every row's value keeps every row |
| `Drilldown.FilterDisjointUnion` | streamlit_app.py:229 | Disjoint selections filter disjoint parts whose sizes add up |
| `Drilldown.FilterEmptySelection` | streamlit_app.py:229 | An empty selection keeps no row |
| `Drilldown.FilterCommutes` | streamlit_app.py:229-287 | Filtering by period then by course equals filtering by course then by period |
| `Drilldown.FilterCascade` | streamlit_app.py:229-287 | The doubly filtered rows are among the period-filtered rows, which are among all rows, and a row survives exactly when both its period and its course are selected |
| `Drilldown.RowsInOptions` | streamlit_app.py:205 | Each row's value is among the column's options |
| `Drilldown.FilterTicked` | streamlit_app.py:221-229 | Filtering on the selected options is the same as filtering on the ticked values |
| `Drilldown.SelectionFindsRows` | streamlit_app.py:227-231 | A non-empty selection of offered options keeps at least one row |
| `Drilldown.Tally` | streamlit_app.py:235-239 | A group's counts satisfy Passed ≤ Participated ≤ Enrolled ≤ number of rows |
| `Drilldown.Graded` | streamlit_app.py:237 | The graded rows are exactly the rows with a non-null grade |
| `Drilldown.Passing` | streamlit_app.py:238 | The passing rows are exactly the rows whose grade is at least 5 |
| `Drilldown.TallyCounts` | streamlit_app.py:235-241 | Enrolled is the number of rows with the key (null grades included), Participated those with a grade, Passed those with a grade of at least 5 |
| `Drilldown.TallyAppend` | streamlit_app.py:235-241 | The counts of concatenated rows are the sums of the counts |
| `Drilldown.TallyOrderFree` | streamlit_app.py:235-241 | A group's counts do not depend on row order |
| `Drilldown.GroupKeys` | streamlit_app.py:241 | The group keys are ascending and are exactly the non-empty values of the column |
| `Drilldown.Aggregate` | streamlit_app.py:241 | There is one summary row per group key, in key order, each holding that key's counts |
| `Drilldown.Tallies` | streamlit_app.py:241 | One tally per key, in key order |
| `Drilldown.AggregateShape` | streamlit_app.py:241 | The summary keys are ascending and non-empty, every non-empty row value has a summary row, and every summary row counts at least one enrolled row |
| `Drilldown.TotalEnrolledOfKeys` | streamlit_app.py:236-241 | Summing Enrolled over distinct keys counts the rows whose value is one of them |
| `Drilldown.AggregateTotal` | streamlit_app.py:236-241 | The Enrolled column of a summary adds up to the number of rows with a non-empty key |
| `Drilldown.CohortTotal` | streamlit_app.py:291 | The cohort summary accounts for every row, since a cohort is never empty |
| `Drilldown.AggregateOrderFree` | streamlit_app.py:241 | The summary depends only on the multiset of rows |
| `Drilldown.CourseStep` | streamlit_app.py:258-308 | The course step asks for a course exactly when no offered course is ticked and never shows "no data". Once a course is ticked, it fails exactly when a ticked period or course is not text, because the heading's join raises; otherwise it is the cohort summary of the rows of the ticked courses |
| `Drilldown.DrillDown` | streamlit_app.py:201-313 | The analysis asks for a period exactly when no offered period is ticked and never shows "no data". Otherwise it shows the course summary of the non-empty period-filtered rows, the course options of those rows, and the course step over them and the ticked periods |
| `Drilldown.AllPeriodsIsWholeTable` | streamlit_app.py:205-241 | Ticking every period gives the course summary of the whole processed table |
| `Drilldown.TextColumnOptions` | streamlit_app.py:205-224 | A column holding only text offers, and so selects, only text |
| `Drilldown.TextSelectionsReachCohorts` | streamlit_app.py:280-291 | When periods and courses are text, ticking an offered course always reaches the cohort summary |
| `Drilldown.CohortSummaryCoversSelection` | streamlit_app.py:280-291 | The cohort summary's Enrolled column adds up to the number of rows matching both selections, which is positive |

## Left out

- Everything on screen is out: the widgets, messages, progress bar, dataframe previews and download
  buttons, `to_excel` with its cache, and the footer. The messages appear only as the
  outcomes `Status`, `Verdict`, `Stage` and `Detail`.
- Spreadsheet decoding (`pd.read_excel(header=0, skiprows=1)`) is out. A file is its decoded table or
  `Unreadable`; how cells get their types is not modelled.
- The outer `except` that clears the session on an unexpected error (lines 184-192) is modelled
  only for the cohort cut at line 161. It raises there when renaming gives two cohort columns.
- Ingest.ProcessBatch: the stored merged table is the corrected pre-rename table of the Findings
  row. The script stores the object it then renames (`Ingest.CombinedAsWritten`).
- Ingest.ProcessBatch: a merge carrying both an original and a renamed period or course header is
  read through the first occurrence and stored as `Merged`. The script stores two same-named
  columns and fails later, at line 205 or line 241.
- `Numerals.NumberText` approximates Python's `repr` of floats: integers render as their digits, and
  fractions as a decimal expansion cut at 16 places. The ".0" suffix that a float-typed column
  adds to integral values (which would make a cohort "202" out of "2023001234.0" all the
  same) and exponent notation are not modelled.
- `Numerals.ParseNumber` accepts only a sign, digits and one point. pandas also accepts
  surrounding whitespace, exponents, "inf" and "nan". Those texts coerce to null in the model.
- `Ordering.Less`: Python's `sorted` raises `TypeError` when a column mixes numbers and text
  (or holds NaN next to text). The model instead uses a total order: numbers, then text, then empty
  cells. It also treats 5 and 5.0 as one key, which pandas does as well.
- `read_excel` suffixes repeated headers within one file, so a decoded file has distinct headers.
  The model does not require this and reads duplicates through their first occurrence. A file that already has a header
  with one of the new names would give pandas duplicate labels; the theorems about
  renamed cells assume this does not happen (`Ingest.NoRenamedHeaders`).
- Re-uploading: the code at line 90 processes uploads only while no processed table
  exists, so a later upload in the same session is ignored. `Ingest.Rerun` models the code.
  The comment at line 91 speaks of a reset on new uploads, but that reset happens only while no
  processed table exists, and the model follows the code.
- Drilldown.CourseStep: the joins at lines 281-282 are modelled only as failing or not
  (`JoinFailed` when a selected value is not text); the heading text itself is out.
- Drilldown.DrillDown: the checkbox labels at lines 221 and 274 take the option value itself;
  whether a non-text label is accepted is not modelled, and the model ticks such options like
  any other.

## Findings

| source | as written | input that shows it | evidently intended | confidence | as-written member | corrected member |
|---|---|---|---|---|---|---|
| streamlit_app.py:137-143 | `st.session_state.combined_df` is bound to the same DataFrame that `rename(..., inplace=True)` then renames, so the stored "raw merged" table carries the new headers | any batch with one accepted file: the stored table has "Περίοδος", not "Περίοδος δήλωσης" | keep the merge under its original headers, as the comments at lines 73 and 138 say (store a copy, or rename a copy) | high, not executed | `Ingest.CombinedAsWrittenIsRenamed` | `Ingest.StoredCombinedKeepsOriginalHeaders` |
