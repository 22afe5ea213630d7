# Timetable extractor, modelled in Dafny

`timetable_extractor.py` reads every sheet of a teacher-timetable workbook and
writes one cleaned sheet per input sheet. For each sheet it:

1. finds the header row, the first row whose first cell contains `課節` or `Period`;
2. promotes that row to column labels and keeps the seven columns `課節`, `時段`,
   `星期一` … `星期五`, renamed `Period`, `Time`, `Monday` … `Friday`;
3. walks the data rows. Each main row absorbs up to two of the following rows
   whose `Time` equals its own, and `combine_rows` folds them into one record.
   Per weekday, the record holds the stripped, non-empty texts of the absorbed
   rows and then the main row's, joined with `-`;
4. writes the records under the sheet's name, with the characters
   `: \ / ? * [ ]` removed and the name cut to 25 characters.

A sheet that is empty, has no header row, lacks a column or names one twice,
or has nothing below its header is skipped. The other sheets are processed as usual.

The modules:

| module | file | models |
|---|---|---|
| `Cells` | `cells.dfy` | cells (`Empty` for NaN, `Text` otherwise), Python's `str.strip()`, substring test, `'-'.join` |
| `HeaderLocator` | `header_locator.dfy` | the header-row search |
| `ColumnProjection` | `column_projection.dfy` | selecting the seven labelled columns and renaming them |
| `RowFold` | `row_fold.dfy` | `combine_rows`: a pure specification `Combine` and the loop `CombineRows` proved equal to it |
| `RowGrouping` | `row_grouping.dfy` | the grouping `while` loop as written: a specification `Normalize` and the method `Aggregate` proved equal to it |
| `IntendedGrouping` | `intended_grouping.dfy` | where the grouping loop departs from its rule, and the corrected consecutive-run grouping |
| `SheetName` | `sheet_name.dfy` | the output sheet name |
| `Extractor` | `extractor.dfy` | one sheet end to end (`ProcessSheet` against `SheetOutcome`) and the workbook loop |

The loops of the source are methods: `CombineRows`, `ProbeRows`, `Aggregate`
and `ProcessWorkbook`. Each `ensures` that its result equals a pure function,
and the properties are proved about those functions as lemmas. The `for j in
[1, 2]` probe loop sits inline in the source's `while` loop. Here it is a
method of its own, `ProbeRows`, called from `Aggregate`.

A sheet's grid is modelled as the rows pandas reads into the DataFrame, each a
sequence of cells. pandas pads a sheet into a rectangle, filling the missing
cells of a short row with NaN; here a row may be shorter than another, and a
cell past its end reads as `Empty`, which stands for that padding.

## Model

| member | source | states |
|---|---|---|
| `Cells.StripIsInnerSlice` | timetable_extractor.py:54-58 | `strip()` yields the contiguous piece of the text left after dropping whitespace at both ends |
| `Cells.StripStripped` | timetable_extractor.py:54-58 | a stripped text neither starts nor ends with whitespace |
| `Cells.StripIdempotent` | timetable_extractor.py:54-58 | stripping twice is stripping once |
| `Cells.StripEmptyIff` | timetable_extractor.py:54 | a text strips to `''` exactly when it is all whitespace, the case `combine_rows` drops |
| `Cells.Contains` | timetable_extractor.py:28 | the substring test holds exactly when the pattern occurs at some position |
| `Cells.JoinAppend` | timetable_extractor.py:60 | joining two non-empty lists puts one `-` between their joins |
| `Cells.JoinShape` | timetable_extractor.py:60 | a join of non-empty pieces is empty only for no pieces, and otherwise starts with the first piece and ends with the last |
| `HeaderLocator.FindHeader` | timetable_extractor.py:28-31 | the result is the first row whose first cell contains `課節` or `Period`; `None` exactly when no row does |
| `HeaderLocator.FirstMarkedIsFound` | timetable_extractor.py:28-31 | a marked row with no marked row before it is the header row found |
| `HeaderLocator.HeaderIgnoresLaterRows` | timetable_extractor.py:31 | rows after the first marked row do not change the header row |
| `HeaderLocator.HeaderAfterUnmarkedRows` | timetable_extractor.py:28-31 | unmarked rows put in front shift the header index by their number |
| `ColumnProjection.ResolveColumns` | timetable_extractor.py:42-43 | the selection succeeds exactly when each label names one column; it then gives each label's only column; otherwise it names the missing label, or the duplicated label when none is missing |
| `ColumnProjection.ResolveOkIffUnique` | timetable_extractor.py:42-43 | the selection succeeds if and only if every label has a column that is the only one with that label |
| `ColumnProjection.Project` | timetable_extractor.py:37-43 | the rows strictly below the header, one per data row, with each field read from the column carrying its label; an error exactly when the columns do not resolve |
| `RowFold.CombineRows` | timetable_extractor.py:46-64 | the per-day loop computes `Combine`: every weekday's text and the main row's period and time |
| `RowFold.CombineDayTexts` | timetable_extractor.py:50-60 | every weekday text of a record is stripped, and it is `''` exactly when neither the main row nor any absorbed row has text for that day |
| `RowFold.KeptTrimmed` | timetable_extractor.py:54-58 | every collected value is non-empty and stripped |
| `RowFold.KeptAppend` | timetable_extractor.py:53-58 | the values collected from two runs of rows are those of each, in order |
| `RowFold.KeptEmptyIff` | timetable_extractor.py:52-58 | nothing is collected exactly when no cell is non-NaN and non-blank |
| `RowFold.DayValueEmptyIff` | timetable_extractor.py:60 | a day's text is `''` exactly when neither an absorbed row nor the main row has text for that day |
| `RowFold.DayValueStripped` | timetable_extractor.py:54-60 | a day's text never has surrounding whitespace |
| `RowFold.LookaheadBeforeMain` | timetable_extractor.py:53-60 | the absorbed rows' texts come first, then `-`, then the main row's text |
| `RowFold.FoldSplits` | timetable_extractor.py:53-60 | folding rows `a + b` is `a`'s join, `-`, then the fold of `b`, when both contribute |
| `RowFold.SingleRowFold` | timetable_extractor.py:57-60 | with nothing absorbed each day is the main row's stripped text, or `''` |
| `RowGrouping.ProbesFold` | timetable_extractor.py:74-77 | every probed row that is absorbed has the main row's `Time`, and the absorbed indices increase |
| `RowGrouping.ProbesUnrolled` | timetable_extractor.py:74-77 | the two probes look at `i0 + 1`, then at `i0 + 3` after a hit or `i0 + 2` after a miss |
| `RowGrouping.LookaheadMatches` | timetable_extractor.py:75-76 | absorbed rows share the main row's `Time` and come in increasing order |
| `RowGrouping.ProbeRows` | timetable_extractor.py:72-78 | the probe loop returns the absorbed rows and advances `i` by their number |
| `RowGrouping.Aggregate` | timetable_extractor.py:67-81 | the `while` loop emits exactly `Normalize(rows)` |
| `RowGrouping.EmptyTimeNeverGroups` | timetable_extractor.py:75 | a NaN `Time` never matches: such a row absorbs nothing and is never absorbed |
| `RowGrouping.LookaheadGroup` | timetable_extractor.py:72-79 | a main row with its absorbed rows is a group of one to three rows sharing one `Time` |
| `RowGrouping.GroupsWellGrouped` | timetable_extractor.py:67-81 | every group the loop forms is well grouped and starts at or after where the loop stood |
| `RowGrouping.NormalizeByGroups` | timetable_extractor.py:79-80 | record `k` is the fold of group `k`, with its first row as the main row |
| `RowGrouping.Passthrough` | timetable_extractor.py:62-63 | each record's period and time are those of its group's main row |
| `RowGrouping.RecordCount` | timetable_extractor.py:69-81 | with `n` rows the loop emits between `⌈n/3⌉` and `n` records, and at least one when `n > 0` |
| `RowGrouping.NoMatchesGroupsFrom` | timetable_extractor.py:72-78 | when no row's `Time` equals that of the next two rows, every group is a single row, in order |
| `RowGrouping.NoMatchesOneRecordPerRow` | timetable_extractor.py:67-81 | without such matches there is one record per row, with that row's period, time and stripped day texts |
| `RowGrouping.NormalizeIdempotent` | timetable_extractor.py:67-81 | without such matches, running the output through the loop again reproduces it |
| `IntendedGrouping.AsWrittenDropsAndRepeats` | timetable_extractor.py:74-77 | for times `08:00, 09:00, 08:00` the loop forms groups `[0, 2], [2]`: row 1 is in none and row 2 in two |
| `IntendedGrouping.AsWrittenLosesPeriod` | timetable_extractor.py:67-81 | on that table two records are written, for periods `1` and `3`; period `2` is lost |
| `IntendedGrouping.AsWrittenSkipsConsecutiveRow` | timetable_extractor.py:74-77 | after a first hit the second probe skips the next row and absorbs the one after it, which is then read again |
| `IntendedGrouping.IntendedLookahead` | timetable_extractor.py:72-78 | the corrected rule absorbs a run of consecutive indices right after the main row, at most two |
| `IntendedGrouping.IntendedLookaheadMaximal` | timetable_extractor.py:72-78 | the run shares the main row's `Time` and stops only at the table's end, at another `Time`, or after two rows |
| `IntendedGrouping.IntendedGroupsPartition` | timetable_extractor.py:67-81 | under the corrected rule the groups cover every row exactly once, in order |
| `IntendedGrouping.IntendedNormalizeByGroupsFrom` | timetable_extractor.py:79-80 | under the corrected rule each record is the fold of its group |
| `IntendedGrouping.IntendedKeepsEveryPeriod` | timetable_extractor.py:67-81 | on the table the loop mishandles, the corrected rule writes all three periods |
| `IntendedGrouping.AgreeWithoutNearMatches` | timetable_extractor.py:67-81 | the loop as written and the corrected rule give the same records when no row's `Time` equals one of the next two rows' |
| `SheetName.FilterClean` | timetable_extractor.py:90 | no forbidden character survives the filter |
| `SheetName.FilterCounts` | timetable_extractor.py:90 | every allowed character is kept as often as it occurs, and no forbidden one |
| `SheetName.FilterAppend` | timetable_extractor.py:90 | the filter works character by character, so it distributes over concatenation |
| `SheetName.FilterKeepsClean` | timetable_extractor.py:90 | a name without forbidden characters passes unchanged |
| `SheetName.SanitizeShape` | timetable_extractor.py:90-92 | the name is the filtered name's first 25 characters, or all of it when shorter, and holds no forbidden character |
| `SheetName.SanitizeKeepsShortClean` | timetable_extractor.py:90-92 | a clean name of at most 25 characters is kept as it is |
| `SheetName.SanitizeIdempotent` | timetable_extractor.py:90-92 | sanitising a sanitised name changes nothing |
| `Extractor.ProcessSheet` | timetable_extractor.py:22-95 | the sheet body computes `SheetOutcome`: skipped for an empty sheet, no header row, bad columns or no records; otherwise the records under the sanitised name |
| `Extractor.OutcomeOkIff` | timetable_extractor.py:24-43 | a sheet is written if and only if it has rows, a header row, resolvable columns, and a row below the header |
| `Extractor.NoRecordsIffHeaderLast` | timetable_extractor.py:84-87 | a sheet is skipped for having no records exactly when the header row is its last row |
| `Extractor.OutputShape` | timetable_extractor.py:87-92 | a written sheet has the seven English columns in order, a clean name of at most 25 characters, and between a third of the data rows and all of them |
| `Extractor.FirstRecordPeriod` | timetable_extractor.py:62-70 | the first record's period is the first data row's `課節` cell |
| `Extractor.ProcessWorkbook` | timetable_extractor.py:21-109 | the sheet loop writes exactly `Workbook(sheets)` |
| `Extractor.WorkbookAppend` | timetable_extractor.py:21-22 | two parts of a workbook are written independently, in order |
| `Extractor.SkippedSheetIsIsolated` | timetable_extractor.py:108-109 | a skipped sheet leaves the output of all other sheets as it was |
| `Extractor.WrittenSheetInPlace` | timetable_extractor.py:95 | a written sheet contributes exactly its own output, at its position |

## Left out

- Reading and writing `.xlsx` files, the command-line defaults, the `print` logging and `sys.exit` on a workbook-level error. These are I/O. A sheet is given as its name and its rows of cells, and the output is the list of sheets written.
- Row heights and column widths (lines 97-106). These are formatting only.
- Numbers and dates in cells. They are taken as already rendered to the text `str()` gives. So `Time` equality between a number and a numeric string is not modelled: both are `Text` here.
- The pattern `'課節|Period'` is a regular expression. Neither alternative holds a metacharacter, so it is modelled as two substring tests.
- `df.empty` is modelled as a sheet with no rows. pandas reports a frame with columns but no rows as empty too, and that case is the same here.
- pandas' first sheet line, which it takes as its own column labels, is not part of the grid. The header search, like the code, looks only at data rows.
- Sheet names the spreadsheet writer rejects or renames: two input sheets whose sanitised names collide, a name that sanitises to `''`, or one that ends in an apostrophe after the 25-character cut. The spreadsheet writer is not part of this model, so "written" here means "handed to the writer under the sanitised name".
- A table with a header but no data rows might be expected to give an empty output table. The code instead builds `pd.DataFrame([])`, which has no columns, so the column reordering raises `KeyError` and the sheet is skipped. The model follows the code (`Extractor.NoRecordsIffHeaderLast`).
- The `Extractor` pipeline uses the grouping loop as written, `RowGrouping.Normalize`. The corrected grouping, `IntendedGrouping.IntendedNormalize`, is defined and proved alongside it. `IntendedGrouping.AgreeWithoutNearMatches` shows the two agree on every table where no row shares its `Time` with one of the two rows below it.

## Findings

| source | as written | input that shows it | evidently intended | confidence | as-written member | corrected member |
|---|---|---|---|---|---|---|
| timetable_extractor.py:74-77 | `i += 1` inside `for j in [1, 2]` moves the second probe: it looks at `i0 + 2` after a miss and at `i0 + 3` after a hit. Rows get dropped or read twice | times `08:00, 09:00, 08:00` give groups `[0, 2], [2]` and lose period `2`. Four rows at `08:00` give `[0, 1, 3], [3]` | a main row absorbs the run of up to two rows directly after it with the same `Time`, and every row is in exactly one group | not executed; proved on the model | `IntendedGrouping.AsWrittenDropsAndRepeats` | `IntendedGrouping.IntendedGroupsPartition` |
