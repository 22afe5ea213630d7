/** The per-sheet pipeline of `main()` (timetable_extractor.py lines 21-95) and
    the workbook loop around it: each sheet is either skipped, for one of the
    reasons below, or turned into one output sheet of folded records under
    a sanitised name. A failing sheet never affects the others (lines
    108-109). */
module Extractor {
  import opened Cells
  import opened HeaderLocator
  import opened ColumnProjection
  import opened RowFold
  import opened RowGrouping
  import opened SheetName

  /** An input sheet: its name and the data rows pandas reads from it. */
  datatype Sheet = Sheet(name: string, grid: seq<seq<Cell>>)

  /** A written sheet: its name, its column labels and its records. */
  datatype Output = Output(name: string, columns: seq<string>, records: seq<Record>)

  /** Why a sheet produces no output. `EmptySheet`: `df.empty` (line 24);
      `NoHeaderRow`: no row is marked (line 29); `BadColumns`: the column
      selection or rename raises (lines 42-43); `NoRecords`: no data row
      below the header, so the reordering of an empty frame raises (line 87). */
  datatype Skip = EmptySheet | NoHeaderRow | BadColumns(error: ProjectionError) | NoRecords

  /** What processing one sheet ends in. */
  function SheetOutcome(sheet: Sheet): Result<Output, Skip> {
    if |sheet.grid| == 0 then Err(EmptySheet)
    else
      match FindHeader(sheet.grid)
      case None => Err(NoHeaderRow)
      case Some(h) =>
        match Project(sheet.grid, h)
        case Err(e) => Err(BadColumns(e))
        case Ok(rows) =>
          var records := Normalize(rows);
          if records == [] then Err(NoRecords)
          else Ok(Output(Sanitize(sheet.name), RenamedColumns, records))
  }

  /** The sheet body as the source runs it: locate the header, project the
      columns, run the grouping loop, then name the sheet. */
  method ProcessSheet(sheet: Sheet) returns (r: Result<Output, Skip>)
    ensures r == SheetOutcome(sheet)
  {
    if |sheet.grid| == 0 {
      return Err(EmptySheet);
    }
    var header := FindHeader(sheet.grid);
    if header.None? {
      return Err(NoHeaderRow);
    }
    var projected := Project(sheet.grid, header.value);
    if projected.Err? {
      return Err(BadColumns(projected.error));
    }
    var processed := Aggregate(projected.value);
    if processed == [] {
      return Err(NoRecords);
    }
    r := Ok(Output(Sanitize(sheet.name), RenamedColumns, processed));
  }

  // ---------------------------------------------------------------------------
  // When a sheet is written
  // ---------------------------------------------------------------------------

  /** A sheet is handed to the writer exactly when it has rows, a marked row
      whose seven labels each name one column, and at least one data row
      below it. */
  lemma OutcomeOkIff(sheet: Sheet)
    ensures SheetOutcome(sheet).Ok? <==>
      && |sheet.grid| > 0
      && FindHeader(sheet.grid).Some?
      && ResolveColumns(sheet.grid[FindHeader(sheet.grid).value], SourceLabels).Ok?
      && FindHeader(sheet.grid).value + 1 < |sheet.grid|
  {
    var grid := sheet.grid;
    if |grid| > 0 && FindHeader(grid).Some? {
      var h := FindHeader(grid).value;
      var p := Project(grid, h);
      if p.Ok? {
        RecordCount(p.value);
      }
    }
  }

  /** A header row that is the last row leaves nothing to fold and the sheet
      is skipped, never written as an empty table. */
  lemma NoRecordsIffHeaderLast(sheet: Sheet)
    ensures SheetOutcome(sheet) == Err(NoRecords) <==>
      && |sheet.grid| > 0
      && FindHeader(sheet.grid).Some?
      && ResolveColumns(sheet.grid[FindHeader(sheet.grid).value], SourceLabels).Ok?
      && FindHeader(sheet.grid).value + 1 == |sheet.grid|
  {
    var grid := sheet.grid;
    if |grid| > 0 && FindHeader(grid).Some? {
      var h := FindHeader(grid).value;
      var p := Project(grid, h);
      if p.Ok? {
        RecordCount(p.value);
      }
    }
  }

  /** A written sheet has the seven English columns, in order, a name
      without forbidden characters of at most 25 characters, and between a
      third of the data rows and all of them as records. */
  lemma OutputShape(sheet: Sheet)
    requires SheetOutcome(sheet).Ok?
    ensures var out := SheetOutcome(sheet).value;
      var h := FindHeader(sheet.grid).value;
      && out.columns == ["Period", "Time", "Monday", "Tuesday", "Wednesday", "Thursday", "Friday"]
      && out.name == Sanitize(sheet.name)
      && |out.name| <= MaxLength
      && (forall k :: 0 <= k < |out.name| ==> out.name[k] !in Forbidden)
      && |out.records| <= |sheet.grid| - h - 1
      && (|sheet.grid| - h - 1 + 2) / 3 <= |out.records|
      && forall k :: 0 <= k < |out.records| ==> |out.records[k].days| == DayCount
  {
    var h := FindHeader(sheet.grid).value;
    var rows := Project(sheet.grid, h).value;
    RecordCount(rows);
    SanitizeShape(sheet.name);
    NormalizeByGroups(rows);
  }

  /** The first record of a written sheet is the first data row below the
      header, read from the column labelled `課節`: the grouping loop always
      starts a record at the first row. */
  lemma FirstRecordPeriod(sheet: Sheet, c: nat)
    requires SheetOutcome(sheet).Ok?
    requires UniqueColumn(sheet.grid[FindHeader(sheet.grid).value], SourceLabels[0], c)
    ensures SheetOutcome(sheet).value.records[0].period ==
      CellAt(sheet.grid[FindHeader(sheet.grid).value + 1], c)
  {
    var h := FindHeader(sheet.grid).value;
    var rows := Project(sheet.grid, h).value;
    RecordCount(rows);
    GroupsFromStep(rows, 0);
    Passthrough(rows, 0);
    assert ProjectedCell(rows[0], 0) == rows[0].period;
  }

  // ---------------------------------------------------------------------------
  // The workbook
  // ---------------------------------------------------------------------------

  /** The sheets written for a workbook: one per sheet that is not skipped,
      in the workbook's sheet order. */
  function Workbook(sheets: seq<Sheet>): (out: seq<Output>)
    ensures |out| <= |sheets|
  {
    if sheets == [] then []
    else
      var init := Workbook(sheets[..|sheets| - 1]);
      match SheetOutcome(sheets[|sheets| - 1])
      case Ok(o) => init + [o]
      case Err(_) => init
  }

  /** The loop over the workbook's sheets: a sheet whose processing fails is
      passed over and the loop goes on with the next. */
  method ProcessWorkbook(sheets: seq<Sheet>) returns (written: seq<Output>)
    ensures written == Workbook(sheets)
  {
    written := [];
    for k := 0 to |sheets|
      invariant written == Workbook(sheets[..k])
    {
      var outcome := ProcessSheet(sheets[k]);
      assert sheets[..k + 1][..k] == sheets[..k];
      if outcome.Ok? {
        written := written + [outcome.value];
      }
    }
    assert sheets[..|sheets|] == sheets;
  }

  /** The sheets of two parts of a workbook are written independently. */
  lemma {:induction false} WorkbookAppend(a: seq<Sheet>, b: seq<Sheet>)
    ensures Workbook(a + b) == Workbook(a) + Workbook(b)
    decreases |b|
  {
    if b == [] {
      assert a + b == a;
    } else {
      var init := b[..|b| - 1];
      assert (a + b)[..|a + b| - 1] == a + init;
      assert (a + b)[|a + b| - 1] == b[|b| - 1];
      WorkbookAppend(a, init);
    }
  }

  /** A skipped sheet leaves the output of every other sheet as it was. */
  lemma SkippedSheetIsIsolated(a: seq<Sheet>, s: Sheet, b: seq<Sheet>)
    requires SheetOutcome(s).Err?
    ensures Workbook(a + [s] + b) == Workbook(a) + Workbook(b)
  {
    WorkbookAppend(a + [s], b);
    WorkbookAppend(a, [s]);
    assert [s][..0] == [];
  }

  /** A sheet that is written contributes exactly its own output, in place. */
  lemma WrittenSheetInPlace(a: seq<Sheet>, s: Sheet, b: seq<Sheet>)
    requires SheetOutcome(s).Ok?
    ensures Workbook(a + [s] + b) == Workbook(a) + [SheetOutcome(s).value] + Workbook(b)
  {
    WorkbookAppend(a + [s], b);
    WorkbookAppend(a, [s]);
    assert [s][..0] == [];
  }
}
