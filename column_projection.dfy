/** Promoting the header row to column labels and picking the seven timetable
    columns by label (timetable_extractor.py lines 36-43). pandas raises when
    a label is missing (`KeyError`) and, when a label names two columns, the
    selection returns more than seven columns and the rename to seven names
    raises; either way the sheet is skipped (lines 108-109). */
module ColumnProjection {
  import opened Cells

  /** The labels selected from the header row, in selection order: period,
      time slot, Monday … Friday. */
  const SourceLabels: seq<string> := ["課節", "時段", "星期一", "星期二", "星期三", "星期四", "星期五"]

  /** The English names the selected columns are renamed to. */
  const RenamedColumns: seq<string> := ["Period", "Time", "Monday", "Tuesday", "Wednesday", "Thursday", "Friday"]

  /** The number of weekday columns, `Monday` … `Friday`. */
  const DayCount: nat := 5

  /** A data row after projection: the period and time cells and one cell
      per weekday, Monday first. */
  datatype Row = Row(period: Cell, time: Cell, days: seq<Cell>)

  datatype ProjectionError = MissingColumn(name: string) | DuplicateColumn(name: string)

  /** `row.get(day)`: the row's cell for weekday `d`. Every row `Project`
      builds has all five; `Empty` past the end only covers other rows. */
  function DayCell(row: Row, d: nat): Cell {
    if d < |row.days| then row.days[d] else Empty
  }

  /** Column `c` of the header row carries the label. */
  predicate Labelled(header: seq<Cell>, lbl: string, c: nat) {
    c < |header| && header[c] == Text(lbl)
  }

  /** Column `c` is the one and only column carrying the label. */
  predicate UniqueColumn(header: seq<Cell>, lbl: string, c: nat) {
    Labelled(header, lbl, c) &&
    forall c' :: 0 <= c' < |header| && Labelled(header, lbl, c') ==> c' == c
  }

  /** The columns of the header row that carry the label, left to right. */
  function Positions(header: seq<Cell>, lbl: string): (ps: seq<nat>)
    ensures forall k :: 0 <= k < |ps| ==> Labelled(header, lbl, ps[k])
    ensures forall c :: 0 <= c < |header| && Labelled(header, lbl, c) ==> c in ps
    ensures forall a, b :: 0 <= a < b < |ps| ==> ps[a] < ps[b]
    decreases |header|
  {
    if header == [] then []
    else
      var init := header[..|header| - 1];
      var last := |header| - 1;
      assert forall c :: 0 <= c < last ==> (Labelled(init, lbl, c) <==> Labelled(header, lbl, c));
      Positions(init, lbl) + (if header[last] == Text(lbl) then [last] else [])
  }

  /** In a strictly increasing sequence the last element exceeds the first
      as soon as there are two. */
  lemma IncreasingEnds(ps: seq<nat>)
    requires forall a, b :: 0 <= a < b < |ps| ==> ps[a] < ps[b]
    ensures |ps| >= 2 ==> ps[0] < ps[|ps| - 1]
  {
  }

  /** Some column is the only one carrying the label. */
  ghost predicate HasUniqueColumn(header: seq<Cell>, lbl: string) {
    exists c :: 0 <= c < |header| && UniqueColumn(header, lbl, c)
  }

  /** Exactly one column carries the label when `Positions` finds one. */
  lemma UniqueIffOnePosition(header: seq<Cell>, lbl: string)
    ensures |Positions(header, lbl)| == 1 <==> HasUniqueColumn(header, lbl)
  {
    var ps := Positions(header, lbl);
    if |ps| == 1 {
      assert UniqueColumn(header, lbl, ps[0]);
    }
    if exists c :: UniqueColumn(header, lbl, c) {
      var c :| UniqueColumn(header, lbl, c);
      assert ps[0] == c && ps[|ps| - 1] == c;
      IncreasingEnds(ps);
    }
  }

  /** The first of `labels` that no column carries. */
  function FirstMissing(header: seq<Cell>, labels: seq<string>): (r: Option<string>)
    ensures r.Some? ==> r.value in labels && Positions(header, r.value) == []
    ensures r.None? <==> forall k :: 0 <= k < |labels| ==> Positions(header, labels[k]) != []
  {
    if labels == [] then None
    else if Positions(header, labels[0]) == [] then Some(labels[0])
    else FirstMissing(header, labels[1..])
  }

  /** The first of `labels` that more than one column carries. */
  function FirstDuplicate(header: seq<Cell>, labels: seq<string>): (r: Option<string>)
    ensures r.Some? ==> r.value in labels && |Positions(header, r.value)| > 1
    ensures r.None? <==> forall k :: 0 <= k < |labels| ==> |Positions(header, labels[k])| <= 1
  {
    if labels == [] then None
    else if |Positions(header, labels[0])| > 1 then Some(labels[0])
    else FirstDuplicate(header, labels[1..])
  }

  /** Exactly one column of the header row carries the label. */
  predicate ExactlyOnce(header: seq<Cell>, lbl: string) {
    |Positions(header, lbl)| == 1
  }

  /** The column of each label, in `labels` order; an error when a label is
      missing (reported first) or names several columns. */
  function ResolveColumns(header: seq<Cell>, labels: seq<string>): (r: Result<seq<nat>, ProjectionError>)
    ensures r.Ok? <==> forall k :: 0 <= k < |labels| ==> ExactlyOnce(header, labels[k])
    ensures r.Ok? ==>
      && |r.value| == |labels|
      && forall k :: 0 <= k < |labels| ==> UniqueColumn(header, labels[k], r.value[k])
    ensures r.Err? && r.error.MissingColumn? ==>
      r.error.name in labels && forall c :: !Labelled(header, r.error.name, c)
    ensures r.Err? && r.error.DuplicateColumn? ==>
      && r.error.name in labels
      && |Positions(header, r.error.name)| > 1
      && forall k :: 0 <= k < |labels| ==> Positions(header, labels[k]) != []
  {
    match FirstMissing(header, labels)
    case Some(lbl) =>
      Err(MissingColumn(lbl))
    case None =>
      match FirstDuplicate(header, labels)
      case Some(lbl) =>
        Err(DuplicateColumn(lbl))
      case None =>
        var cols := seq(|labels|, k requires 0 <= k < |labels| => Positions(header, labels[k])[0]);
        assert forall k :: 0 <= k < |labels| ==> UniqueColumn(header, labels[k], cols[k]) by {
          forall k | 0 <= k < |labels| ensures UniqueColumn(header, labels[k], cols[k]) {
            UniqueIffOnePosition(header, labels[k]);
          }
        }
        Ok(cols)
  }

  /** Projection succeeds exactly when each label names one and only one
      column of the header row. */
  lemma ResolveOkIffUnique(header: seq<Cell>, labels: seq<string>)
    ensures ResolveColumns(header, labels).Ok? <==>
      forall k :: 0 <= k < |labels| ==> HasUniqueColumn(header, labels[k])
  {
    forall k | 0 <= k < |labels|
      ensures ExactlyOnce(header, labels[k]) <==> HasUniqueColumn(header, labels[k])
    {
      UniqueIffOnePosition(header, labels[k]);
    }
  }

  /** The number of selected columns: period, time and the five weekdays. */
  const ColumnCount: nat := 7

  /** Field `l` of a projected row, in `SourceLabels` order. */
  function ProjectedCell(row: Row, l: nat): Cell {
    if l == 0 then row.period
    else if l == 1 then row.time
    else DayCell(row, l - 2)
  }

  /** One data row restricted to the selected columns: field `l` is the
      row's cell in column `cols[l]`, or `Empty` past the row's end. Which
      column carries which label is stated by `Project`. */
  function ProjectRow(cells: seq<Cell>, cols: seq<nat>): (r: Row)
    requires |cols| == ColumnCount
    ensures |r.days| == DayCount
    ensures forall l :: 0 <= l < ColumnCount ==> ProjectedCell(r, l) == CellAt(cells, cols[l])
  {
    Row(CellAt(cells, cols[0]), CellAt(cells, cols[1]),
        [CellAt(cells, cols[2]), CellAt(cells, cols[3]), CellAt(cells, cols[4]),
         CellAt(cells, cols[5]), CellAt(cells, cols[6])])
  }

  /** The rows below header row `h`, projected onto the seven labelled
      columns, or the error that makes pandas reject the selection. */
  function Project(grid: seq<seq<Cell>>, h: nat): (r: Result<seq<Row>, ProjectionError>)
    requires h < |grid|
    ensures r.Ok? <==> ResolveColumns(grid[h], SourceLabels).Ok?
    ensures r.Ok? ==> |r.value| == |grid| - h - 1
    ensures r.Ok? ==> forall k :: 0 <= k < |r.value| ==> |r.value[k].days| == DayCount
    ensures r.Ok? ==> forall k, l, c :: 0 <= k < |r.value| && 0 <= l < |SourceLabels| && UniqueColumn(grid[h], SourceLabels[l], c) ==>
      ProjectedCell(r.value[k], l) == CellAt(grid[h + 1 + k], c)
  {
    match ResolveColumns(grid[h], SourceLabels)
    case Err(e) => Err(e)
    case Ok(cols) =>
      var body := grid[h + 1..];
      var rows := seq(|body|, k requires 0 <= k < |body| => ProjectRow(body[k], cols));
      assert forall l, c :: 0 <= l < |SourceLabels| && UniqueColumn(grid[h], SourceLabels[l], c) ==> c == cols[l];
      Ok(rows)
  }
}
