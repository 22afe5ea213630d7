/** Locating the header row of a sheet: the first row whose first cell, read
    as text, contains the Chinese period token `課節` or the English `Period`
    (timetable_extractor.py lines 28-31). */
module HeaderLocator {
  import opened Cells

  const ChinesePeriodMarker: string := "課節"
  const EnglishPeriodMarker: string := "Period"

  /** The test `astype(str).str.contains('課節|Period', na=False)` on one cell.
      An empty cell never matches. */
  predicate IsHeaderCell(c: Cell) {
    c.Text? && (Contains(c.s, ChinesePeriodMarker) || Contains(c.s, EnglishPeriodMarker))
  }

  /** The row's first cell marks it as the header row. */
  predicate IsHeaderRow(row: seq<Cell>) {
    IsHeaderCell(CellAt(row, 0))
  }

  /** The first header row at or after index `i`. */
  function FindHeaderFrom(grid: seq<seq<Cell>>, i: nat): (r: Option<nat>)
    requires i <= |grid|
    ensures r.Some? ==> i <= r.value < |grid| && IsHeaderRow(grid[r.value])
    ensures r.Some? ==> forall k :: i <= k < r.value ==> !IsHeaderRow(grid[k])
    ensures r.None? <==> forall k :: i <= k < |grid| ==> !IsHeaderRow(grid[k])
    decreases |grid| - i
  {
    if i == |grid| then None
    else if IsHeaderRow(grid[i]) then Some(i)
    else FindHeaderFrom(grid, i + 1)
  }

  /** The index of the first header row of the grid, or `None` when no row
      qualifies (the sheet is then skipped). */
  function FindHeader(grid: seq<seq<Cell>>): (r: Option<nat>)
    ensures r.Some? ==> r.value < |grid| && IsHeaderRow(grid[r.value])
    ensures r.Some? ==> forall k :: 0 <= k < r.value ==> !IsHeaderRow(grid[k])
    ensures r.None? <==> forall k :: 0 <= k < |grid| ==> !IsHeaderRow(grid[k])
  {
    FindHeaderFrom(grid, 0)
  }

  /** The header row is characterised by its two properties: a marked row
      with no marked row before it is the one found. */
  lemma FirstMarkedIsFound(grid: seq<seq<Cell>>, h: nat)
    requires h < |grid| && IsHeaderRow(grid[h])
    requires forall k :: 0 <= k < h ==> !IsHeaderRow(grid[k])
    ensures FindHeader(grid) == Some(h)
  {
  }

  /** The header row is determined by the first marked row alone: rows after
      it, whatever they hold, do not change the result. */
  lemma HeaderIgnoresLaterRows(grid: seq<seq<Cell>>, rest: seq<seq<Cell>>)
    requires FindHeader(grid).Some?
    ensures FindHeader(grid + rest) == FindHeader(grid)
  {
    var h := FindHeader(grid).value;
    var g := grid + rest;
    assert forall k :: 0 <= k <= h ==> g[k] == grid[k];
    FirstMarkedIsFound(g, h);
  }

  /** Prefixing rows none of which is marked shifts the header index by their
      number, and keeps a headerless grid headerless. */
  lemma HeaderAfterUnmarkedRows(pre: seq<seq<Cell>>, grid: seq<seq<Cell>>)
    requires forall k :: 0 <= k < |pre| ==> !IsHeaderRow(pre[k])
    ensures FindHeader(pre + grid) ==
      match FindHeader(grid)
      case None => None
      case Some(h) => Some(|pre| + h)
  {
    var g := pre + grid;
    assert forall k :: 0 <= k < |pre| ==> g[k] == pre[k];
    assert forall k :: 0 <= k < |grid| ==> g[|pre| + k] == grid[k];
    match FindHeader(grid)
    case None =>
      forall k | 0 <= k < |g| ensures !IsHeaderRow(g[k]) {
        if k >= |pre| { assert g[k] == grid[k - |pre|]; }
      }
    case Some(h) =>
      forall k | 0 <= k < |pre| + h ensures !IsHeaderRow(g[k]) {
        if k >= |pre| { assert g[k] == grid[k - |pre|]; }
      }
      FirstMarkedIsFound(g, |pre| + h);
  }
}
