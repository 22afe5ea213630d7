/** `combine_rows` (timetable_extractor.py lines 46-64): folding a main row and
    the lookahead rows grouped with it into one record. For each weekday the
    stripped, non-empty texts of the lookahead rows, in order, followed by the
    main row's, are joined with `'-'`; the period and time come from the main
    row alone. */
module RowFold {
  import opened Cells
  import opened ColumnProjection

  /** A folded record: the main row's period and time cells and one text per
      weekday, Monday first. */
  datatype Record = Record(period: Cell, time: Cell, days: seq<string>)

  /** The cell contributes text to a fold: it is not NaN and not blank after
      stripping (`pd.notna(v) and str(v).strip()`). */
  predicate Contributes(c: Cell) {
    c.Text? && Strip(c.s) != ""
  }

  /** The texts a column of cells contributes, stripped, in order. */
  function Kept(cells: seq<Cell>): (vs: seq<string>)
    ensures |vs| <= |cells|
    decreases |cells|
  {
    if cells == [] then []
    else
      var c := cells[|cells| - 1];
      var init := Kept(cells[..|cells| - 1]);
      if Contributes(c) then init + [Strip(c.s)] else init
  }

  /** Every kept text is non-empty and carries no surrounding whitespace. */
  lemma {:induction false} KeptTrimmed(cells: seq<Cell>)
    ensures AllTrimmedNonEmpty(Kept(cells))
    decreases |cells|
  {
    if cells != [] {
      var c := cells[|cells| - 1];
      KeptTrimmed(cells[..|cells| - 1]);
      if Contributes(c) {
        StripStripped(c.s);
      }
    }
  }

  /** Weekday `d`'s cell in each row, in row order. */
  function DayColumn(rows: seq<Row>, d: nat): (cs: seq<Cell>)
    ensures |cs| == |rows| && forall k :: 0 <= k < |rows| ==> cs[k] == DayCell(rows[k], d)
  {
    seq(|rows|, k requires 0 <= k < |rows| => DayCell(rows[k], d))
  }

  /** The folded text for weekday `d`: the lookahead rows first, then the
      main row. */
  function DayValue(main: Row, above: seq<Row>, d: nat): string {
    Join(Kept(DayColumn(above, d) + [DayCell(main, d)]))
  }

  /** The record `combine_rows(main, above)` returns. */
  function Combine(main: Row, above: seq<Row>): (r: Record)
    ensures r.period == main.period && r.time == main.time
    ensures |r.days| == DayCount
  {
    Record(main.period, main.time, seq(DayCount, d requires 0 <= d < DayCount => DayValue(main, above, d)))
  }

  /** `combine_rows` as the source writes it: per weekday, a loop appending the
      contributing lookahead values, then the main row's, then the join. */
  method CombineRows(main: Row, above: seq<Row>) returns (rec: Record)
    ensures rec == Combine(main, above)
  {
    var result: seq<string> := [];
    for d := 0 to DayCount
      invariant |result| == d
      invariant forall e :: 0 <= e < d ==> result[e] == DayValue(main, above, e)
    {
      var values: seq<string> := [];
      for r := 0 to |above|
        invariant values == Kept(DayColumn(above[..r], d))
      {
        var v := DayCell(above[r], d);
        DayColumnSnoc(above, r, d);
        KeptSnoc(DayColumn(above[..r], d), v);
        if v.Text? && Strip(v.s) != "" {
          values := values + [Strip(v.s)];
        }
      }
      assert above[..|above|] == above;
      var m := DayCell(main, d);
      DayValueFinish(main, above, d);
      if m.Text? && Strip(m.s) != "" {
        values := values + [Strip(m.s)];
      }
      var joined := if values != [] then Join(values) else "";
      result := result + [joined];
    }
    rec := Record(main.period, main.time, result);
  }

  /** A day's value is the join of the lookahead rows' contributions followed
      by the main row's, when it contributes. */
  lemma DayValueFinish(main: Row, above: seq<Row>, d: nat)
    ensures var m := DayCell(main, d);
      DayValue(main, above, d) == Join(Kept(DayColumn(above, d)) + if Contributes(m) then [Strip(m.s)] else [])
  {
    KeptSnoc(DayColumn(above, d), DayCell(main, d));
  }

  /** Every weekday text of a folded record is stripped, and it is `''`
      exactly when neither the main row nor any absorbed row has text for
      that day. */
  lemma CombineDayTexts(main: Row, above: seq<Row>)
    ensures var r := Combine(main, above);
      forall d :: 0 <= d < DayCount ==>
        && IsStripped(r.days[d])
        && (r.days[d] == "" <==>
              !Contributes(DayCell(main, d)) && forall k :: 0 <= k < |above| ==> !Contributes(DayCell(above[k], d)))
  {
    forall d | 0 <= d < DayCount
      ensures IsStripped(DayValue(main, above, d))
      ensures DayValue(main, above, d) == "" <==>
        !Contributes(DayCell(main, d)) && forall k :: 0 <= k < |above| ==> !Contributes(DayCell(above[k], d))
    {
      DayValueStripped(main, above, d);
      DayValueEmptyIff(main, above, d);
    }
  }

  /** Extending the rows by one extends the day column by that row's cell. */
  lemma DayColumnSnoc(rows: seq<Row>, r: nat, d: nat)
    requires r < |rows|
    ensures DayColumn(rows[..r + 1], d) == DayColumn(rows[..r], d) + [DayCell(rows[r], d)]
  {
  }

  /** One more cell adds its stripped text exactly when it contributes. */
  lemma KeptSnoc(cells: seq<Cell>, c: Cell)
    ensures Kept(cells + [c]) == Kept(cells) + (if Contributes(c) then [Strip(c.s)] else [])
  {
    assert (cells + [c])[..|cells|] == cells;
  }

  // ---------------------------------------------------------------------------
  // Properties of the fold
  // ---------------------------------------------------------------------------

  /** The contributions of two runs of cells are those of each, in order. */
  lemma {:induction false} KeptAppend(a: seq<Cell>, b: seq<Cell>)
    ensures Kept(a + b) == Kept(a) + Kept(b)
    decreases |b|
  {
    if b != [] {
      var init := b[..|b| - 1];
      assert (a + b)[..|a + b| - 1] == a + init;
      assert (a + b)[|a + b| - 1] == b[|b| - 1];
      KeptAppend(a, init);
    } else {
      assert a + b == a;
    }
  }

  /** A column contributes nothing exactly when none of its cells does. */
  lemma {:induction false} KeptEmptyIff(cells: seq<Cell>)
    ensures Kept(cells) == [] <==> forall k :: 0 <= k < |cells| ==> !Contributes(cells[k])
    decreases |cells|
  {
    if cells != [] {
      var init := cells[..|cells| - 1];
      var last := cells[|cells| - 1];
      KeptEmptyIff(init);
      assert Kept(cells) == [] <==> Kept(init) == [] && !Contributes(last);
      assert (forall k :: 0 <= k < |cells| ==> !Contributes(cells[k])) <==>
        (forall k :: 0 <= k < |init| ==> !Contributes(init[k])) && !Contributes(last);
    }
  }

  /** A day's value is empty exactly when no folded row and not the main row
      has text for that day; then it is `''`, never absent. */
  lemma DayValueEmptyIff(main: Row, above: seq<Row>, d: nat)
    ensures DayValue(main, above, d) == "" <==>
      !Contributes(DayCell(main, d)) && forall k :: 0 <= k < |above| ==> !Contributes(DayCell(above[k], d))
  {
    var col := DayColumn(above, d) + [DayCell(main, d)];
    KeptEmptyIff(col);
    KeptTrimmed(col);
    JoinShape(Kept(col));
    assert col[|above|] == DayCell(main, d);
    assert forall k :: 0 <= k < |above| ==> col[k] == DayCell(above[k], d);
  }

  /** A day's value never carries surrounding whitespace. */
  lemma DayValueStripped(main: Row, above: seq<Row>, d: nat)
    ensures IsStripped(DayValue(main, above, d))
  {
    KeptTrimmed(DayColumn(above, d) + [DayCell(main, d)]);
    JoinStripped(Kept(DayColumn(above, d) + [DayCell(main, d)]));
  }

  /** The per-day order: the lookahead rows' texts are joined before the main
      row's. When both contribute, the value is the lookahead part, a `'-'`,
      then the main row's stripped text. */
  lemma LookaheadBeforeMain(main: Row, above: seq<Row>, d: nat)
    requires Contributes(DayCell(main, d))
    requires Kept(DayColumn(above, d)) != []
    ensures DayValue(main, above, d) == Join(Kept(DayColumn(above, d))) + "-" + Strip(DayCell(main, d).s)
  {
    var m := DayCell(main, d);
    KeptAppend(DayColumn(above, d), [m]);
    assert [m][..0] == [];
    assert Kept([m]) == [Strip(m.s)];
    JoinAppend(Kept(DayColumn(above, d)), [Strip(m.s)]);
  }

  /** Folding is associative over row order: folding `a + b` into the main row
      gives `a`'s contributions, a `'-'`, then the fold of `b` into the main
      row, whenever both parts contribute. */
  lemma FoldSplits(main: Row, a: seq<Row>, b: seq<Row>, d: nat)
    requires Kept(DayColumn(a, d)) != []
    requires DayValue(main, b, d) != ""
    ensures DayValue(main, a + b, d) == Join(Kept(DayColumn(a, d))) + "-" + DayValue(main, b, d)
  {
    var m := DayCell(main, d);
    assert DayColumn(a + b, d) + [m] == DayColumn(a, d) + (DayColumn(b, d) + [m]);
    KeptAppend(DayColumn(a, d), DayColumn(b, d) + [m]);
    JoinAppend(Kept(DayColumn(a, d)), Kept(DayColumn(b, d) + [m]));
  }

  /** The text a lone cell stands for once stripped: `''` for NaN. */
  function CellText(c: Cell): string {
    if c.Text? then Strip(c.s) else ""
  }

  /** With nothing folded in, each day is the main row's stripped text, or `''`. */
  lemma SingleRowFold(main: Row, d: nat)
    ensures DayValue(main, [], d) == CellText(DayCell(main, d))
  {
    var m := DayCell(main, d);
    assert DayColumn([], d) + [m] == [m];
    assert [m][..0] == [];
    if m.Text? && !Contributes(m) {
      assert Strip(m.s) == "";
    }
  }
}
