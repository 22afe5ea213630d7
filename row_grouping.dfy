/** The row aggregator loop (timetable_extractor.py lines 66-81). It walks the
    projected rows; for each main row at index `i` it probes, for `j` in
    `[1, 2]`, the row at `i + j`, and when that row's `Time` equals the main
    row's it is folded in and `i` is incremented on the spot, so the second
    probe looks at `i0 + 2` when the first did not match and at `i0 + 3` when
    it did. After the probes `i` is incremented once more. The folded rows and
    the main row are combined by `combine_rows`. */
module RowGrouping {
  import opened Cells
  import opened ColumnProjection
  import opened RowFold

  /** pandas' `==` on two `Time` values: NaN equals nothing, not even NaN. */
  predicate SameTime(a: Cell, b: Cell) {
    a.Text? && b.Text? && a.s == b.s
  }

  /** The indices folded into the main row `i0` by the first `j` probes,
      as written: probe `p` looks at `i0 + (number folded so far) + p`. */
  function Probes(rows: seq<Row>, i0: nat, j: nat): (f: seq<nat>)
    requires i0 < |rows|
    ensures |f| <= j
    ensures i0 + |f| < |rows|
    ensures forall k :: 0 <= k < |f| ==> i0 < f[k] < |rows|
    decreases j
  {
    if j == 0 then []
    else
      var prev := Probes(rows, i0, j - 1);
      var at := i0 + |prev| + j;
      if at < |rows| && SameTime(rows[at].time, rows[i0].time) then prev + [at] else prev
  }

  /** One more probe: the row at `i0 + (number folded so far) + j` is folded
      when its `Time` equals the main row's. */
  lemma ProbesStep(rows: seq<Row>, i0: nat, j: nat)
    requires i0 < |rows| && j >= 1
    ensures var prev := Probes(rows, i0, j - 1);
      var at := i0 + |prev| + j;
      Probes(rows, i0, j) == if at < |rows| && SameTime(rows[at].time, rows[i0].time) then prev + [at] else prev
  {
  }

  /** Every probed row that was folded has the main row's `Time`, and the
      folded indices increase. */
  lemma {:induction false} ProbesFold(rows: seq<Row>, i0: nat, j: nat)
    requires i0 < |rows|
    ensures var f := Probes(rows, i0, j);
      && (forall k :: 0 <= k < |f| ==> SameTime(rows[f[k]].time, rows[i0].time))
      && (forall k :: 0 <= k < |f| ==> f[k] < i0 + |f| + j)
      && (forall a, b :: 0 <= a < b < |f| ==> f[a] < f[b])
    decreases j
  {
    if j > 0 {
      ProbesFold(rows, i0, j - 1);
      var prev := Probes(rows, i0, j - 1);
      var at := i0 + |prev| + j;
      ProbesStep(rows, i0, j);
      if at < |rows| && SameTime(rows[at].time, rows[i0].time) {
        var f := prev + [at];
        assert forall k :: 0 <= k < |prev| ==> f[k] == prev[k];
      }
    }
  }

  /** The rows folded into main row `i0` by the two probes of
      `for j in [1, 2]`, spelled out: the first looks at `i0 + 1`; the second
      at `i0 + 3` when the first matched and at `i0 + 2` when it did not. At
      most two rows are folded, each later than the main row, and the loop's
      next main row is still inside the table. */
  function Lookahead(rows: seq<Row>, i0: nat): (f: seq<nat>)
    requires i0 < |rows|
    ensures |f| <= 2 && i0 + |f| < |rows|
    ensures forall k :: 0 <= k < |f| ==> i0 < f[k] < |rows|
  {
    var first := i0 + 1 < |rows| && SameTime(rows[i0 + 1].time, rows[i0].time);
    var second := if first then i0 + 3 else i0 + 2;
    var hit := second < |rows| && SameTime(rows[second].time, rows[i0].time);
    (if first then [i0 + 1] else []) + (if hit then [second] else [])
  }

  /** The probe rule run twice is the spelled-out lookahead. */
  lemma ProbesUnrolled(rows: seq<Row>, i0: nat)
    requires i0 < |rows|
    ensures Probes(rows, i0, 2) == Lookahead(rows, i0)
  {
    assert Probes(rows, i0, 0) == [];
  }

  /** Every folded row has the main row's `Time`, and the folded rows come
      in increasing order. */
  lemma LookaheadMatches(rows: seq<Row>, i0: nat)
    requires i0 < |rows|
    ensures var f := Lookahead(rows, i0);
      && (forall k :: 0 <= k < |f| ==> SameTime(rows[f[k]].time, rows[i0].time))
      && (forall a, b :: 0 <= a < b < |f| ==> f[a] < f[b])
  {
    ProbesFold(rows, i0, 2);
    ProbesUnrolled(rows, i0);
  }

  /** The rows at the given indices, in that order. */
  function Pick(rows: seq<Row>, idx: seq<nat>): (ps: seq<Row>)
    requires forall k :: 0 <= k < |idx| ==> idx[k] < |rows|
    ensures |ps| == |idx| && forall k :: 0 <= k < |idx| ==> ps[k] == rows[idx[k]]
  {
    seq(|idx|, k requires 0 <= k < |idx| => rows[idx[k]])
  }

  /** Picking one more index appends that row. */
  lemma PickSnoc(rows: seq<Row>, idx: seq<nat>, at: nat)
    requires forall k :: 0 <= k < |idx| ==> idx[k] < |rows|
    requires at < |rows|
    ensures Pick(rows, idx + [at]) == Pick(rows, idx) + [rows[at]]
  {
  }

  /** The records the loop emits from main row `i` on. */
  function NormalizeFrom(rows: seq<Row>, i: nat): seq<Record>
    requires i <= |rows|
    decreases |rows| - i
  {
    if i == |rows| then []
    else
      var f := Lookahead(rows, i);
      [Combine(rows[i], Pick(rows, f))] + NormalizeFrom(rows, i + 1 + |f|)
  }

  /** The records the loop emits for the whole table (`processed_rows`). */
  function Normalize(rows: seq<Row>): seq<Record> {
    NormalizeFrom(rows, 0)
  }

  /** One step of the loop: the record of main row `i`, then the records
      from where the loop continues. */
  lemma NormalizeFromStep(rows: seq<Row>, i: nat)
    requires i < |rows|
    ensures var next := i + 1 + |Lookahead(rows, i)|;
      && next <= |rows|
      && NormalizeFrom(rows, i) == [Combine(rows[i], Pick(rows, Lookahead(rows, i)))] + NormalizeFrom(rows, next)
  {
  }

  /** The probe loop `for j in [1, 2]` for main row `i0`: each probe that
      matches appends the row to `additional` and advances the index on the
      spot. Returns the folded rows and the index the loop has reached. */
  method ProbeRows(rows: seq<Row>, i0: nat) returns (additional: seq<Row>, i: nat)
    requires i0 < |rows|
    ensures additional == Pick(rows, Lookahead(rows, i0))
    ensures i == i0 + |Lookahead(rows, i0)|
  {
    var main := rows[i0];
    i := i0;
    additional := [];
    for j := 1 to 3
      invariant i == i0 + |Probes(rows, i0, j - 1)|
      invariant additional == Pick(rows, Probes(rows, i0, j - 1))
    {
      ProbesStep(rows, i0, j);
      if i + j < |rows| && SameTime(rows[i + j].time, main.time) {
        PickSnoc(rows, Probes(rows, i0, j - 1), i + j);
        additional := additional + [rows[i + j]];
        i := i + 1;
      }
    }
    ProbesUnrolled(rows, i0);
  }

  /** The grouping loop as the source writes it: the index is advanced inside
      the probe loop and once after it. */
  method Aggregate(rows: seq<Row>) returns (processed: seq<Record>)
    ensures processed == Normalize(rows)
  {
    processed := [];
    var i := 0;
    while i < |rows|
      invariant i <= |rows|
      invariant processed + NormalizeFrom(rows, i) == Normalize(rows)
      decreases |rows| - i
    {
      var main := rows[i];
      var additional, reached := ProbeRows(rows, i);
      var combined := CombineRows(main, additional);
      assert NormalizeFrom(rows, i) == [combined] + NormalizeFrom(rows, reached + 1);
      processed := processed + [combined];
      i := reached + 1;
    }
  }

  // ---------------------------------------------------------------------------
  // The probes
  // ---------------------------------------------------------------------------

  /** A main row whose `Time` is NaN folds nothing in, and a row whose `Time`
      is NaN is never folded into another. */
  lemma EmptyTimeNeverGroups(rows: seq<Row>, i0: nat)
    requires i0 < |rows|
    ensures rows[i0].time.Empty? ==> Lookahead(rows, i0) == []
    ensures forall k :: 0 <= k < |Lookahead(rows, i0)| ==> rows[Lookahead(rows, i0)[k]].time.Text?
  {
    var f := Lookahead(rows, i0);
    LookaheadMatches(rows, i0);
    assert |f| == 0 || SameTime(rows[f[0]].time, rows[i0].time);
  }

  // ---------------------------------------------------------------------------
  // Groups: the main row and the rows folded into it
  // ---------------------------------------------------------------------------

  /** A group as the loop forms it: a main row and at most two later rows
      whose `Time` equals the main row's, in increasing order. */
  predicate WellGrouped(rows: seq<Row>, grp: seq<nat>) {
    && 1 <= |grp| <= 3
    && grp[0] < |rows|
    && (forall t :: 1 <= t < |grp| ==> grp[0] < grp[t] < |rows| && SameTime(rows[grp[t]].time, rows[grp[0]].time))
    && (forall a, b :: 1 <= a < b < |grp| ==> grp[a] < grp[b])
  }

  /** The main row with the rows its probes fold in forms a group. */
  lemma LookaheadGroup(rows: seq<Row>, i: nat)
    requires i < |rows|
    ensures WellGrouped(rows, [i] + Lookahead(rows, i))
  {
    var f := Lookahead(rows, i);
    LookaheadMatches(rows, i);
    var grp := [i] + f;
    assert forall t :: 1 <= t < |grp| ==> grp[t] == f[t - 1];
  }

  /** The index groups the loop forms from main row `i` on: each is the main
      row's index followed by the indices folded into it. */
  function GroupsFrom(rows: seq<Row>, i: nat): (g: seq<seq<nat>>)
    requires i <= |rows|
    ensures forall k :: 0 <= k < |g| ==> 1 <= |g[k]| && InRows(rows, g[k])
    decreases |rows| - i
  {
    if i == |rows| then []
    else
      var f := Lookahead(rows, i);
      [[i] + f] + GroupsFrom(rows, i + 1 + |f|)
  }

  /** Every index of the group names a row of the table. */
  predicate InRows(rows: seq<Row>, grp: seq<nat>) {
    forall t :: 0 <= t < |grp| ==> grp[t] < |rows|
  }

  /** Every group the loop forms from main row `i` on is well grouped and
      starts at or after `i`. */
  lemma {:induction false} GroupsWellGrouped(rows: seq<Row>, i: nat)
    requires i <= |rows|
    ensures forall k :: 0 <= k < |GroupsFrom(rows, i)| ==>
      WellGrouped(rows, GroupsFrom(rows, i)[k]) && i <= GroupsFrom(rows, i)[k][0]
    decreases |rows| - i
  {
    if i < |rows| {
      var f := Lookahead(rows, i);
      var next := i + 1 + |f|;
      GroupsWellGrouped(rows, next);
      LookaheadGroup(rows, i);
      var g := GroupsFrom(rows, i);
      assert g == [[i] + f] + GroupsFrom(rows, next);
      forall k | 0 <= k < |g| ensures WellGrouped(rows, g[k]) && i <= g[k][0] {
        if k > 0 {
          assert g[k] == GroupsFrom(rows, next)[k - 1];
        }
      }
    }
  }

  /** One step of the grouping: the group of main row `i`, then the groups
      from where the loop continues. */
  lemma GroupsFromStep(rows: seq<Row>, i: nat)
    requires i < |rows|
    ensures var next := i + 1 + |Lookahead(rows, i)|;
      && next <= |rows|
      && GroupsFrom(rows, i) == [[i] + Lookahead(rows, i)] + GroupsFrom(rows, next)
  {
  }

  /** The groups of the whole table. */
  function Groups(rows: seq<Row>): seq<seq<nat>> {
    GroupsFrom(rows, 0)
  }

  /** Each record is the fold of its group: the group's first row is the main
      row and the others are folded in, in order. */
  lemma {:induction false} NormalizeByGroupsFrom(rows: seq<Row>, i: nat)
    requires i <= |rows|
    ensures |NormalizeFrom(rows, i)| == |GroupsFrom(rows, i)|
    ensures forall k :: 0 <= k < |GroupsFrom(rows, i)| ==>
      NormalizeFrom(rows, i)[k] == Combine(rows[GroupsFrom(rows, i)[k][0]], Pick(rows, GroupsFrom(rows, i)[k][1..]))
    decreases |rows| - i
  {
    if i < |rows| {
      var f := Lookahead(rows, i);
      var next := i + 1 + |f|;
      NormalizeByGroupsFrom(rows, next);
      NormalizeFromStep(rows, i);
      assert ([i] + f)[1..] == f;
      var g := GroupsFrom(rows, i);
      var n := NormalizeFrom(rows, i);
      assert g == [[i] + f] + GroupsFrom(rows, next);
      forall k | 0 <= k < |g|
        ensures n[k] == Combine(rows[g[k][0]], Pick(rows, g[k][1..]))
      {
        if k > 0 {
          assert g[k] == GroupsFrom(rows, next)[k - 1];
          assert n[k] == NormalizeFrom(rows, next)[k - 1];
        }
      }
    }
  }

  /** The table-level form of `NormalizeByGroupsFrom`. */
  lemma NormalizeByGroups(rows: seq<Row>)
    ensures |Normalize(rows)| == |Groups(rows)|
    ensures forall k :: 0 <= k < |Groups(rows)| ==>
      Normalize(rows)[k] == Combine(rows[Groups(rows)[k][0]], Pick(rows, Groups(rows)[k][1..]))
  {
    NormalizeByGroupsFrom(rows, 0);
  }

  /** Passthrough: every record's `Period` and `Time` are exactly its main
      row's; folded rows never override them. */
  lemma Passthrough(rows: seq<Row>, k: nat)
    requires k < |Normalize(rows)|
    ensures |Groups(rows)| == |Normalize(rows)|
    ensures var m := Groups(rows)[k][0];
      m < |rows| && Normalize(rows)[k].period == rows[m].period && Normalize(rows)[k].time == rows[m].time
  {
    NormalizeByGroups(rows);
  }

  // ---------------------------------------------------------------------------
  // Termination and the number of records
  // ---------------------------------------------------------------------------

  /** From main row `i` on, the loop emits between a third of the remaining
      rows (rounded up) and all of them. */
  lemma {:induction false} RecordCountFrom(rows: seq<Row>, i: nat)
    requires i <= |rows|
    ensures |NormalizeFrom(rows, i)| <= |rows| - i <= 3 * |NormalizeFrom(rows, i)|
    decreases |rows| - i
  {
    if i < |rows| {
      RecordCountFrom(rows, i + 1 + |Lookahead(rows, i)|);
    }
  }

  /** With `n` rows the number of records lies between `⌈n/3⌉` and `n`. */
  lemma RecordCount(rows: seq<Row>)
    ensures |Normalize(rows)| <= |rows|
    ensures (|rows| + 2) / 3 <= |Normalize(rows)|
    ensures |rows| > 0 ==> |Normalize(rows)| > 0
  {
    RecordCountFrom(rows, 0);
  }

  // ---------------------------------------------------------------------------
  // Tables with nothing to fold
  // ---------------------------------------------------------------------------

  /** The `Time` of row `i` differs from that of the rows one and two places
      below it. */
  predicate NoMatchAt(rows: seq<Row>, i: nat)
    requires i < |rows|
  {
    (i + 1 < |rows| ==> !SameTime(rows[i + 1].time, rows[i].time)) &&
    (i + 2 < |rows| ==> !SameTime(rows[i + 2].time, rows[i].time))
  }

  /** No row's `Time` equals that of the row one or two places below it. */
  predicate NoNearMatches(rows: seq<Row>) {
    forall i :: 0 <= i < |rows| ==> NoMatchAt(rows, i)
  }

  /** A row whose `Time` differs from the next two rows' folds nothing in. */
  lemma NoMatchNoFold(rows: seq<Row>, i: nat)
    requires i < |rows| && NoMatchAt(rows, i)
    ensures Lookahead(rows, i) == []
  {
  }

  /** Without near matches nothing is folded: every group is a single row,
      in order. */
  lemma {:induction false} NoMatchesGroupsFrom(rows: seq<Row>, i: nat)
    requires i <= |rows| && NoNearMatches(rows)
    ensures |GroupsFrom(rows, i)| == |rows| - i
    ensures forall k :: 0 <= k < |rows| - i ==> GroupsFrom(rows, i)[k] == [i + k]
    decreases |rows| - i
  {
    if i < |rows| {
      assert NoMatchAt(rows, i);
      NoMatchNoFold(rows, i);
      NoMatchesGroupsFrom(rows, i + 1);
      GroupsFromStep(rows, i);
      assert [i] + [] == [i];
      var g := GroupsFrom(rows, i);
      forall k | 0 <= k < |rows| - i ensures g[k] == [i + k] {
        if k > 0 {
          assert g[k] == GroupsFrom(rows, i + 1)[k - 1];
        }
      }
    }
  }

  /** Without near matches each record is its row folded with nothing. */
  lemma NoMatchesRecords(rows: seq<Row>)
    requires NoNearMatches(rows)
    ensures |Normalize(rows)| == |rows|
    ensures forall k :: 0 <= k < |rows| ==> Normalize(rows)[k] == Combine(rows[k], [])
  {
    NoMatchesGroupsFrom(rows, 0);
    NormalizeByGroups(rows);
    var g := Groups(rows);
    forall k | 0 <= k < |rows|
      ensures Normalize(rows)[k] == Combine(rows[k], [])
    {
      assert g[k] == [k];
      assert g[k][1..] == [];
      assert Pick(rows, []) == [];
    }
  }

  /** Without near matches the output has one record per input row, and each
      day holds that row's stripped text or `''`. */
  lemma NoMatchesOneRecordPerRow(rows: seq<Row>)
    requires NoNearMatches(rows)
    ensures |Normalize(rows)| == |rows|
    ensures forall k :: 0 <= k < |rows| ==>
      && k < |Normalize(rows)|
      && Normalize(rows)[k].period == rows[k].period
      && Normalize(rows)[k].time == rows[k].time
      && |Normalize(rows)[k].days| == DayCount
    ensures forall k, d :: 0 <= k < |rows| && 0 <= d < DayCount ==>
      && k < |Normalize(rows)| && d < |Normalize(rows)[k].days|
      && Normalize(rows)[k].days[d] == CellText(DayCell(rows[k], d))
  {
    NoMatchesRecords(rows);
    var out := Normalize(rows);
    forall k, d | 0 <= k < |rows| && 0 <= d < DayCount
      ensures out[k].days[d] == CellText(DayCell(rows[k], d))
    {
      assert out[k] == Combine(rows[k], []);
      SingleRowFold(rows[k], d);
    }
  }

  /** A record read back as a row: its day texts become text cells. */
  function AsRow(r: Record): Row {
    Row(r.period, r.time, seq(|r.days|, d requires 0 <= d < |r.days| => Text(r.days[d])))
  }

  /** The records read back as a table of rows. */
  function AsRows(out: seq<Record>): (rs: seq<Row>)
    ensures |rs| == |out| && forall k :: 0 <= k < |out| ==> rs[k] == AsRow(out[k])
  {
    seq(|out|, k requires 0 <= k < |out| => AsRow(out[k]))
  }

  /** Idempotence on already-normalised tables: without near matches,
      normalising the output again gives the output back. */
  lemma NormalizeIdempotent(rows: seq<Row>)
    requires NoNearMatches(rows)
    ensures Normalize(AsRows(Normalize(rows))) == Normalize(rows)
  {
    var out := Normalize(rows);
    NoMatchesOneRecordPerRow(rows);
    var again := AsRows(out);
    assert forall k :: 0 <= k < |again| ==> again[k].time == rows[k].time;
    assert forall k :: 0 <= k < |again| ==> NoMatchAt(again, k) by {
      forall k | 0 <= k < |again| ensures NoMatchAt(again, k) {
        assert NoMatchAt(rows, k);
      }
    }
    NoMatchesOneRecordPerRow(again);
    var out2 := Normalize(again);
    forall k | 0 <= k < |out|
      ensures out2[k] == out[k]
    {
      forall d | 0 <= d < DayCount
        ensures out2[k].days[d] == out[k].days[d]
      {
        var c := DayCell(rows[k], d);
        assert DayCell(again[k], d) == Text(out[k].days[d]);
        if c.Text? {
          StripIdempotent(c.s);
        }
      }
      assert out2[k].days == out[k].days;
    }
  }
}
