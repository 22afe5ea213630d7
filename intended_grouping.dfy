/** The grouping loop of timetable_extractor.py lines 67-81 against the rule it
    sets out to follow: a main row absorbs the rows directly below it that
    share its `Time`, at most two of them, and the next main row is the first
    row not absorbed. The loop as written advances `i` inside the probe loop,
    so a second probe after a miss looks past the row it skipped and a second
    probe after a hit looks one row too far; rows are then dropped or read
    twice. This module exhibits that on a concrete table and defines the
    consecutive-run grouping, under which every row lands in exactly one
    group, in order. */
module IntendedGrouping {
  import opened Cells
  import opened ColumnProjection
  import opened RowFold
  import opened RowGrouping

  /** The indices `lo, lo + 1, …, hi - 1`. */
  function Range(lo: nat, hi: nat): (r: seq<nat>)
    requires lo <= hi
    ensures |r| == hi - lo && forall k :: 0 <= k < |r| ==> r[k] == lo + k
  {
    seq(hi - lo, k requires 0 <= k < hi - lo => lo + k)
  }

  /** The groups laid end to end. */
  function Flatten(gs: seq<seq<nat>>): seq<nat> {
    if gs == [] then [] else gs[0] + Flatten(gs[1..])
  }

  // ---------------------------------------------------------------------------
  // The loop as written: a concrete table it mishandles
  // ---------------------------------------------------------------------------

  /** A row with the given period and time and no weekday text. */
  function Slot(period: string, time: string): Row {
    Row(Text(period), Text(time), [])
  }

  /** Three periods where the first and the last share a time. */
  function SplitTable(): seq<Row> {
    [Slot("1", "08:00"), Slot("2", "09:00"), Slot("3", "08:00")]
  }

  /** On `SplitTable` the first probe from row 0 misses row 1 and the second
      probe, at `0 + 2`, folds row 2 into row 0 without advancing past row 1;
      the loop then resumes at row 2. Row 1 is in no group and row 2 is in
      two. */
  lemma AsWrittenDropsAndRepeats()
    ensures Groups(SplitTable()) == [[0, 2], [2]]
    ensures Flatten(Groups(SplitTable())) != Range(0, |SplitTable()|)
  {
    var rows := SplitTable();
    assert !SameTime(rows[1].time, rows[0].time);
    assert SameTime(rows[2].time, rows[0].time);
    assert Lookahead(rows, 0) == [2];
    assert Lookahead(rows, 2) == [];
    GroupsFromStep(rows, 0);
    GroupsFromStep(rows, 2);
    assert GroupsFrom(rows, 3) == [];
    assert [0] + [2] == [0, 2] && [2] + [] == [2];
    assert Groups(rows) == [[0, 2], [2]];
    assert Flatten(Groups(rows)) == [0, 2, 2];
    assert Range(0, 3)[1] == 1;
  }

  /** So the record for period `2` is lost and period `3` is written. */
  lemma AsWrittenLosesPeriod()
    ensures |Normalize(SplitTable())| == 2
    ensures Normalize(SplitTable())[0].period == Text("1")
    ensures Normalize(SplitTable())[1].period == Text("3")
  {
    var rows := SplitTable();
    AsWrittenDropsAndRepeats();
    Passthrough(rows, 0);
    Passthrough(rows, 1);
  }

  /** Four rows where a first probe hits: the second probe then looks at
      `0 + 3`, skipping row 2 although it also shares the time, and folds
      row 3, which the loop then reads again as a main row. */
  lemma AsWrittenSkipsConsecutiveRow()
    ensures var rows := [Slot("1", "08:00"), Slot("1", "08:00"), Slot("1", "08:00"), Slot("2", "08:00")];
      && Groups(rows) == [[0, 1, 3], [3]]
  {
    var rows := [Slot("1", "08:00"), Slot("1", "08:00"), Slot("1", "08:00"), Slot("2", "08:00")];
    assert SameTime(rows[1].time, rows[0].time);
    assert SameTime(rows[3].time, rows[0].time);
    assert Lookahead(rows, 0) == [1, 3];
    assert Lookahead(rows, 3) == [];
    GroupsFromStep(rows, 0);
    GroupsFromStep(rows, 3);
    assert GroupsFrom(rows, 4) == [];
    assert [0] + [1, 3] == [0, 1, 3] && [3] + [] == [3];
  }

  // ---------------------------------------------------------------------------
  // The consecutive-run grouping
  // ---------------------------------------------------------------------------

  /** The rows main row `i0` absorbs: `i0 + 1` when it shares the time, and
      then `i0 + 2` when it shares it too. */
  function IntendedLookahead(rows: seq<Row>, i0: nat): (f: seq<nat>)
    requires i0 < |rows|
    ensures |f| <= 2 && i0 + |f| < |rows|
    ensures f == Range(i0 + 1, i0 + 1 + |f|)
  {
    var first := i0 + 1 < |rows| && SameTime(rows[i0 + 1].time, rows[i0].time);
    var second := first && i0 + 2 < |rows| && SameTime(rows[i0 + 2].time, rows[i0].time);
    if second then [i0 + 1, i0 + 2] else if first then [i0 + 1] else []
  }

  /** The absorbed rows share the main row's time, and the run stops only at
      the end of the table, at a row with another time, or after two rows. */
  lemma IntendedLookaheadMaximal(rows: seq<Row>, i0: nat)
    requires i0 < |rows|
    ensures var f := IntendedLookahead(rows, i0);
      && (forall k :: 0 <= k < |f| ==> SameTime(rows[f[k]].time, rows[i0].time))
      && (|f| < 2 && i0 + 1 + |f| < |rows| ==> !SameTime(rows[i0 + 1 + |f|].time, rows[i0].time))
  {
  }

  /** The groups the consecutive-run rule forms from main row `i` on. */
  function IntendedGroupsFrom(rows: seq<Row>, i: nat): seq<seq<nat>>
    requires i <= |rows|
    decreases |rows| - i
  {
    if i == |rows| then []
    else
      var f := IntendedLookahead(rows, i);
      [[i] + f] + IntendedGroupsFrom(rows, i + 1 + |f|)
  }

  /** The records the consecutive-run rule emits from main row `i` on. */
  function IntendedNormalizeFrom(rows: seq<Row>, i: nat): seq<Record>
    requires i <= |rows|
    decreases |rows| - i
  {
    if i == |rows| then []
    else
      var f := IntendedLookahead(rows, i);
      [Combine(rows[i], Pick(rows, f))] + IntendedNormalizeFrom(rows, i + 1 + |f|)
  }

  /** The records of the whole table under the consecutive-run rule. */
  function IntendedNormalize(rows: seq<Row>): seq<Record> {
    IntendedNormalizeFrom(rows, 0)
  }

  /** Cutting a range at a middle point gives two ranges. */
  lemma RangeSplit(lo: nat, mid: nat, hi: nat)
    requires lo <= mid <= hi
    ensures Range(lo, mid) + Range(mid, hi) == Range(lo, hi)
  {
  }

  /** Under the consecutive-run rule the groups from `i` on cover the rows
      `i, i + 1, …` each exactly once, in order. */
  lemma {:induction false} IntendedGroupsPartitionFrom(rows: seq<Row>, i: nat)
    requires i <= |rows|
    ensures Flatten(IntendedGroupsFrom(rows, i)) == Range(i, |rows|)
    decreases |rows| - i
  {
    if i < |rows| {
      var f := IntendedLookahead(rows, i);
      var next := i + 1 + |f|;
      IntendedGroupsPartitionFrom(rows, next);
      var gs := IntendedGroupsFrom(rows, i);
      assert gs == [[i] + f] + IntendedGroupsFrom(rows, next);
      assert gs[1..] == IntendedGroupsFrom(rows, next);
      assert [i] + f == Range(i, next);
      RangeSplit(i, next, |rows|);
    } else {
      assert Range(i, |rows|) == [];
    }
  }

  /** Every row of the table is in exactly one group, and the groups follow
      the rows' order. */
  lemma IntendedGroupsPartition(rows: seq<Row>)
    ensures Flatten(IntendedGroupsFrom(rows, 0)) == Range(0, |rows|)
  {
    IntendedGroupsPartitionFrom(rows, 0);
  }

  /** Each record under the consecutive-run rule folds its group: the
      group's first row is the main row and the rest are folded in. */
  lemma {:induction false} IntendedNormalizeByGroupsFrom(rows: seq<Row>, i: nat)
    requires i <= |rows|
    ensures |IntendedNormalizeFrom(rows, i)| == |IntendedGroupsFrom(rows, i)|
    ensures forall k :: 0 <= k < |IntendedGroupsFrom(rows, i)| ==>
      && 1 <= |IntendedGroupsFrom(rows, i)[k]|
      && InRows(rows, IntendedGroupsFrom(rows, i)[k])
      && IntendedNormalizeFrom(rows, i)[k] ==
         Combine(rows[IntendedGroupsFrom(rows, i)[k][0]], Pick(rows, IntendedGroupsFrom(rows, i)[k][1..]))
    decreases |rows| - i
  {
    if i < |rows| {
      var f := IntendedLookahead(rows, i);
      var next := i + 1 + |f|;
      IntendedNormalizeByGroupsFrom(rows, next);
      var g := IntendedGroupsFrom(rows, i);
      var n := IntendedNormalizeFrom(rows, i);
      assert g == [[i] + f] + IntendedGroupsFrom(rows, next);
      assert n == [Combine(rows[i], Pick(rows, f))] + IntendedNormalizeFrom(rows, next);
      assert ([i] + f)[1..] == f;
      forall k | 0 <= k < |g|
        ensures 1 <= |g[k]| && InRows(rows, g[k]) && n[k] == Combine(rows[g[k][0]], Pick(rows, g[k][1..]))
      {
        if k > 0 {
          assert g[k] == IntendedGroupsFrom(rows, next)[k - 1];
          assert n[k] == IntendedNormalizeFrom(rows, next)[k - 1];
        }
      }
    }
  }

  /** On `SplitTable`, which the loop as written mishandles, the
      consecutive-run rule keeps every row as a group of its own. */
  lemma IntendedKeepsEveryRow()
    ensures IntendedGroupsFrom(SplitTable(), 0) == [[0], [1], [2]]
  {
    var rows := SplitTable();
    assert !SameTime(rows[1].time, rows[0].time);
    assert !SameTime(rows[2].time, rows[1].time);
    assert IntendedLookahead(rows, 0) == [];
    assert IntendedLookahead(rows, 1) == [];
    assert IntendedLookahead(rows, 2) == [];
    assert IntendedGroupsFrom(rows, 3) == [];
    assert [0] + [] == [0] && [1] + [] == [1] && [2] + [] == [2];
    assert IntendedGroupsFrom(rows, 2) == [[2]];
    assert IntendedGroupsFrom(rows, 1) == [[1], [2]];
  }

  /** So all three periods are written, one record each. */
  lemma IntendedKeepsEveryPeriod()
    ensures |IntendedNormalize(SplitTable())| == 3
    ensures forall k :: 0 <= k < 3 ==> IntendedNormalize(SplitTable())[k].period == SplitTable()[k].period
  {
    var rows := SplitTable();
    IntendedKeepsEveryRow();
    IntendedNormalizeByGroupsFrom(rows, 0);
    var g := IntendedGroupsFrom(rows, 0);
    var n := IntendedNormalize(rows);
    forall k | 0 <= k < 3 ensures n[k].period == rows[k].period {
      assert g[k] == [k];
    }
  }

  /** The two rules differ only where a row shares its `Time` with one of
      the two rows below it: without such near matches the loop as written
      emits exactly the consecutive-run records. */
  lemma {:induction false} AgreeWithoutNearMatchesFrom(rows: seq<Row>, i: nat)
    requires i <= |rows| && NoNearMatches(rows)
    ensures NormalizeFrom(rows, i) == IntendedNormalizeFrom(rows, i)
    decreases |rows| - i
  {
    if i < |rows| {
      assert NoMatchAt(rows, i);
      NoMatchNoFold(rows, i);
      assert IntendedLookahead(rows, i) == [];
      var head := Combine(rows[i], Pick(rows, []));
      assert NormalizeFrom(rows, i) == [head] + NormalizeFrom(rows, i + 1);
      assert IntendedNormalizeFrom(rows, i) == [head] + IntendedNormalizeFrom(rows, i + 1);
      AgreeWithoutNearMatchesFrom(rows, i + 1);
    }
  }

  /** Without near matches the output of the loop as written is the
      intended output. */
  lemma AgreeWithoutNearMatches(rows: seq<Row>)
    requires NoNearMatches(rows)
    ensures Normalize(rows) == IntendedNormalize(rows)
  {
    AgreeWithoutNearMatchesFrom(rows, 0);
  }
}
