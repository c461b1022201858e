/** The per-team transform both preprocessors share: the three derived columns of a team's group, the
    running-average columns, and the split-apply-combine over all teams. */
module Features {
  import opened Values
  import opened Frames
  import opened Parsing
  import opened Series
  import opened Grouping

  const GameIdColumn := "gameId"
  const DateColumn := "date"
  const GameCountColumn := "game_count"
  const TimeBetweenColumn := "time_between_games"
  const PlayoffColumn := "playoff"
  const AvgPrefix := "running_avg_"

  /** The column a running average of `c` is stored under: `f"running_avg_{c}_last_{span}"`. */
  function RunningAvgName(c: string, span: int): string {
    AvgPrefix + c + "_last_" + ShowInt(span)
  }

  function AvgNames(cols: seq<string>, span: int): (names: seq<string>)
    ensures |names| == |cols|
    ensures forall j :: 0 <= j < |cols| ==> names[j] == RunningAvgName(cols[j], span)
  {
    seq(|cols|, j requires 0 <= j < |cols| => RunningAvgName(cols[j], span))
  }

  predicate HasAvgPrefix(c: string) {
    |c| >= |AvgPrefix| && c[..|AvgPrefix|] == AvgPrefix
  }

  /**
   * The three derived columns of one team's group: game_count from gameId, time_between_games from date,
   * playoff from game_count, added in that order (KeyError if gameId or date is missing).
   */
  function WithSeriesColumns(group: Frame, shift: int): Result<Frame> {
    if GameIdColumn !in group.columns then Err(MissingColumn(GameIdColumn))
    else
      var g1 := SetColumn(group, GameCountColumn, GameCount(Column(group, GameIdColumn), shift));
      if DateColumn !in g1.columns then Err(MissingColumn(DateColumn))
      else
        var g2 := SetColumn(g1, TimeBetweenColumn, DaysBetween(Column(g1, DateColumn)));
        Ok(SetColumn(g2, PlayoffColumn, Playoff(Column(g2, GameCountColumn))))
  }

  /** The running-average columns of `cols` attached one at a time, each computed from the group as it
      stands at that point (the loop body of the running-average step). */
  function AddRunningAverages(g: Frame, cols: seq<string>, span: int, shift: int): (r: Result<Frame>)
    ensures r.Ok? ==> |r.value.rows| == |g.rows|
    decreases |cols|
  {
    if cols == [] then Ok(g)
    else
      var prev :- AddRunningAverages(g, cols[..|cols| - 1], span, shift);
      var c := cols[|cols| - 1];
      var vals :- RunningAverage(Column(prev, c), span, shift);
      Ok(SetColumn(prev, RunningAvgName(c, span), vals))
  }

  /** The running-average step: every column not in `excluded` is averaged, then the originals are dropped. */
  function RunningAveragesOf(group: Frame, excluded: seq<string>, span: int, shift: int): Result<Frame> {
    var averaging := Without(group.columns, excluded);
    var g :- AddRunningAverages(group, averaging, span, shift);
    Drop(g, averaging)
  }

  /** One team's group through both steps. */
  function ProcessGroup(group: Frame, excluded: seq<string>, span: int, shift: int): Result<Frame> {
    var g :- WithSeriesColumns(group, shift);
    RunningAveragesOf(g, excluded, span, shift)
  }

  /** The processed groups of `keys`, in order; the first failing group aborts. */
  function ProcessGroups(df: Frame, keys: seq<Value>, excluded: seq<string>, span: int, shift: int): (r: Result<seq<Frame>>)
    ensures r.Ok? ==> |r.value| == |keys|
    decreases |keys|
  {
    if keys == [] then Ok([])
    else
      var done :- ProcessGroups(df, keys[..|keys| - 1], excluded, span, shift);
      var g :- ProcessGroup(Group(df, keys[|keys| - 1]), excluded, span, shift);
      Ok(done + [g])
  }

  /** preprocess_team_data: every team's group processed, in key order, then concatenated. */
  function PreprocessSpec(df: Frame, excluded: seq<string>, span: int, shift: int): Result<Frame> {
    var groups :- ProcessGroups(df, GroupKeys(df), excluded, span, shift);
    Concat(groups)
  }

  // ---------------------------------------------------------------------------------------------
  // Column names

  lemma RunningAvgNameHasPrefix(c: string, span: int)
    ensures HasAvgPrefix(RunningAvgName(c, span))
  {
    assert RunningAvgName(c, span)[..|AvgPrefix|] == AvgPrefix;
  }

  /** Different columns get different running-average names. */
  lemma RunningAvgNameInjective(c: string, d: string, span: int)
    requires RunningAvgName(c, span) == RunningAvgName(d, span)
    ensures c == d
  {
    var n := |AvgPrefix|;
    assert |c| == |d|;
    assert RunningAvgName(c, span)[n..n + |c|] == c;
    assert RunningAvgName(d, span)[n..n + |d|] == d;
  }

  // ---------------------------------------------------------------------------------------------
  // The three derived columns

  /**
   * The derived columns need gameId and date; game_count is the shifted expanding count of gameId,
   * time_between_games the day difference of date, playoff the test game_count > 82, and every other
   * column is left as it was.
   */
  lemma WithSeriesColumnsCorrect(group: Frame, shift: int)
    ensures WithSeriesColumns(group, shift).Ok? <==> GameIdColumn in group.columns && DateColumn in group.columns
    ensures var r := WithSeriesColumns(group, shift);
      r.Ok? ==>
        && |r.value.rows| == |group.rows|
        && Column(r.value, GameCountColumn) == GameCount(Column(group, GameIdColumn), shift)
        && Column(r.value, TimeBetweenColumn) == DaysBetween(Column(group, DateColumn))
        && Column(r.value, PlayoffColumn) == Playoff(GameCount(Column(group, GameIdColumn), shift))
        && (forall i, c :: 0 <= i < |group.rows| && c != GameCountColumn && c != TimeBetweenColumn && c != PlayoffColumn
              ==> Get(r.value.rows[i], c) == Get(group.rows[i], c))
        && (forall c :: c in r.value.columns <==>
              c in group.columns || c == GameCountColumn || c == TimeBetweenColumn || c == PlayoffColumn)
        && (WellFormed(group) ==> WellFormed(r.value))
  {
    if GameIdColumn in group.columns && DateColumn in group.columns {
      var gc := GameCount(Column(group, GameIdColumn), shift);
      var g1 := SetColumn(group, GameCountColumn, gc);
      assert Column(g1, DateColumn) == Column(group, DateColumn);
      var g2 := SetColumn(g1, TimeBetweenColumn, DaysBetween(Column(g1, DateColumn)));
      assert Column(g2, GameCountColumn) == gc;
      var g3 := SetColumn(g2, PlayoffColumn, Playoff(gc));
      assert Column(g3, GameCountColumn) == gc;
      assert Column(g3, TimeBetweenColumn) == DaysBetween(Column(group, DateColumn));
    }
  }

  // ---------------------------------------------------------------------------------------------
  // The running-average columns

  /** What the running-average loop leaves behind after attaching the averages of `cols` to `g`. */
  ghost predicate Averaged(g: Frame, cols: seq<string>, span: int, shift: int, out: Frame) {
    && out.columns == g.columns + AvgNames(cols, span)
    && |out.rows| == |g.rows|
    && WellFormed(out)
    && (forall i, c :: 0 <= i < |g.rows| && c in g.columns ==> Get(out.rows[i], c) == Get(g.rows[i], c))
    && (forall j :: 0 <= j < |cols| ==>
          && RunningAverage(Column(g, cols[j]), span, shift).Ok?
          && Column(out, RunningAvgName(cols[j], span)) == RunningAverage(Column(g, cols[j]), span, shift).value)
  }

  /** Every listed column is numeric throughout (so ewm accepts it). */
  ghost predicate AllNumeric(g: Frame, cols: seq<string>) {
    forall j, i :: 0 <= j < |cols| && 0 <= i < |g.rows| ==> IsNumeric(Get(g.rows[i], cols[j]))
  }

  /** The requirements the running-average loop relies on: a well-formed group none of whose columns
      already looks like a running average, and distinct existing columns to average. */
  ghost predicate CanAverage(g: Frame, cols: seq<string>) {
    && WellFormed(g)
    && (forall c :: c in g.columns ==> !HasAvgPrefix(c))
    && (forall c :: c in cols ==> c in g.columns)
    && Distinct(cols)
  }

  lemma AvgNamesSnoc(cols: seq<string>, span: int)
    requires cols != []
    ensures AvgNames(cols, span) == AvgNames(cols[..|cols| - 1], span) + [RunningAvgName(cols[|cols| - 1], span)]
  {
    var init := cols[..|cols| - 1];
    var a, b := AvgNames(cols, span), AvgNames(init, span) + [RunningAvgName(cols[|cols| - 1], span)];
    assert |a| == |b|;
    forall j | 0 <= j < |a| ensures a[j] == b[j] {
      if j < |init| { assert cols[j] == init[j]; }
    }
  }

  /** A column not among `cols` gets a name no column of `cols` gets. */
  lemma FreshAvgName(cols: seq<string>, c: string, span: int)
    requires c !in cols
    ensures RunningAvgName(c, span) !in AvgNames(cols, span)
  {
    if RunningAvgName(c, span) in AvgNames(cols, span) {
      var j :| 0 <= j < |cols| && AvgNames(cols, span)[j] == RunningAvgName(c, span);
      RunningAvgNameInjective(cols[j], c, span);
    }
  }

  /** The loop appends the new names, in order, after the existing columns. */
  lemma {:induction false} AddedColumns(g: Frame, cols: seq<string>, span: int, shift: int)
    requires CanAverage(g, cols)
    requires AddRunningAverages(g, cols, span, shift).Ok?
    ensures AddRunningAverages(g, cols, span, shift).value.columns == g.columns + AvgNames(cols, span)
    decreases |cols|
  {
    if cols != [] {
      var init, c := cols[..|cols| - 1], cols[|cols| - 1];
      assert CanAverage(g, init);
      AddedColumns(g, init, span, shift);
      var prev := AddRunningAverages(g, init, span, shift).value;
      var name := RunningAvgName(c, span);
      RunningAvgNameHasPrefix(c, span);
      FreshAvgName(init, c, span);
      assert name !in prev.columns;
      AvgNamesSnoc(cols, span);
      assert prev.columns + [name] == g.columns + (AvgNames(init, span) + [name]);
    }
  }

  /** The loop leaves every existing cell as it was. */
  lemma {:induction false} AddedKeepsCells(g: Frame, cols: seq<string>, span: int, shift: int)
    requires CanAverage(g, cols)
    requires AddRunningAverages(g, cols, span, shift).Ok?
    ensures var out := AddRunningAverages(g, cols, span, shift).value;
      forall i, d :: 0 <= i < |g.rows| && d in g.columns ==> Get(out.rows[i], d) == Get(g.rows[i], d)
    decreases |cols|
  {
    if cols != [] {
      var init := cols[..|cols| - 1];
      assert CanAverage(g, init);
      AddedKeepsCells(g, init, span, shift);
      RunningAvgNameHasPrefix(cols[|cols| - 1], span);
    }
  }

  lemma {:induction false} AddedWellFormed(g: Frame, cols: seq<string>, span: int, shift: int)
    requires CanAverage(g, cols)
    requires AddRunningAverages(g, cols, span, shift).Ok?
    ensures WellFormed(AddRunningAverages(g, cols, span, shift).value)
    decreases |cols|
  {
    if cols != [] {
      var init := cols[..|cols| - 1];
      assert CanAverage(g, init);
      AddedWellFormed(g, init, span, shift);
    }
  }

  /** A column of the group reads the same after the running averages of `cols` are added. */
  lemma KeptColumn(g: Frame, cols: seq<string>, span: int, shift: int, c: string)
    requires CanAverage(g, cols) && AddRunningAverages(g, cols, span, shift).Ok? && c in g.columns
    ensures Column(AddRunningAverages(g, cols, span, shift).value, c) == Column(g, c)
  {
    AddedKeepsCells(g, cols, span, shift);
  }

  /** Each new column holds the running average of the group's original column. */
  lemma {:induction false} AddedAverages(g: Frame, cols: seq<string>, span: int, shift: int)
    requires CanAverage(g, cols)
    requires AddRunningAverages(g, cols, span, shift).Ok?
    ensures var out := AddRunningAverages(g, cols, span, shift).value;
      forall j :: 0 <= j < |cols| ==>
        && RunningAverage(Column(g, cols[j]), span, shift).Ok?
        && Column(out, RunningAvgName(cols[j], span)) == RunningAverage(Column(g, cols[j]), span, shift).value
    decreases |cols|
  {
    if cols != [] {
      var init, c := cols[..|cols| - 1], cols[|cols| - 1];
      assert CanAverage(g, init);
      AddedAverages(g, init, span, shift);
      var prev := AddRunningAverages(g, init, span, shift).value;
      KeptColumn(g, init, span, shift, c);
      var name := RunningAvgName(c, span);
      var vals := RunningAverage(Column(prev, c), span, shift).value;
      forall j | 0 <= j < |cols|
        ensures RunningAverage(Column(g, cols[j]), span, shift).Ok?
        ensures Column(SetColumn(prev, name, vals), RunningAvgName(cols[j], span)) == RunningAverage(Column(g, cols[j]), span, shift).value
      {
        if j < |cols| - 1 {
          assert cols[j] == init[j];
          var other := RunningAvgName(cols[j], span);
          assert other != name by {
            if other == name { RunningAvgNameInjective(cols[j], c, span); }
          }
          SetColumnOther(prev, name, vals, other);
        }
      }
    }
  }

  /** The loop's result, when there is one, is shaped as Averaged says. */
  lemma AddRunningAveragesShape(g: Frame, cols: seq<string>, span: int, shift: int)
    requires CanAverage(g, cols)
    requires AddRunningAverages(g, cols, span, shift).Ok?
    ensures Averaged(g, cols, span, shift, AddRunningAverages(g, cols, span, shift).value)
  {
    AddedColumns(g, cols, span, shift);
    AddedKeepsCells(g, cols, span, shift);
    AddedWellFormed(g, cols, span, shift);
    AddedAverages(g, cols, span, shift);
  }

  lemma AllNumericSnoc(g: Frame, cols: seq<string>)
    requires cols != []
    ensures AllNumeric(g, cols) <==> AllNumeric(g, cols[..|cols| - 1])
                                     && forall i :: 0 <= i < |g.rows| ==> IsNumeric(Get(g.rows[i], cols[|cols| - 1]))
  {
    var init, c := cols[..|cols| - 1], cols[|cols| - 1];
    if AllNumeric(g, init) && forall i :: 0 <= i < |g.rows| ==> IsNumeric(Get(g.rows[i], c)) {
      forall j, i | 0 <= j < |cols| && 0 <= i < |g.rows| ensures IsNumeric(Get(g.rows[i], cols[j])) {
        if j < |cols| - 1 { assert cols[j] == init[j]; }
      }
    }
    if AllNumeric(g, cols) {
      forall j, i | 0 <= j < |init| && 0 <= i < |g.rows| ensures IsNumeric(Get(g.rows[i], init[j])) {
        assert init[j] == cols[j];
      }
    }
  }

  /** The loop fails exactly when there is a column to average and the span is below 1 or some cell of
      those columns is not numeric. */
  lemma {:induction false} AddRunningAveragesOk(g: Frame, cols: seq<string>, span: int, shift: int)
    requires CanAverage(g, cols)
    ensures AddRunningAverages(g, cols, span, shift).Ok? <==> (cols == [] || span >= 1) && AllNumeric(g, cols)
    decreases |cols|
  {
    if cols != [] {
      var init := cols[..|cols| - 1];
      assert CanAverage(g, init);
      AddRunningAveragesOk(g, init, span, shift);
      AllNumericSnoc(g, cols);
      var rp := AddRunningAverages(g, init, span, shift);
      if rp.Ok? {
        AddStepOk(g, cols, span, shift, rp.value);
      }
    }
  }

  /** One more column succeeds exactly when the span is valid and the column is numeric. */
  lemma AddStepOk(g: Frame, cols: seq<string>, span: int, shift: int, prev: Frame)
    requires cols != [] && CanAverage(g, cols[..|cols| - 1]) && cols[|cols| - 1] in g.columns
    requires AddRunningAverages(g, cols[..|cols| - 1], span, shift) == Ok(prev)
    ensures AddRunningAverages(g, cols, span, shift).Ok?
        <==> span >= 1 && forall i :: 0 <= i < |g.rows| ==> IsNumeric(Get(g.rows[i], cols[|cols| - 1]))
  {
    var c := cols[|cols| - 1];
    KeptColumn(g, cols[..|cols| - 1], span, shift, c);
    assert forall i :: 0 <= i < |g.rows| ==> Column(g, c)[i] == Get(g.rows[i], c);
  }


  /** No new name collides with a column of the group (the prefix tells them apart). */
  lemma AvgNamesOutside(cols: seq<string>, span: int, existing: seq<string>)
    requires forall c :: c in existing ==> !HasAvgPrefix(c)
    ensures forall n :: n in AvgNames(cols, span) ==> n !in existing
  {
    forall n | n in AvgNames(cols, span) ensures n !in existing {
      var j :| 0 <= j < |cols| && AvgNames(cols, span)[j] == n;
      RunningAvgNameHasPrefix(cols[j], span);
    }
  }

  lemma RunningAveragesOfOk(group: Frame, excluded: seq<string>, span: int, shift: int)
    requires WellFormed(group) && forall c :: c in group.columns ==> !HasAvgPrefix(c)
    ensures var avg := Without(group.columns, excluded);
      RunningAveragesOf(group, excluded, span, shift).Ok? <==> (avg == [] || span >= 1) && AllNumeric(group, avg)
  {
    var avg := Without(group.columns, excluded);
    assert CanAverage(group, avg);
    AddRunningAveragesOk(group, avg, span, shift);
    if AddRunningAverages(group, avg, span, shift).Ok? {
      AddedColumns(group, avg, span, shift);
    }
  }

  lemma RunningAveragesOfColumns(group: Frame, excluded: seq<string>, span: int, shift: int)
    requires WellFormed(group) && forall c :: c in group.columns ==> !HasAvgPrefix(c)
    requires RunningAveragesOf(group, excluded, span, shift).Ok?
    ensures var avg := Without(group.columns, excluded);
      var out := RunningAveragesOf(group, excluded, span, shift).value;
      && out.columns == Without(group.columns, avg) + AvgNames(avg, span)
      && |out.rows| == |group.rows|
      && WellFormed(out)
  {
    var avg := Without(group.columns, excluded);
    assert CanAverage(group, avg);
    AddedColumns(group, avg, span, shift);
    AddedWellFormed(group, avg, span, shift);
    var names := AvgNames(avg, span);
    AvgNamesOutside(avg, span, group.columns);
    WithoutAppend(group.columns, names, avg);
    WithoutDisjoint(names, avg);
  }

  lemma RunningAveragesOfKeeps(group: Frame, excluded: seq<string>, span: int, shift: int)
    requires WellFormed(group) && forall c :: c in group.columns ==> !HasAvgPrefix(c)
    requires RunningAveragesOf(group, excluded, span, shift).Ok?
    ensures var out := RunningAveragesOf(group, excluded, span, shift).value;
      forall i, c :: 0 <= i < |group.rows| && c in group.columns && c in excluded ==>
        Get(out.rows[i], c) == Get(group.rows[i], c)
  {
    var avg := Without(group.columns, excluded);
    assert CanAverage(group, avg);
    AddedKeepsCells(group, avg, span, shift);
  }

  lemma RunningAveragesOfValues(group: Frame, excluded: seq<string>, span: int, shift: int)
    requires WellFormed(group) && forall c :: c in group.columns ==> !HasAvgPrefix(c)
    requires RunningAveragesOf(group, excluded, span, shift).Ok?
    ensures var avg := Without(group.columns, excluded);
      var out := RunningAveragesOf(group, excluded, span, shift).value;
      forall j :: 0 <= j < |avg| ==>
        && RunningAverage(Column(group, avg[j]), span, shift).Ok?
        && Column(out, RunningAvgName(avg[j], span)) == RunningAverage(Column(group, avg[j]), span, shift).value
  {
    var avg := Without(group.columns, excluded);
    assert CanAverage(group, avg);
    AddedAverages(group, avg, span, shift);
    var g := AddRunningAverages(group, avg, span, shift).value;
    var out := RunningAveragesOf(group, excluded, span, shift).value;
    var names := AvgNames(avg, span);
    AvgNamesOutside(avg, span, group.columns);
    forall j | 0 <= j < |avg|
      ensures Column(out, names[j]) == Column(g, names[j])
    {
      assert names[j] !in avg;
    }
  }

  /**
   * The running-average step (generate_team_running_average[s]): every column outside `excluded` is
   * replaced by its running average, stored under the new name after the kept columns; the excluded
   * columns keep their cells; the row count is unchanged; it fails exactly when the span is below 1
   * or an averaged column holds a non-numeric cell.
   */
  lemma RunningAveragesOfCorrect(group: Frame, excluded: seq<string>, span: int, shift: int)
    requires WellFormed(group) && forall c :: c in group.columns ==> !HasAvgPrefix(c)
    ensures var avg := Without(group.columns, excluded);
      var r := RunningAveragesOf(group, excluded, span, shift);
      && (r.Ok? <==> (avg == [] || span >= 1) && AllNumeric(group, avg))
      && (r.Ok? ==>
            && r.value.columns == Without(group.columns, avg) + AvgNames(avg, span)
            && (forall c :: c in r.value.columns <==> (c in group.columns && c in excluded) || c in AvgNames(avg, span))
            && |r.value.rows| == |group.rows|
            && WellFormed(r.value)
            && (forall i, c :: 0 <= i < |group.rows| && c in group.columns && c in excluded ==>
                  Get(r.value.rows[i], c) == Get(group.rows[i], c))
            && (forall j :: 0 <= j < |avg| ==>
                  && RunningAverage(Column(group, avg[j]), span, shift).Ok?
                  && Column(r.value, RunningAvgName(avg[j], span)) == RunningAverage(Column(group, avg[j]), span, shift).value))
  {
    RunningAveragesOfOk(group, excluded, span, shift);
    if RunningAveragesOf(group, excluded, span, shift).Ok? {
      RunningAveragesOfColumns(group, excluded, span, shift);
      RunningAveragesOfKeeps(group, excluded, span, shift);
      RunningAveragesOfValues(group, excluded, span, shift);
    }
  }

  // ---------------------------------------------------------------------------------------------
  // One team's group through both steps

  /** A table the transform can work on: well formed, with no column already named like an average. */
  ghost predicate Prepared(f: Frame) {
    WellFormed(f) && forall c :: c in f.columns ==> !HasAvgPrefix(c)
  }

  /** An exclusion list that keeps the team code and the three derived columns out of the averaging,
      as both preprocessors' lists do. */
  predicate KeepsDerived(excluded: seq<string>) {
    && TeamColumn in excluded
    && GameCountColumn in excluded
    && TimeBetweenColumn in excluded
    && PlayoffColumn in excluded
  }

  lemma GroupPrepared(df: Frame, k: Value)
    requires Prepared(df)
    ensures Prepared(Group(df, k))
  {
  }

  lemma SeriesColumnsPrepared(group: Frame, shift: int)
    requires Prepared(group)
    requires WithSeriesColumns(group, shift).Ok?
    ensures Prepared(WithSeriesColumns(group, shift).value)
  {
    WithSeriesColumnsCorrect(group, shift);
    assert !HasAvgPrefix(TimeBetweenColumn) by {
      assert TimeBetweenColumn[..|AvgPrefix|] != AvgPrefix by {
        assert TimeBetweenColumn[0] != AvgPrefix[0];
      }
    }
  }

  /** Two groups with the same columns come out of the transform with the same columns. */
  lemma ProcessGroupSameColumns(g: Frame, h: Frame, excluded: seq<string>, span: int, shift: int)
    requires Prepared(g) && g.columns == h.columns && WellFormed(h)
    requires ProcessGroup(g, excluded, span, shift).Ok? && ProcessGroup(h, excluded, span, shift).Ok?
    ensures ProcessGroup(g, excluded, span, shift).value.columns == ProcessGroup(h, excluded, span, shift).value.columns
  {
    var g1, h1 := WithSeriesColumns(g, shift).value, WithSeriesColumns(h, shift).value;
    assert g1.columns == h1.columns;
    SeriesColumnsPrepared(g, shift);
    SeriesColumnsPrepared(h, shift);
    RunningAveragesOfColumns(g1, excluded, span, shift);
    RunningAveragesOfColumns(h1, excluded, span, shift);
  }

  /** After the whole transform, the new column of an averaged column `c` holds the running average of
      the group's own column `c` (the derived columns are excluded, so `c` is none of them). */
  lemma ProcessGroupAverage(g: Frame, excluded: seq<string>, span: int, shift: int, c: string)
    requires KeepsDerived(excluded) && Prepared(g)
    requires ProcessGroup(g, excluded, span, shift).Ok?
    requires c in g.columns && c !in excluded
    ensures var out := ProcessGroup(g, excluded, span, shift).value;
      && RunningAvgName(c, span) in out.columns
      && |out.rows| == |g.rows|
      && RunningAverage(Column(g, c), span, shift).Ok?
      && Column(out, RunningAvgName(c, span)) == RunningAverage(Column(g, c), span, shift).value
  {
    var g1 := WithSeriesColumns(g, shift).value;
    SeriesKeepsColumn(g, shift, c);
    RunningAveragesOfAt(g1, excluded, span, shift, c);
  }


  /** An excluded column other than the three derived ones leaves the transform with its raw,
      unshifted cells. */
  lemma ProcessGroupKeeps(g: Frame, excluded: seq<string>, span: int, shift: int, c: string)
    requires KeepsDerived(excluded) && Prepared(g)
    requires ProcessGroup(g, excluded, span, shift).Ok?
    requires c in g.columns && c in excluded
    requires c != GameCountColumn && c != TimeBetweenColumn && c != PlayoffColumn
    ensures var out := ProcessGroup(g, excluded, span, shift).value;
      c in out.columns && Column(out, c) == Column(g, c) && RunningAvgName(c, span) !in out.columns
  {
    var g1 := WithSeriesColumns(g, shift).value;
    SeriesKeepsColumn(g, shift, c);
    RunningAveragesOfKeepsColumn(g1, excluded, span, shift, c);
  }

  /** The derived columns leave every other column of a prepared group as it was. */
  lemma SeriesKeepsColumn(g: Frame, shift: int, c: string)
    requires Prepared(g) && WithSeriesColumns(g, shift).Ok?
    requires c in g.columns && c != GameCountColumn && c != TimeBetweenColumn && c != PlayoffColumn
    ensures var g1 := WithSeriesColumns(g, shift).value;
      Prepared(g1) && c in g1.columns && |g1.rows| == |g.rows| && Column(g1, c) == Column(g, c)
  {
    var g1 := WithSeriesColumns(g, shift).value;
    WithSeriesColumnsCorrect(g, shift);
    SeriesColumnsPrepared(g, shift);
    assert forall i :: 0 <= i < |g.rows| ==> Column(g1, c)[i] == Column(g, c)[i];
  }

  /** The averaging step on one averaged column. */
  lemma RunningAveragesOfAt(group: Frame, excluded: seq<string>, span: int, shift: int, c: string)
    requires Prepared(group) && RunningAveragesOf(group, excluded, span, shift).Ok?
    requires c in group.columns && c !in excluded
    ensures var out := RunningAveragesOf(group, excluded, span, shift).value;
      && RunningAvgName(c, span) in out.columns
      && |out.rows| == |group.rows|
      && RunningAverage(Column(group, c), span, shift).Ok?
      && Column(out, RunningAvgName(c, span)) == RunningAverage(Column(group, c), span, shift).value
  {
    var avg := Without(group.columns, excluded);
    assert c in avg;
    var j :| 0 <= j < |avg| && avg[j] == c;
    RunningAveragesOfColumns(group, excluded, span, shift);
    RunningAveragesOfValues(group, excluded, span, shift);
    assert RunningAvgName(c, span) == AvgNames(avg, span)[j];
  }

  /** The averaging step on one excluded column. */
  lemma RunningAveragesOfKeepsColumn(group: Frame, excluded: seq<string>, span: int, shift: int, c: string)
    requires Prepared(group) && RunningAveragesOf(group, excluded, span, shift).Ok?
    requires c in group.columns && c in excluded
    ensures var out := RunningAveragesOf(group, excluded, span, shift).value;
      c in out.columns && Column(out, c) == Column(group, c) && RunningAvgName(c, span) !in out.columns
  {
    var out := RunningAveragesOf(group, excluded, span, shift).value;
    var avg := Without(group.columns, excluded);
    RunningAveragesOfColumns(group, excluded, span, shift);
    RunningAveragesOfKeeps(group, excluded, span, shift);
    assert c in Without(group.columns, avg);
    assert forall i :: 0 <= i < |out.rows| ==> Column(out, c)[i] == Column(group, c)[i];
    RunningAvgNameHasPrefix(c, span);
    forall j | 0 <= j < |avg| ensures AvgNames(avg, span)[j] != RunningAvgName(c, span) {
      if AvgNames(avg, span)[j] == RunningAvgName(c, span) {
        RunningAvgNameInjective(avg[j], c, span);
        assert false;
      }
    }
  }


  /**
   * The running average of an averaged column `c`, at row `i` of a team's group: missing while `i < shift`,
   * otherwise the weighted mean of the group's values of `c` at rows 0 to `i - shift`, and the same for any
   * other group that agrees with this one on those cells — nothing at or after row `i - shift + 1` is used.
   */
  lemma ProcessGroupNoLookAhead(g: Frame, h: Frame, outG: Frame, outH: Frame, excluded: seq<string>,
                                span: int, shift: int, c: string, i: int)
    requires KeepsDerived(excluded)
    requires Prepared(g) && Prepared(h) && g.columns == h.columns && |g.rows| == |h.rows|
    requires ProcessGroup(g, excluded, span, shift) == Ok(outG) && ProcessGroup(h, excluded, span, shift) == Ok(outH)
    requires c in g.columns && c !in excluded
    requires span >= 1 && shift >= 1 && 0 <= i < |g.rows|
    requires forall j :: 0 <= j <= i - shift ==> Get(g.rows[j], c) == Get(h.rows[j], c)
    ensures RunningAvgName(c, span) in outG.columns
    ensures |outG.rows| == |g.rows| && |outH.rows| == |h.rows|
    ensures Get(outG.rows[i], RunningAvgName(c, span))
         == if i < shift then Null else EwmScan(Column(g, c)[..i - shift + 1], Alpha(span)).0.weighted
    ensures Get(outG.rows[i], RunningAvgName(c, span)) == Get(outH.rows[i], RunningAvgName(c, span))
  {
    var name := RunningAvgName(c, span);
    ProcessGroupAverage(g, excluded, span, shift, c);
    ProcessGroupAverage(h, excluded, span, shift, c);
    var xs, ys := Column(g, c), Column(h, c);
    assert forall j :: 0 <= j <= i - shift ==> xs[j] == ys[j];
    AveragesNoLookAhead(xs, ys, Column(outG, name), Column(outH, name), span, shift, i);
    assert Get(outG.rows[i], name) == Column(outG, name)[i];
    assert Get(outH.rows[i], name) == Column(outH, name)[i];
  }

  /** The series half of the lemma above, on the columns alone. */
  lemma AveragesNoLookAhead(xs: seq<Value>, ys: seq<Value>, avgX: seq<Value>, avgY: seq<Value>, span: int, shift: int, i: int)
    requires RunningAverage(xs, span, shift) == Ok(avgX) && RunningAverage(ys, span, shift) == Ok(avgY)
    requires span >= 1 && shift >= 1 && |xs| == |ys| && 0 <= i < |xs|
    requires forall j :: 0 <= j <= i - shift ==> xs[j] == ys[j]
    ensures |avgX| == |xs| && |avgY| == |ys|
    ensures avgX[i] == if i < shift then Null else EwmScan(xs[..i - shift + 1], Alpha(span)).0.weighted
    ensures avgX[i] == avgY[i]
  {
    RunningAverageAt(xs, span, shift, i);
    RunningAverageNoLookAhead(xs, ys, span, shift, i);
  }

  // ---------------------------------------------------------------------------------------------
  // Split, apply, combine

  lemma {:induction false} ProcessGroupsAt(df: Frame, keys: seq<Value>, excluded: seq<string>, span: int, shift: int)
    requires ProcessGroups(df, keys, excluded, span, shift).Ok?
    ensures forall m :: 0 <= m < |keys| ==>
      ProcessGroup(Group(df, keys[m]), excluded, span, shift) == Ok(ProcessGroups(df, keys, excluded, span, shift).value[m])
    decreases |keys|
  {
    if keys != [] {
      var init := keys[..|keys| - 1];
      ProcessGroupsAt(df, init, excluded, span, shift);
      forall m | 0 <= m < |keys| - 1 ensures keys[m] == init[m] { }
    }
  }

  /** The transform leaves the team code of every row as it was. */
  lemma ProcessGroupKeepsTeam(g: Frame, out: Frame, excluded: seq<string>, span: int, shift: int)
    requires KeepsDerived(excluded) && Prepared(g) && TeamColumn in g.columns
    requires ProcessGroup(g, excluded, span, shift) == Ok(out)
    ensures |out.rows| == |g.rows|
    ensures forall i :: 0 <= i < |g.rows| ==> Get(out.rows[i], TeamColumn) == Get(g.rows[i], TeamColumn)
  {
    var g1 := WithSeriesColumns(g, shift).value;
    WithSeriesColumnsCorrect(g, shift);
    SeriesColumnsPrepared(g, shift);
    RunningAveragesOfColumns(g1, excluded, span, shift);
    RunningAveragesOfKeeps(g1, excluded, span, shift);
  }

  /** Tables whose rows all belong to teams other than `k` contribute no row for `k`. */
  lemma AllRowsAvoid(fs: seq<Frame>, keys: seq<Value>, k: Value)
    requires |fs| == |keys| && forall a :: 0 <= a < |keys| ==> keys[a] != k
    requires forall a, r :: 0 <= a < |fs| && r in fs[a].rows ==> Get(r, TeamColumn) == keys[a]
    ensures RowsWhere(AllRows(fs), TeamColumn, k) == []
  {
    forall r | r in AllRows(fs) ensures Get(r, TeamColumn) != k {
      AllRowsMember(fs, r);
    }
    RowsWhereNone(AllRows(fs), TeamColumn, k);
  }

  /** Filtering the stacked group outputs by one team's code gives back exactly that team's output. */
  lemma {:induction false} RowsWhereOfTeams(fs: seq<Frame>, keys: seq<Value>, m: int)
    requires |fs| == |keys| && 0 <= m < |keys|
    requires forall a, b :: 0 <= a < b < |keys| ==> keys[a] != keys[b]
    requires forall a, r :: 0 <= a < |fs| && r in fs[a].rows ==> Get(r, TeamColumn) == keys[a]
    ensures RowsWhere(AllRows(fs), TeamColumn, keys[m]) == fs[m].rows
    decreases |fs|
  {
    var n := |fs| - 1;
    var init, last := fs[..n], fs[n];
    assert AllRows(fs) == AllRows(init) + last.rows;
    RowsWhereAppend(AllRows(init), last.rows, TeamColumn, keys[m]);
    var initKeys := keys[..n];
    assert forall a, r :: 0 <= a < |init| && r in init[a].rows ==> Get(r, TeamColumn) == initKeys[a];
    if m == n {
      AllRowsAvoid(init, initKeys, keys[m]);
      RowsWhereAll(last.rows, TeamColumn, keys[m]);
    } else {
      assert forall a, b :: 0 <= a < b < |initKeys| ==> initKeys[a] != initKeys[b];
      RowsWhereOfTeams(init, initKeys, m);
      assert initKeys[m] == keys[m] && init[m] == fs[m];
      assert forall r :: r in last.rows ==> Get(r, TeamColumn) == keys[n];
      RowsWhereNone(last.rows, TeamColumn, keys[m]);
    }
  }

  /** One group's output: the same columns as the first group's, well formed, every row carrying the
      group's team code. */
  lemma GroupOutputShape(df: Frame, k0: Value, k: Value, out0: Frame, out: Frame, excluded: seq<string>, span: int, shift: int)
    requires KeepsDerived(excluded) && Prepared(df) && TeamColumn in df.columns
    requires ProcessGroup(Group(df, k0), excluded, span, shift) == Ok(out0)
    requires ProcessGroup(Group(df, k), excluded, span, shift) == Ok(out)
    ensures out.columns == out0.columns && WellFormed(out)
    ensures forall r :: r in out.rows ==> Get(r, TeamColumn) == k
  {
    var g := Group(df, k);
    GroupPrepared(df, k);
    GroupPrepared(df, k0);
    ProcessGroupSameColumns(Group(df, k0), g, excluded, span, shift);
    ProcessGroupWellFormed(g, out, excluded, span, shift);
    GroupOutputTeam(df, k, out, excluded, span, shift);
  }

  lemma ProcessGroupWellFormed(g: Frame, out: Frame, excluded: seq<string>, span: int, shift: int)
    requires Prepared(g) && ProcessGroup(g, excluded, span, shift) == Ok(out)
    ensures WellFormed(out)
  {
    SeriesColumnsPrepared(g, shift);
    RunningAveragesOfColumns(WithSeriesColumns(g, shift).value, excluded, span, shift);
  }

  /** Every output row of a team's group carries that team's code. */
  lemma GroupOutputTeam(df: Frame, k: Value, out: Frame, excluded: seq<string>, span: int, shift: int)
    requires KeepsDerived(excluded) && Prepared(df) && TeamColumn in df.columns
    requires ProcessGroup(Group(df, k), excluded, span, shift) == Ok(out)
    ensures forall r :: r in out.rows ==> Get(r, TeamColumn) == k
  {
    var g := Group(df, k);
    GroupPrepared(df, k);
    ProcessGroupKeepsTeam(g, out, excluded, span, shift);
    forall r | r in out.rows ensures Get(r, TeamColumn) == k {
      var i :| 0 <= i < |out.rows| && out.rows[i] == r;
      assert g.rows[i] in g.rows;
    }
  }

  /**
   * preprocess_team_data is a per-team map: the output rows of team `k`, in order, are exactly the
   * transform of `k`'s own group, so they never depend on another team's rows.
   */
  lemma PreprocessIsPerTeam(df: Frame, out: Frame, excluded: seq<string>, span: int, shift: int)
    requires KeepsDerived(excluded) && Prepared(df)
    requires PreprocessSpec(df, excluded, span, shift) == Ok(out)
    ensures forall k :: k in GroupKeys(df) ==>
      && ProcessGroup(Group(df, k), excluded, span, shift).Ok?
      && RowsWhere(out.rows, TeamColumn, k) == ProcessGroup(Group(df, k), excluded, span, shift).value.rows
  {
    var keys := GroupKeys(df);
    var fs := ProcessGroups(df, keys, excluded, span, shift).value;
    assert Concat(fs) == Ok(out);
    ProcessGroupsAt(df, keys, excluded, span, shift);
    GroupKeysCorrect(df);
    SortedDistinctValues(keys);
    assert keys[0] in keys;
    var i0 :| 0 <= i0 < |df.rows| && Get(df.rows[i0], TeamColumn) == keys[0];
    assert df.rows[i0] in df.rows;
    forall a | 0 <= a < |fs|
      ensures fs[a].columns == fs[0].columns && WellFormed(fs[a])
      ensures forall r :: r in fs[a].rows ==> Get(r, TeamColumn) == keys[a]
    {
      GroupOutputShape(df, keys[0], keys[a], fs[0], fs[a], excluded, span, shift);
    }
    ConcatSameColumns(fs, fs[0].columns);
    assert out.rows == AllRows(fs);
    forall k | k in keys
      ensures ProcessGroup(Group(df, k), excluded, span, shift).Ok?
      ensures RowsWhere(out.rows, TeamColumn, k) == ProcessGroup(Group(df, k), excluded, span, shift).value.rows
    {
      var m :| 0 <= m < |keys| && keys[m] == k;
      assert ProcessGroup(Group(df, k), excluded, span, shift) == Ok(fs[m]);
      RowsWhereOfTeams(fs, keys, m);
    }
  }

  /** A team listed in one table is listed in any table with the same rows for that team. */
  lemma SharedTeamKey(df1: Frame, df2: Frame, k: Value)
    requires RowsWhere(df1.rows, TeamColumn, k) == RowsWhere(df2.rows, TeamColumn, k)
    requires k in GroupKeys(df1)
    ensures k in GroupKeys(df2)
  {
    GroupKeysCorrect(df1);
    GroupKeysCorrect(df2);
    var i :| 0 <= i < |df1.rows| && Get(df1.rows[i], TeamColumn) == k;
    RowsWhereFind(df1.rows, TeamColumn, k, i);
    var r := df1.rows[i];
    assert r in RowsWhere(df2.rows, TeamColumn, k);
    var j :| 0 <= j < |df2.rows| && df2.rows[j] == r;
  }

  /**
   * Cross-team independence: two tables that hold the same rows for team `k` (and the same columns)
   * give the same output rows for `k`, whatever their other teams' rows are.
   */
  lemma TeamIndependence(df1: Frame, df2: Frame, k: Value, excluded: seq<string>, span: int, shift: int)
    requires KeepsDerived(excluded) && Prepared(df1) && Prepared(df2) && df1.columns == df2.columns
    requires RowsWhere(df1.rows, TeamColumn, k) == RowsWhere(df2.rows, TeamColumn, k)
    requires k in GroupKeys(df1)
    requires PreprocessSpec(df1, excluded, span, shift).Ok? && PreprocessSpec(df2, excluded, span, shift).Ok?
    ensures RowsWhere(PreprocessSpec(df1, excluded, span, shift).value.rows, TeamColumn, k)
         == RowsWhere(PreprocessSpec(df2, excluded, span, shift).value.rows, TeamColumn, k)
  {
    SharedTeamKey(df1, df2, k);
    PreprocessIsPerTeam(df1, PreprocessSpec(df1, excluded, span, shift).value, excluded, span, shift);
    PreprocessIsPerTeam(df2, PreprocessSpec(df2, excluded, span, shift).value, excluded, span, shift);
    assert Group(df1, k) == Group(df2, k);
  }

  // ---------------------------------------------------------------------------------------------
  // Failure of a prefix is failure of the whole: the loops that build these folds stop at the first error

  lemma {:induction false} AddRunningAveragesPrefixErr(g: Frame, cols: seq<string>, n: int, span: int, shift: int)
    requires 0 <= n <= |cols| && AddRunningAverages(g, cols[..n], span, shift).Err?
    ensures AddRunningAverages(g, cols, span, shift) == AddRunningAverages(g, cols[..n], span, shift)
    decreases |cols|
  {
    if n < |cols| {
      var init := cols[..|cols| - 1];
      assert init[..n] == cols[..n];
      AddRunningAveragesPrefixErr(g, init, n, span, shift);
    } else {
      assert cols[..n] == cols;
    }
  }

  lemma {:induction false} ProcessGroupsPrefixErr(df: Frame, keys: seq<Value>, n: int, excluded: seq<string>, span: int, shift: int)
    requires 0 <= n <= |keys| && ProcessGroups(df, keys[..n], excluded, span, shift).Err?
    ensures ProcessGroups(df, keys, excluded, span, shift) == ProcessGroups(df, keys[..n], excluded, span, shift)
    decreases |keys|
  {
    if n < |keys| {
      var init := keys[..|keys| - 1];
      assert init[..n] == keys[..n];
      ProcessGroupsPrefixErr(df, init, n, excluded, span, shift);
    } else {
      assert keys[..n] == keys;
    }
  }
}
