/**
 * The older preprocessor (preprocessing.py). It loads every season's games, merges each season's five
 * box-score categories, attaches the game date and outcome with left joins, keeps the first row of every
 * (game, team) pair, turns each team's rows into running averages, and finally drops the outcome columns.
 *
 * The object keeps its CSV store, seasons, span and shift, and updates `games` and `teamStats` in place
 * exactly as the Python attributes are assigned; each method is proved against the specification
 * function of the pipeline it runs.
 */
module Preprocessing {
  import opened Values
  import opened Frames
  import opened Features
  import opened Grouping
  import opened Schema
  import opened Pipeline
  import opened Series
  import Joins

  /** This preprocessor's pipeline: left joins with the games table, a final (game, team) de-duplication,
      the sixteen-name exclusion list, and the outcome columns dropped from the final table. */
  const Settings := Variant(Joins.Left, true, ExcludedColumns, true)

  /** The percentage columns are not on this preprocessor's exclusion list, so each is replaced by its
      running average like any other statistic. */
  lemma PercentagesAveraged(g: Frame, span: int, shift: int, c: string)
    requires Prepared(g)
    requires ProcessGroup(g, ExcludedColumns, span, shift).Ok?
    requires c in PercentageColumns && c in g.columns
    ensures var out := ProcessGroup(g, ExcludedColumns, span, shift).value;
      && RunningAvgName(c, span) in out.columns
      && RunningAverage(Column(g, c), span, shift).Ok?
      && Column(out, RunningAvgName(c, span)) == RunningAverage(Column(g, c), span, shift).value
  {
    ExclusionListsKeepDerived();
    PercentagesAveragedByOld();
    ProcessGroupAverage(g, ExcludedColumns, span, shift, c);
  }

  class Preprocessor {
    const store: Store
    const seasons: seq<string>
    const span: int
    const shift: int
    var games: Frame
    var teamStats: Frame

    /** The attributes before either table is loaded: both are empty frames. */
    constructor Empty(store: Store, seasons: seq<string>, span: int, shift: int)
      ensures this.store == store && this.seasons == seasons && this.span == span && this.shift == shift
      ensures games == Frame([], []) && teamStats == Frame([], [])
    {
      this.store := store;
      this.seasons := seasons;
      this.span := span;
      this.shift := shift;
      games := Frame([], []);
      teamStats := Frame([], []);
    }

    /** `Preprocessor(seasons, span, shift, full)`: both tables loaded; any failure while loading is a
        failure of the construction. */
    static method New(store: Store, seasons: seq<string>, span: int, shift: int) returns (r: Result<Preprocessor>)
      ensures r.Ok? <==> GamesSpec(store, seasons).Ok? && TeamStatsSpec(store, seasons, Settings, span, shift).Ok?
      ensures GamesSpec(store, seasons).Err? ==> r == Err(GamesSpec(store, seasons).error)
      ensures GamesSpec(store, seasons).Ok? && TeamStatsSpec(store, seasons, Settings, span, shift).Err?
              ==> r == Err(TeamStatsSpec(store, seasons, Settings, span, shift).error)
      ensures r.Ok? ==> && r.value.games == GamesSpec(store, seasons).value
                        && r.value.teamStats == TeamStatsSpec(store, seasons, Settings, span, shift).value
                        && r.value.span == span && r.value.shift == shift
    {
      var p := new Preprocessor.Empty(store, seasons, span, shift);
      var loaded := p.LoadAllGames();
      if loaded.Err? {
        return Err(loaded.error);
      }
      loaded := p.LoadTeamData();
      if loaded.Err? {
        return Err(loaded.error);
      }
      return Ok(p);
    }

    /** `load_all_games`: the games files read in season order and concatenated, then GAME_DATE parsed.
        The concatenation is stored before the dates are parsed, so a date that fails to parse leaves it
        in place; a missing file or no season at all leaves the attribute as it was. */
    method LoadAllGames() returns (r: Result<()>)
      modifies this
      ensures r.Ok? <==> GamesSpec(store, seasons).Ok?
      ensures r.Err? ==> r.error == GamesSpec(store, seasons).error
      ensures r.Ok? ==> games == GamesSpec(store, seasons).value
      ensures ReadGames(store, seasons).Ok? && Concat(ReadGames(store, seasons).value).Ok? && r.Err?
              ==> games == Concat(ReadGames(store, seasons).value).value
      ensures (ReadGames(store, seasons).Err? || Concat(ReadGames(store, seasons).value).Err?) ==> games == old(games)
      ensures teamStats == old(teamStats)
    {
      var frames: seq<Frame> := [];
      var i := 0;
      while i < |seasons|
        invariant 0 <= i <= |seasons|
        invariant ReadGames(store, seasons[..i]) == Ok(frames)
      {
        assert seasons[..i + 1][..i] == seasons[..i];
        var read := ReadCsv(store, GamesFile(seasons[i]));
        if read.Err? {
          ReadGamesPrefixErr(store, seasons, i + 1);
          return Err(read.error);
        }
        frames := frames + [read.value];
        i := i + 1;
      }
      assert seasons[..i] == seasons;
      var all := Concat(frames);
      if all.Err? {
        return Err(all.error);
      }
      games := all.value;
      var parsed := ParseGameDates(games);
      if parsed.Err? {
        return Err(parsed.error);
      }
      games := parsed.value;
      return Ok(());
    }

    /** `load_team_data`: every season's merged table preprocessed, the results concatenated, and the
        outcome columns dropped. The concatenation is stored before the drop. */
    method LoadTeamData() returns (r: Result<()>)
      modifies this
      ensures r.Ok? <==> TeamStatsSpec(store, seasons, Settings, span, shift).Ok?
      ensures r.Err? ==> r.error == TeamStatsSpec(store, seasons, Settings, span, shift).error
      ensures r.Ok? ==> teamStats == TeamStatsSpec(store, seasons, Settings, span, shift).value
      ensures ProcessSeasons(store, seasons, Settings, span, shift).Ok?
              && Concat(ProcessSeasons(store, seasons, Settings, span, shift).value).Ok? && r.Err?
              ==> teamStats == Concat(ProcessSeasons(store, seasons, Settings, span, shift).value).value
      ensures (ProcessSeasons(store, seasons, Settings, span, shift).Err?
               || Concat(ProcessSeasons(store, seasons, Settings, span, shift).value).Err?) ==> teamStats == old(teamStats)
      ensures games == old(games)
    {
      var processed: seq<Frame> := [];
      var i := 0;
      while i < |seasons|
        invariant 0 <= i <= |seasons|
        invariant ProcessSeasons(store, seasons[..i], Settings, span, shift) == Ok(processed)
        invariant games == old(games) && teamStats == old(teamStats)
      {
        assert seasons[..i + 1][..i] == seasons[..i];
        var table := SeasonTable(store, seasons[i], Settings);
        if table.Err? {
          ProcessSeasonsPrefixErr(store, seasons, i + 1, Settings, span, shift);
          return Err(table.error);
        }
        var df := PreprocessTeamData(table.value);
        if df.Err? {
          ProcessSeasonsPrefixErr(store, seasons, i + 1, Settings, span, shift);
          return Err(df.error);
        }
        processed := processed + [df.value];
        i := i + 1;
      }
      assert seasons[..i] == seasons;
      var all := Concat(processed);
      if all.Err? {
        return Err(all.error);
      }
      teamStats := all.value;
      var dropped := Drop(teamStats, DroppedOutcomeColumns);
      if dropped.Err? {
        return Err(dropped.error);
      }
      teamStats := dropped.value;
      return Ok(());
    }

    /** `preprocess_team_data`: the table split by team code in sorted order, each team's rows given the
        derived columns and running averages, and the groups concatenated back. */
    method PreprocessTeamData(df: Frame) returns (r: Result<Frame>)
      ensures r == PreprocessSpec(df, ExcludedColumns, span, shift)
    {
      var keys := GroupKeys(df);
      var groups: seq<Frame> := [];
      var i := 0;
      while i < |keys|
        invariant 0 <= i <= |keys|
        invariant ProcessGroups(df, keys[..i], ExcludedColumns, span, shift) == Ok(groups)
      {
        assert keys[..i + 1][..i] == keys[..i];
        var group := WithSeriesColumns(Group(df, keys[i]), shift);
        if group.Err? {
          ProcessGroupsPrefixErr(df, keys, i + 1, ExcludedColumns, span, shift);
          return Err(group.error);
        }
        var averaged := GenerateTeamRunningAverages(group.value);
        if averaged.Err? {
          ProcessGroupsPrefixErr(df, keys, i + 1, ExcludedColumns, span, shift);
          return Err(averaged.error);
        }
        groups := groups + [averaged.value];
        i := i + 1;
      }
      assert keys[..i] == keys;
      return Concat(groups);
    }

    /** `generate_team_running_averages`: for every column outside the exclusion list, in the group's
        column order, a shifted running-average column is added; then the averaged columns are dropped. */
    method GenerateTeamRunningAverages(group: Frame) returns (r: Result<Frame>)
      ensures r == RunningAveragesOf(group, ExcludedColumns, span, shift)
    {
      var averaging := Without(group.columns, ExcludedColumns);
      var g := group;
      var i := 0;
      while i < |averaging|
        invariant 0 <= i <= |averaging|
        invariant AddRunningAverages(group, averaging[..i], span, shift) == Ok(g)
      {
        assert averaging[..i + 1][..i] == averaging[..i];
        var col := averaging[i];
        var values := RunningAverage(Column(g, col), span, shift);
        if values.Err? {
          AddRunningAveragesPrefixErr(group, averaging, i + 1, span, shift);
          return Err(values.error);
        }
        g := SetColumn(g, RunningAvgName(col, span), values.value);
        i := i + 1;
      }
      assert averaging[..i] == averaging;
      return Drop(g, averaging);
    }
  }
}
