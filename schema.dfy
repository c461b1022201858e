/** The fixed names the two preprocessors use: the per-category allow-lists, the exclusion lists of the
    running-average step, the games table's columns, and the per-season file names. */
module Schema {
  import opened Values
  import opened Grouping
  import opened Features

  const GameDateColumn := "GAME_DATE"
  const HomePointsColumn := "HOME_TEAM_PTS"
  const AwayPointsColumn := "AWAY_TEAM_PTS"
  const HomeTeamColumn := "HOME_TEAM_ABBREVIATION"
  const AwayTeamColumn := "AWAY_TEAM_ABBREVIATION"
  const WinnerColumn := "winner"

  /** The composite key of a team's box score: `merge_columns`. */
  const MergeColumns: seq<string> := [GameIdColumn, TeamColumn]

  /** The columns kept from `<season>_advanced_stats.csv`. */
  const AdvancedColumns: seq<string> := [
    "gameId", "teamTricode", "estimatedOffensiveRating", "offensiveRating",
    "estimatedDefensiveRating", "defensiveRating", "estimatedNetRating", "netRating",
    "assistPercentage", "assistToTurnover", "assistRatio", "offensiveReboundPercentage",
    "defensiveReboundPercentage", "reboundPercentage", "turnoverRatio", "effectiveFieldGoalPercentage",
    "trueShootingPercentage", "usagePercentage", "estimatedUsagePercentage", "estimatedPace",
    "pace", "pacePer40", "possessions", "PIE"
  ]

  /** The columns kept from `<season>_traditional_stats.csv`. */
  const TraditionalColumns: seq<string> := [
    "gameId", "teamTricode", "fieldGoalsMade", "fieldGoalsAttempted",
    "fieldGoalsPercentage", "threePointersMade", "threePointersAttempted", "threePointersPercentage",
    "freeThrowsMade", "freeThrowsAttempted", "freeThrowsPercentage", "reboundsOffensive",
    "reboundsDefensive", "reboundsTotal", "assists", "steals",
    "blocks", "turnovers", "foulsPersonal", "points",
    "plusMinusPoints"
  ]

  /** The columns kept from `<season>_hustle_stats.csv`. */
  const HustleColumns: seq<string> := [
    "gameId", "teamTricode", "contestedShots", "contestedShots2pt",
    "contestedShots3pt", "deflections", "chargesDrawn", "screenAssists",
    "screenAssistPoints", "looseBallsRecoveredOffensive", "looseBallsRecoveredDefensive", "looseBallsRecoveredTotal",
    "offensiveBoxOuts", "defensiveBoxOuts", "boxOutPlayerTeamRebounds", "boxOutPlayerRebounds",
    "boxOuts"
  ]

  /** The columns kept from `<season>_misc_stats.csv`. */
  const MiscColumns: seq<string> := [
    "gameId", "teamTricode", "pointsOffTurnovers", "pointsSecondChance",
    "pointsFastBreak", "pointsPaint", "oppPointsOffTurnovers", "oppPointsSecondChance",
    "oppPointsFastBreak", "oppPointsPaint", "blocksAgainst", "foulsDrawn"
  ]

  /** The columns kept from `<season>_track_stats.csv`. */
  const TrackingColumns: seq<string> := [
    "gameId", "teamTricode", "distance", "reboundChancesOffensive",
    "reboundChancesDefensive", "reboundChancesTotal", "touches", "secondaryAssists",
    "freeThrowAssists", "passes", "contestedFieldGoalsMade", "contestedFieldGoalsAttempted",
    "contestedFieldGoalPercentage", "uncontestedFieldGoalsMade", "uncontestedFieldGoalsAttempted", "uncontestedFieldGoalsPercentage",
    "defendedAtRimFieldGoalsMade", "defendedAtRimFieldGoalsAttempted", "defendedAtRimFieldGoalPercentage"
  ]

  /** The rate columns the newer preprocessor passes through without averaging. */
  const PercentageColumns: seq<string> := [
    "assistPercentage", "assistToTurnover", "assistRatio", "offensiveReboundPercentage",
    "defensiveReboundPercentage", "reboundPercentage", "turnoverRatio", "effectiveFieldGoalPercentage",
    "trueShootingPercentage", "usagePercentage", "estimatedUsagePercentage", "fieldGoalsPercentage",
    "threePointersPercentage", "freeThrowsPercentage", "contestedFieldGoalPercentage", "uncontestedFieldGoalsPercentage",
    "defendedAtRimFieldGoalPercentage"
  ]

  /** The columns the older preprocessor never averages. */
  const ExcludedColumns: seq<string> := [
    "teamTricode", "gameId", "date", "game_count",
    "time_between_games", "playoff", "winning_percentage", "home_winning_percentage",
    "away_winning_percentage", "home_streak", "streak", "away_streak",
    "win", "winner", "HOME_TEAM_ABBREVIATION", "AWAY_TEAM_ABBREVIATION"
  ]

  /** The fixed list of columns the newer preprocessor never averages. */
  const FixedExcludedColumns: seq<string> := [
    "teamTricode", "gameId", "date", "game_count",
    "time_between_games", "playoff", "win", "winner",
    "HOME_TEAM_ABBREVIATION", "AWAY_TEAM_ABBREVIATION"
  ]

  /** Everything the newer preprocessor never averages: its fixed list and the percentage list. */
  const NewExcludedColumns: seq<string> := FixedExcludedColumns + PercentageColumns

  /** The games columns attached to each box score by the outcome join. */
  const OutcomeColumns: seq<string> := [GameIdColumn, WinnerColumn, HomeTeamColumn, AwayTeamColumn]

  /** The columns the older preprocessor drops from its final table. */
  const DroppedOutcomeColumns: seq<string> := [HomeTeamColumn, AwayTeamColumn, WinnerColumn]

  function GamesFile(season: string): string { season + "_all_games.csv" }
  function AdvancedFile(season: string): string { season + "_advanced_stats.csv" }
  function TraditionalFile(season: string): string { season + "_traditional_stats.csv" }
  function HustleFile(season: string): string { season + "_hustle_stats.csv" }
  function MiscFile(season: string): string { season + "_misc_stats.csv" }
  function TrackingFile(season: string): string { season + "_track_stats.csv" }

  // ---------------------------------------------------------------------------------------------

  lemma DateNamesDiffer()
    ensures DateColumn != GameDateColumn && GameIdColumn != GameDateColumn && GameIdColumn != DateColumn
  {
    assert DateColumn[0] != GameDateColumn[0] && GameIdColumn[0] != GameDateColumn[0];
    assert GameIdColumn[0] != DateColumn[0];
  }

  lemma OutcomeNamesDiffer()
    ensures OutcomeColumns[0] == GameIdColumn && OutcomeColumns[1] == WinnerColumn
    ensures OutcomeColumns[2] == HomeTeamColumn && OutcomeColumns[3] == AwayTeamColumn
    ensures WinnerColumn != GameIdColumn && HomeTeamColumn != GameIdColumn && AwayTeamColumn != GameIdColumn
    ensures HomeTeamColumn != WinnerColumn && AwayTeamColumn != WinnerColumn && HomeTeamColumn != AwayTeamColumn
    ensures Distinct(OutcomeColumns)
  {
    assert HomeTeamColumn[0] != AwayTeamColumn[0];
    assert WinnerColumn[0] != GameIdColumn[0] && HomeTeamColumn[0] != GameIdColumn[0];
    assert AwayTeamColumn[0] != GameIdColumn[0] && HomeTeamColumn[0] != WinnerColumn[0];
    assert AwayTeamColumn[0] != WinnerColumn[0];
  }

  // Each allow-list names every column once (stated with the list length written out, which keeps the
  // pairwise comparison of the names small).
  lemma AdvancedDistinct()
    ensures Distinct(AdvancedColumns)
  {
    assert |AdvancedColumns| == 24;
    assert forall i, j :: 0 <= i < j < 24 ==> AdvancedColumns[i] != AdvancedColumns[j];
  }

  lemma TraditionalDistinct()
    ensures Distinct(TraditionalColumns)
  {
    assert |TraditionalColumns| == 21;
    assert forall i, j :: 0 <= i < j < 21 ==> TraditionalColumns[i] != TraditionalColumns[j];
  }

  lemma HustleDistinct()
    ensures Distinct(HustleColumns)
  {
    assert |HustleColumns| == 17;
    assert forall i, j :: 0 <= i < j < 17 ==> HustleColumns[i] != HustleColumns[j];
  }

  lemma MiscDistinct()
    ensures Distinct(MiscColumns)
  {
    assert |MiscColumns| == 12;
    assert forall i, j :: 0 <= i < j < 12 ==> MiscColumns[i] != MiscColumns[j];
  }

  lemma TrackingDistinct()
    ensures Distinct(TrackingColumns)
  {
    assert |TrackingColumns| == 19;
    assert forall i, j :: 0 <= i < j < 19 ==> TrackingColumns[i] != TrackingColumns[j];
  }

  /** None of `cols` is a running-average name. */
  predicate NoAvgNames(cols: seq<string>) {
    forall c :: c in cols ==> !HasAvgPrefix(c)
  }

  predicate NotRu(c: string) {
    |c| < 2 || c[0] != 'r' || c[1] != 'u'
  }

  /** Names that do not begin with "ru" are not running-average names. */
  lemma NotAvgNames(cols: seq<string>)
    requires forall i :: 0 <= i < |cols| ==> NotRu(cols[i])
    ensures NoAvgNames(cols)
  {
    forall c | c in cols ensures !HasAvgPrefix(c) {
      var i :| 0 <= i < |cols| && cols[i] == c;
      assert AvgPrefix[0] == 'r' && AvgPrefix[1] == 'u';
    }
  }

  lemma AdvancedNotAveraged()
    ensures NoAvgNames(AdvancedColumns)
  {
    assert |AdvancedColumns| == 24;
    assert forall i :: 0 <= i < 24 ==> NotRu(AdvancedColumns[i]);
    NotAvgNames(AdvancedColumns);
  }

  lemma TraditionalNotAveraged()
    ensures NoAvgNames(TraditionalColumns)
  {
    assert |TraditionalColumns| == 21;
    assert forall i :: 0 <= i < 21 ==> NotRu(TraditionalColumns[i]);
    NotAvgNames(TraditionalColumns);
  }

  lemma HustleNotAveraged()
    ensures NoAvgNames(HustleColumns)
  {
    assert |HustleColumns| == 17;
    assert forall i :: 0 <= i < 17 ==> NotRu(HustleColumns[i]);
    NotAvgNames(HustleColumns);
  }

  lemma MiscNotAveraged()
    ensures NoAvgNames(MiscColumns)
  {
    assert |MiscColumns| == 12;
    assert forall i :: 0 <= i < 12 ==> NotRu(MiscColumns[i]);
    NotAvgNames(MiscColumns);
  }

  lemma TrackingNotAveraged()
    ensures NoAvgNames(TrackingColumns)
  {
    assert |TrackingColumns| == 19;
    assert forall i :: 0 <= i < 19 ==> NotRu(TrackingColumns[i]);
    NotAvgNames(TrackingColumns);
  }

  /** No allow-listed name, and none of the games columns the pipeline attaches, is a running-average name. */
  lemma SourceColumnsNotAveraged()
    ensures NoAvgNames(AdvancedColumns)
    ensures NoAvgNames(TraditionalColumns)
    ensures NoAvgNames(HustleColumns)
    ensures NoAvgNames(MiscColumns)
    ensures NoAvgNames(TrackingColumns)
    ensures NoAvgNames(OutcomeColumns) && NoAvgNames([GameIdColumn, GameDateColumn]) && NoAvgNames([DateColumn])
  {
    AdvancedNotAveraged();
    TraditionalNotAveraged();
    HustleNotAveraged();
    MiscNotAveraged();
    TrackingNotAveraged();
    NotAvgNames(OutcomeColumns);
    NotAvgNames([GameIdColumn, GameDateColumn]);
    NotAvgNames([DateColumn]);
  }

  /** Both exclusion lists keep the team code and the three derived columns out of the averaging. */
  lemma ExclusionListsKeepDerived()
    ensures KeepsDerived(ExcludedColumns) && KeepsDerived(NewExcludedColumns)
  {
    assert ExcludedColumns[0] == TeamColumn && ExcludedColumns[3] == GameCountColumn;
    assert ExcludedColumns[4] == TimeBetweenColumn && ExcludedColumns[5] == PlayoffColumn;
    assert NewExcludedColumns[0] == TeamColumn && NewExcludedColumns[3] == GameCountColumn;
    assert NewExcludedColumns[4] == TimeBetweenColumn && NewExcludedColumns[5] == PlayoffColumn;
  }

  /** The older exclusion list names no percentage column, so the older preprocessor averages them all. */
  lemma PercentagesAveragedByOld()
    ensures forall c :: c in PercentageColumns ==> c !in ExcludedColumns
  {
  }

  /** No percentage column is one of the three derived columns. */
  lemma DerivedAreNotPercentages()
    ensures GameCountColumn !in PercentageColumns && TimeBetweenColumn !in PercentageColumns
    ensures PlayoffColumn !in PercentageColumns
  {
  }

  /** Every category's column list starts with the (gameId, teamTricode) key. */
  lemma AllowListsHaveKey()
    ensures GameIdColumn in AdvancedColumns && TeamColumn in AdvancedColumns
    ensures GameIdColumn in TraditionalColumns && TeamColumn in TraditionalColumns
    ensures GameIdColumn in HustleColumns && TeamColumn in HustleColumns
    ensures GameIdColumn in MiscColumns && TeamColumn in MiscColumns
    ensures GameIdColumn in TrackingColumns && TeamColumn in TrackingColumns
  {
    assert AdvancedColumns[0] == GameIdColumn && AdvancedColumns[1] == TeamColumn;
    assert TraditionalColumns[0] == GameIdColumn && TraditionalColumns[1] == TeamColumn;
    assert HustleColumns[0] == GameIdColumn && HustleColumns[1] == TeamColumn;
    assert MiscColumns[0] == GameIdColumn && MiscColumns[1] == TeamColumn;
    assert TrackingColumns[0] == GameIdColumn && TrackingColumns[1] == TeamColumn;
  }
}
