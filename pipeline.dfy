/**
 * The per-season pipeline both preprocessors run, as functions of the CSV files: reading and parsing the
 * games, merging the five stat categories, attaching date and outcome, the per-team transform, and the
 * horizon combine of the main script. The two preprocessors differ only in the join kind of the games
 * joins, the final key de-duplication, the exclusion list and the final column drop (`Variant`).
 */
module Pipeline {
  import opened Values
  import opened Parsing
  import opened Frames
  import opened Joins
  import opened Grouping
  import opened Features
  import opened Schema

  /** The CSV files of the working directory, by file name. */
  type Store = map<string, Frame>

  /** What sets the two preprocessors apart. */
  datatype Variant = Variant(how: How, keyDedup: bool, excluded: seq<string>, dropOutcome: bool)

  /** The five category tables of one season, as selected from their files, and its games table. */
  datatype SeasonInputs = SeasonInputs(
    games: Frame, advanced: Frame, traditional: Frame, hustle: Frame, misc: Frame, tracking: Frame)

  /** `pd.read_csv(name)`: the file's table, or an error when there is no such file. */
  function ReadCsv(store: Store, name: string): (r: Result<Frame>)
    ensures r.Ok? <==> name in store
    ensures r.Ok? ==> r.value == store[name]
  {
    if name in store then Ok(store[name]) else Err(MissingFile(name))
  }

  /** The games files of `seasons`, read in order. */
  function ReadGames(store: Store, seasons: seq<string>): (r: Result<seq<Frame>>)
    ensures r.Ok? <==> forall i :: 0 <= i < |seasons| ==> GamesFile(seasons[i]) in store
    ensures r.Ok? ==> |r.value| == |seasons| && forall i :: 0 <= i < |seasons| ==> r.value[i] == store[GamesFile(seasons[i])]
    decreases |seasons|
  {
    if seasons == [] then Ok([])
    else
      var done :- ReadGames(store, seasons[..|seasons| - 1]);
      var f :- ReadCsv(store, GamesFile(seasons[|seasons| - 1]));
      Ok(done + [f])
  }

  /** `games["GAME_DATE"] = games["GAME_DATE"].apply(parse)`. */
  function ParseGameDates(games: Frame): (r: Result<Frame>)
    ensures r.Ok? <==> GameDateColumn in games.columns && ParseDates(Column(games, GameDateColumn)).Ok?
    ensures r.Ok? ==> r.value.columns == games.columns && |r.value.rows| == |games.rows|
    ensures r.Ok? ==> forall i :: 0 <= i < |games.rows| ==>
      Ok(Get(r.value.rows[i], GameDateColumn)) == ParseDate(Get(games.rows[i], GameDateColumn))
    ensures r.Ok? ==> forall i, c :: 0 <= i < |games.rows| && c != GameDateColumn ==>
      Get(r.value.rows[i], c) == Get(games.rows[i], c)
  {
    if GameDateColumn !in games.columns then Err(MissingColumn(GameDateColumn))
    else
      var dates :- ParseDates(Column(games, GameDateColumn));
      var out := SetColumn(games, GameDateColumn, dates);
      assert forall i :: 0 <= i < |games.rows| ==> Get(out.rows[i], GameDateColumn) == Column(out, GameDateColumn)[i];
      Ok(out)
  }

  /** load_all_games: the games files concatenated, with GAME_DATE parsed into dates. */
  function GamesSpec(store: Store, seasons: seq<string>): Result<Frame> {
    var fs :- ReadGames(store, seasons);
    var games :- Concat(fs);
    ParseGameDates(games)
  }

  /** `np.where(home_pts > away_pts, home, away)` on one game: a missing score compares false. */
  function Winner(homePoints: Value, awayPoints: Value, home: Value, away: Value): Value {
    if homePoints.Num? && awayPoints.Num? && homePoints.n > awayPoints.n then home else away
  }

  const ScoreColumns: seq<string> := [HomePointsColumn, AwayPointsColumn, HomeTeamColumn, AwayTeamColumn]

  /** `df_games["winner"] = ...`: a winner column derived row by row from the scores. */
  function WithWinner(games: Frame): Result<Frame> {
    var m := FirstMissing(ScoreColumns, games.columns);
    if m != [] then Err(MissingColumn(m[0]))
    else
      Ok(SetColumn(games, WinnerColumn, seq(|games.rows|, i requires 0 <= i < |games.rows| =>
        Winner(Get(games.rows[i], HomePointsColumn), Get(games.rows[i], AwayPointsColumn),
               Get(games.rows[i], HomeTeamColumn), Get(games.rows[i], AwayTeamColumn)))))
  }

  /** `pd.read_csv(file)[cols]`. */
  function ReadCategory(store: Store, file: string, cols: seq<string>): Result<Frame> {
    var f :- ReadCsv(store, file);
    Select(f, cols)
  }

  /** The six reads at the top of the season loop, in the order the code makes them. */
  function ReadSeason(store: Store, season: string): Result<SeasonInputs> {
    var games :- ReadCsv(store, GamesFile(season));
    var advanced :- ReadCategory(store, AdvancedFile(season), AdvancedColumns);
    var traditional :- ReadCategory(store, TraditionalFile(season), TraditionalColumns);
    var hustle :- ReadCategory(store, HustleFile(season), HustleColumns);
    var misc :- ReadCategory(store, MiscFile(season), MiscColumns);
    var tracking :- ReadCategory(store, TrackingFile(season), TrackingColumns);
    Ok(SeasonInputs(games, advanced, traditional, hustle, misc, tracking))
  }

  /** The four inner merges on (gameId, teamTricode), then `drop_duplicates()` over all columns. */
  function MergeCategories(inputs: SeasonInputs): Result<Frame> {
    var m1 :- Merge(inputs.advanced, inputs.traditional, MergeColumns, Inner);
    var m2 :- Merge(m1, inputs.hustle, MergeColumns, Inner);
    var m3 :- Merge(m2, inputs.misc, MergeColumns, Inner);
    var m4 :- Merge(m3, inputs.tracking, MergeColumns, Inner);
    DropDuplicates(m4, m4.columns)
  }

  /** The box scores joined with their game's date, the date parsed into `date` and GAME_DATE dropped. */
  function AttachDate(merged: Frame, games: Frame, how: How): Result<Frame> {
    var dated :- Select(games, [GameIdColumn, GameDateColumn]);
    var m :- Merge(merged, dated, [GameIdColumn], how);
    var dates :- ParseDates(Column(m, GameDateColumn));
    Drop(SetColumn(m, DateColumn, dates), [GameDateColumn])
  }

  /** The box scores joined with their game's winner and team abbreviations. */
  function AttachOutcome(withDate: Frame, games: Frame, how: How): Result<Frame> {
    var decided :- WithWinner(games);
    var outcome :- Select(decided, OutcomeColumns);
    Merge(withDate, outcome, [GameIdColumn], how)
  }

  /** One season's merged table, before the per-team transform. */
  function SeasonTable(store: Store, season: string, v: Variant): Result<Frame> {
    var inputs :- ReadSeason(store, season);
    var merged :- MergeCategories(inputs);
    var withDate :- AttachDate(merged, inputs.games, v.how);
    var table :- AttachOutcome(withDate, inputs.games, v.how);
    if v.keyDedup then DropDuplicates(table, MergeColumns) else Ok(table)
  }

  /** The processed table of every season, in order; the first failing season aborts. */
  function ProcessSeasons(store: Store, seasons: seq<string>, v: Variant, span: int, shift: int): (r: Result<seq<Frame>>)
    ensures r.Ok? ==> |r.value| == |seasons|
    decreases |seasons|
  {
    if seasons == [] then Ok([])
    else
      var done :- ProcessSeasons(store, seasons[..|seasons| - 1], v, span, shift);
      var table :- SeasonTable(store, seasons[|seasons| - 1], v);
      var processed :- PreprocessSpec(table, v.excluded, span, shift);
      Ok(done + [processed])
  }

  /** load_team_data: the processed seasons concatenated, and for the older variant the outcome columns dropped. */
  function TeamStatsSpec(store: Store, seasons: seq<string>, v: Variant, span: int, shift: int): Result<Frame> {
    var processed :- ProcessSeasons(store, seasons, v, span, shift);
    var stats :- Concat(processed);
    if v.dropOutcome then Drop(stats, DroppedOutcomeColumns) else Ok(stats)
  }

  /** The columns of `a` that `b` also has, in `a`'s order. */
  function CommonColumns(a: seq<string>, b: seq<string>): (common: seq<string>)
    ensures forall c :: c in common <==> c in a && c in b
  {
    Without(a, Without(a, b))
  }

  /** The main script's horizon combine: the span-50 table inner-merged with the span-25 and then the
      span-10 table, both times on the columns the first two share. */
  function CombineHorizons(p50: Frame, p25: Frame, p10: Frame): Result<Frame> {
    var common := CommonColumns(p50.columns, p25.columns);
    var m :- Merge(p50, p25, common, Inner);
    Merge(m, p10, common, Inner)
  }

  // ---------------------------------------------------------------------------------------------
  // The winner

  /** The winner is the home team exactly when its score is strictly greater; a tie, like a missing
      score, gives the away team. */
  lemma WinnerIsStrict(homePoints: Value, awayPoints: Value, home: Value, away: Value)
    requires home != away
    ensures Winner(homePoints, awayPoints, home, away) == home
            <==> homePoints.Num? && awayPoints.Num? && homePoints.n > awayPoints.n
    ensures Winner(homePoints, awayPoints, home, away) == away
            <==> !(homePoints.Num? && awayPoints.Num? && homePoints.n > awayPoints.n)
    ensures homePoints == awayPoints ==> Winner(homePoints, awayPoints, home, away) == away
  {
  }

  /** The winner column needs the four score columns; it is added row by row and nothing else changes. */
  lemma WithWinnerCorrect(games: Frame)
    ensures WithWinner(games).Ok? <==> forall c :: c in ScoreColumns ==> c in games.columns
    ensures var r := WithWinner(games);
      r.Ok? ==>
        && |r.value.rows| == |games.rows|
        && WinnerColumn in r.value.columns
        && (forall i :: 0 <= i < |games.rows| ==>
              var row := games.rows[i];
              Get(r.value.rows[i], WinnerColumn)
                == Winner(Get(row, HomePointsColumn), Get(row, AwayPointsColumn), Get(row, HomeTeamColumn), Get(row, AwayTeamColumn)))
        && (forall i, c :: 0 <= i < |games.rows| && c != WinnerColumn ==> Get(r.value.rows[i], c) == Get(games.rows[i], c))
  {
    var r := WithWinner(games);
    if r.Ok? {
      forall i | 0 <= i < |games.rows|
        ensures Get(r.value.rows[i], WinnerColumn) == Column(r.value, WinnerColumn)[i]
      {
      }
    }
  }

  // ---------------------------------------------------------------------------------------------
  // Which (gameId, teamTricode) keys survive the merges

  /** The one-column key of the game alone. */
  const GameKey: seq<string> := [GameIdColumn]

  /** The keys of a file's rows, none if the file is missing. */
  function FileKeys(store: Store, file: string, key: seq<string>): set<seq<Value>> {
    if file in store then KeySet(store[file].rows, key) else {}
  }

  /** The keys present in all five category files of a season. */
  function CategoryKeys(store: Store, season: string): set<seq<Value>> {
    FileKeys(store, AdvancedFile(season), MergeColumns)
    * FileKeys(store, TraditionalFile(season), MergeColumns)
    * FileKeys(store, HustleFile(season), MergeColumns)
    * FileKeys(store, MiscFile(season), MergeColumns)
    * FileKeys(store, TrackingFile(season), MergeColumns)
  }

  function InputKeys(inputs: SeasonInputs): set<seq<Value>> {
    KeySet(inputs.advanced.rows, MergeColumns) * KeySet(inputs.traditional.rows, MergeColumns)
    * KeySet(inputs.hustle.rows, MergeColumns) * KeySet(inputs.misc.rows, MergeColumns)
    * KeySet(inputs.tracking.rows, MergeColumns)
  }

  lemma SelectKeys(f: Frame, cols: seq<string>, key: seq<string>)
    requires Select(f, cols).Ok?
    requires forall c :: c in key ==> c in cols
    ensures KeySet(Select(f, cols).value.rows, key) == KeySet(f.rows, key)
  {
    KeySetSameCells(Select(f, cols).value.rows, f.rows, key);
  }

  /** A category table read through its column list has the (game, team) keys of its file. */
  lemma CategoryKeysOfFile(store: Store, file: string, cols: seq<string>)
    requires ReadCategory(store, file, cols).Ok?
    requires GameIdColumn in cols && TeamColumn in cols
    ensures KeySet(ReadCategory(store, file, cols).value.rows, MergeColumns) == FileKeys(store, file, MergeColumns)
  {
    SelectKeys(store[file], cols, MergeColumns);
  }

  lemma ReadSeasonKeys(store: Store, season: string)
    requires ReadSeason(store, season).Ok?
    ensures var inputs := ReadSeason(store, season).value;
      && InputKeys(inputs) == CategoryKeys(store, season)
      && GamesFile(season) in store
      && inputs.games == store[GamesFile(season)]
  {
    AllowListsHaveKey();
    CategoryKeysOfFile(store, AdvancedFile(season), AdvancedColumns);
    CategoryKeysOfFile(store, TraditionalFile(season), TraditionalColumns);
    CategoryKeysOfFile(store, HustleFile(season), HustleColumns);
    CategoryKeysOfFile(store, MiscFile(season), MiscColumns);
    CategoryKeysOfFile(store, TrackingFile(season), TrackingColumns);
  }


  /** Inner-merge survival: after the four merges and the de-duplication, a key is present exactly when
      it is present in all five category tables. */
  lemma MergeCategoriesKeys(inputs: SeasonInputs)
    requires MergeCategories(inputs).Ok?
    ensures KeySet(MergeCategories(inputs).value.rows, MergeColumns) == InputKeys(inputs)
  {
    var m1 := Merge(inputs.advanced, inputs.traditional, MergeColumns, Inner).value;
    InnerJoinIntersects(inputs.advanced, inputs.traditional, MergeColumns);
    var m2 := Merge(m1, inputs.hustle, MergeColumns, Inner).value;
    InnerJoinIntersects(m1, inputs.hustle, MergeColumns);
    var m3 := Merge(m2, inputs.misc, MergeColumns, Inner).value;
    InnerJoinIntersects(m2, inputs.misc, MergeColumns);
    var m4 := Merge(m3, inputs.tracking, MergeColumns, Inner).value;
    InnerJoinIntersects(m3, inputs.tracking, MergeColumns);
    assert forall c :: c in MergeColumns ==> c in m4.columns;
    DedupSubKeys(m4.rows, m4.columns, MergeColumns);
  }

  /** Every key of `rows` lies in `keys`. */
  lemma KeysWithin(rows: seq<Row>, key: seq<string>, keys: set<seq<Value>>)
    requires forall i :: 0 <= i < |rows| ==> KeyOf(rows[i], key) in keys
    ensures KeySet(rows, key) <= keys
  {
    forall k | k in KeySet(rows, key) ensures k in keys {
      KeySetMember(rows, key, k);
    }
  }

  lemma WithLeadTwice(keys: set<seq<Value>>, lead: set<seq<Value>>)
    ensures WithLead(WithLead(keys, lead), lead) == WithLead(keys, lead)
  {
  }

  /** Replacing the date text by the parsed date touches no key cell. */
  lemma DateStepKeys(m: Frame, dates: seq<Value>)
    requires |dates| == |m.rows|
    requires Drop(SetColumn(m, DateColumn, dates), [GameDateColumn]).Ok?
    ensures var out := Drop(SetColumn(m, DateColumn, dates), [GameDateColumn]).value;
      KeySet(out.rows, MergeColumns) == KeySet(m.rows, MergeColumns) && KeySet(out.rows, GameKey) == KeySet(m.rows, GameKey)
  {
    var out := Drop(SetColumn(m, DateColumn, dates), [GameDateColumn]).value;
    assert forall i, c :: 0 <= i < |out.rows| && c in MergeColumns ==> Get(out.rows[i], c) == Get(m.rows[i], c);
    KeySetSameCells(out.rows, m.rows, MergeColumns);
    KeySetSameCells(out.rows, m.rows, GameKey);
  }

  /** In a left join with the games' dates, a date that parses means the row found its game. */
  lemma LeftDateMatched(ls: seq<Row>, rs: seq<Row>, extra: seq<string>, m: Frame)
    requires GameDateColumn in extra && GameIdColumn !in extra
    requires m.rows == JoinRows(ls, rs, GameKey, extra, Left)
    requires ParseDates(Column(m, GameDateColumn)).Ok?
    ensures KeySet(m.rows, GameKey) <= KeySet(rs, GameKey)
  {
    forall i | 0 <= i < |m.rows| ensures KeyOf(m.rows[i], GameKey) in KeySet(rs, GameKey) {
      assert ParseDate(Column(m, GameDateColumn)[i]).Ok?;
      assert Get(m.rows[i], GameDateColumn) != Null;
      LeftJoinPresentMeansMatched(ls, rs, GameKey, extra, GameDateColumn, i);
    }
    KeysWithin(m.rows, GameKey, KeySet(rs, GameKey));
  }

  /** Attaching the date: a left join keeps every key and, because the date of an unmatched row cannot
      be parsed, a successful result has only games listed in the games table; an inner join keeps the
      keys whose game is listed there. */
  lemma AttachDateKeys(merged: Frame, games: Frame, how: How)
    requires AttachDate(merged, games, how).Ok?
    ensures var out := AttachDate(merged, games, how).value;
      && (how == Left ==> KeySet(out.rows, MergeColumns) == KeySet(merged.rows, MergeColumns)
                          && KeySet(out.rows, GameKey) <= KeySet(games.rows, GameKey))
      && (how == Inner ==> KeySet(out.rows, MergeColumns)
                           == WithLead(KeySet(merged.rows, MergeColumns), KeySet(games.rows, GameKey)))
  {
    var dated := Select(games, [GameIdColumn, GameDateColumn]).value;
    SelectKeys(games, [GameIdColumn, GameDateColumn], GameKey);
    var m := Merge(merged, dated, GameKey, how).value;
    var extra := Without(dated.columns, GameKey);
    assert m.rows == JoinRows(merged.rows, dated.rows, GameKey, extra, how);
    assert GameDateColumn in extra && GameIdColumn !in extra && TeamColumn !in extra;
    DateStepKeys(m, ParseDates(Column(m, GameDateColumn)).value);
    if how == Left {
      LeftJoinKeys(merged.rows, dated.rows, GameKey, extra, MergeColumns);
      LeftDateMatched(merged.rows, dated.rows, extra, m);
    } else {
      InnerJoinKeys(merged.rows, dated.rows, GameKey, extra, MergeColumns);
      assert MergeColumns[..1] == GameKey;
      SemiLeadKeys(merged.rows, MergeColumns, KeySet(dated.rows, GameKey));
    }
  }

  /** Row i after the date step: `date` holds the parsed cell, GAME_DATE is gone, every other cell stays. */
  lemma DateStepRow(m: Frame, dates: seq<Value>, i: int)
    requires |dates| == |m.rows| && 0 <= i < |m.rows|
    requires Drop(SetColumn(m, DateColumn, dates), [GameDateColumn]).Ok?
    ensures var row := Drop(SetColumn(m, DateColumn, dates), [GameDateColumn]).value.rows[i];
      && Get(row, DateColumn) == dates[i]
      && forall c :: c != DateColumn && c != GameDateColumn ==> Get(row, c) == Get(m.rows[i], c)
  {
    var f := SetColumn(m, DateColumn, dates);
    assert Get(f.rows[i], DateColumn) == Column(f, DateColumn)[i];
  }

  /**
   * The date a box score receives is its own game's: every row of the dated table carries the cells of
   * one input row, and its `date` is the parsed GAME_DATE of a games row with the same gameId (in a left
   * join an unmatched row has no GAME_DATE, which cannot be parsed, so it never reaches the result).
   */
  lemma AttachDateFromGames(merged: Frame, games: Frame, how: How, i: int)
    requires AttachDate(merged, games, how).Ok?
    requires 0 <= i < |AttachDate(merged, games, how).value.rows|
    ensures var row := AttachDate(merged, games, how).value.rows[i];
      exists j :: 0 <= j < |games.rows| && Get(games.rows[j], GameIdColumn) == Get(row, GameIdColumn)
                  && ParseDate(Get(games.rows[j], GameDateColumn)) == Ok(Get(row, DateColumn))
    ensures var row := AttachDate(merged, games, how).value.rows[i];
      exists p :: 0 <= p < |merged.rows| && forall c :: c in merged.columns && c != DateColumn ==> Get(row, c) == Get(merged.rows[p], c)
  {
    var dated := Select(games, [GameIdColumn, GameDateColumn]).value;
    var m := Merge(merged, dated, GameKey, how).value;
    var dates := ParseDates(Column(m, GameDateColumn)).value;
    var row := AttachDate(merged, games, how).value.rows[i];
    assert row == Drop(SetColumn(m, DateColumn, dates), [GameDateColumn]).value.rows[i];
    DateStepRow(m, dates, i);
    DateNamesDiffer();
    assert GameDateColumn !in merged.columns;
    assert Ok(dates[i]) == ParseDate(Get(m.rows[i], GameDateColumn)) by {
      assert Column(m, GameDateColumn)[i] == Get(m.rows[i], GameDateColumn);
    }
    MergeRowOrigin(merged, dated, GameKey, how, i);
    var p :| 0 <= p < |merged.rows| && Agrees(m.rows[i], merged.rows[p], merged.columns)
             && (|| (exists q :: 0 <= q < |dated.rows| && KeyOf(merged.rows[p], GameKey) == KeyOf(dated.rows[q], GameKey)
                                  && Agrees(m.rows[i], dated.rows[q], dated.columns))
                 || (how == Left && KeyOf(merged.rows[p], GameKey) !in KeySet(dated.rows, GameKey)
                     && forall c :: c in dated.columns && c !in GameKey ==> Get(m.rows[i], c) == Null));
    if exists q :: 0 <= q < |dated.rows| && KeyOf(merged.rows[p], GameKey) == KeyOf(dated.rows[q], GameKey)
                   && Agrees(m.rows[i], dated.rows[q], dated.columns) {
      var q :| 0 <= q < |dated.rows| && KeyOf(merged.rows[p], GameKey) == KeyOf(dated.rows[q], GameKey)
               && Agrees(m.rows[i], dated.rows[q], dated.columns);
      assert Get(games.rows[q], GameIdColumn) == Get(row, GameIdColumn);
      assert ParseDate(Get(games.rows[q], GameDateColumn)) == Ok(Get(row, DateColumn));
    } else {
      assert false;
    }
  }

  /**
   * The outcome a box score receives is its own game's: every row carries the cells of one dated row and
   * either the winner and team codes of a games row with the same gameId, or, in a left join only,
   * missing outcome cells.
   */
  lemma AttachOutcomeFromGames(withDate: Frame, games: Frame, how: How, i: int)
    requires AttachOutcome(withDate, games, how).Ok?
    requires 0 <= i < |AttachOutcome(withDate, games, how).value.rows|
    ensures var row := AttachOutcome(withDate, games, how).value.rows[i];
      || (exists j :: 0 <= j < |games.rows| && Get(games.rows[j], GameIdColumn) == Get(row, GameIdColumn)
           && Get(row, WinnerColumn) == Winner(Get(games.rows[j], HomePointsColumn), Get(games.rows[j], AwayPointsColumn),
                                                Get(games.rows[j], HomeTeamColumn), Get(games.rows[j], AwayTeamColumn))
           && Get(row, HomeTeamColumn) == Get(games.rows[j], HomeTeamColumn)
           && Get(row, AwayTeamColumn) == Get(games.rows[j], AwayTeamColumn))
      || (how == Left && Get(row, WinnerColumn) == Null && Get(row, HomeTeamColumn) == Null
          && Get(row, AwayTeamColumn) == Null)
  {
    var outcome := Select(WithWinner(games).value, OutcomeColumns).value;
    var row := AttachOutcome(withDate, games, how).value.rows[i];
    assert row == Merge(withDate, outcome, GameKey, how).value.rows[i];
    MergeRightCells(withDate, outcome, GameKey, how, i);
    if exists q :: 0 <= q < |outcome.rows| && Agrees(row, outcome.rows[q], outcome.columns) {
      var q :| 0 <= q < |outcome.rows| && Agrees(row, outcome.rows[q], outcome.columns);
      OutcomeRow(games, q, row);
    } else {
      OutcomeNamesDiffer();
      assert outcome.columns == OutcomeColumns;
    }
  }

  /** Every row after the outcome join carries all cells of one dated row. */
  lemma AttachOutcomeKeepsRow(withDate: Frame, games: Frame, how: How, i: int)
    requires AttachOutcome(withDate, games, how).Ok?
    requires 0 <= i < |AttachOutcome(withDate, games, how).value.rows|
    ensures var row := AttachOutcome(withDate, games, how).value.rows[i];
      exists p :: 0 <= p < |withDate.rows| && Agrees(row, withDate.rows[p], withDate.columns)
  {
    var outcome := Select(WithWinner(games).value, OutcomeColumns).value;
    assert AttachOutcome(withDate, games, how) == Merge(withDate, outcome, GameKey, how);
    MergeRowOrigin(withDate, outcome, GameKey, how, i);
  }

  /** A row agreeing with row q of the selected outcome table holds games row q's gameId, winner and codes. */
  lemma OutcomeRow(games: Frame, q: int, row: Row)
    requires WithWinner(games).Ok? && Select(WithWinner(games).value, OutcomeColumns).Ok?
    requires 0 <= q < |Select(WithWinner(games).value, OutcomeColumns).value.rows|
    requires Agrees(row, Select(WithWinner(games).value, OutcomeColumns).value.rows[q], OutcomeColumns)
    ensures 0 <= q < |games.rows| && Get(games.rows[q], GameIdColumn) == Get(row, GameIdColumn)
    ensures Get(row, WinnerColumn) == Winner(Get(games.rows[q], HomePointsColumn), Get(games.rows[q], AwayPointsColumn),
                                             Get(games.rows[q], HomeTeamColumn), Get(games.rows[q], AwayTeamColumn))
    ensures Get(row, HomeTeamColumn) == Get(games.rows[q], HomeTeamColumn)
    ensures Get(row, AwayTeamColumn) == Get(games.rows[q], AwayTeamColumn)
  {
    WithWinnerCorrect(games);
    OutcomeNamesDiffer();
  }

  /** The dated table has the `date` column, and keeps gameId, which the merge required. */
  lemma AttachDateColumns(merged: Frame, games: Frame, how: How)
    requires AttachDate(merged, games, how).Ok?
    ensures DateColumn in AttachDate(merged, games, how).value.columns
    ensures GameIdColumn in AttachDate(merged, games, how).value.columns
  {
    var dated := Select(games, [GameIdColumn, GameDateColumn]).value;
    var m := Merge(merged, dated, GameKey, how).value;
    var dates := ParseDates(Column(m, GameDateColumn)).value;
    DateNamesDiffer();
    assert GameIdColumn in m.columns;
    assert AttachDate(merged, games, how) == Drop(SetColumn(m, DateColumn, dates), [GameDateColumn]);
  }

  /** Every row of the (possibly de-duplicated) season table is a row of the outcome join. */
  lemma SeasonTableRow(table: Frame, v: Variant, i: int)
    requires (if v.keyDedup then DropDuplicates(table, MergeColumns) else Ok(table)).Ok?
    requires 0 <= i < |(if v.keyDedup then DropDuplicates(table, MergeColumns) else Ok(table)).value.rows|
    ensures var out := (if v.keyDedup then DropDuplicates(table, MergeColumns) else Ok(table)).value.rows;
      exists k :: 0 <= k < |table.rows| && table.rows[k] == out[i]
  {
    if v.keyDedup {
      DropDuplicatesKeepsFirst(table, MergeColumns);
    } else {
      assert table.rows[i] == table.rows[i];
    }
  }

  /**
   * Every row of a season table carries the date of its own game: a row of the season's games file with
   * the same gameId whose GAME_DATE parses to the row's `date`.
   */
  lemma SeasonTableDates(store: Store, season: string, v: Variant, i: int)
    requires SeasonTable(store, season, v).Ok?
    requires 0 <= i < |SeasonTable(store, season, v).value.rows|
    ensures ReadSeason(store, season).Ok?
    ensures var games := ReadSeason(store, season).value.games;
      var row := SeasonTable(store, season, v).value.rows[i];
      exists j :: 0 <= j < |games.rows| && Get(games.rows[j], GameIdColumn) == Get(row, GameIdColumn)
                  && ParseDate(Get(games.rows[j], GameDateColumn)) == Ok(Get(row, DateColumn))
  {
    var inputs := ReadSeason(store, season).value;
    var merged := MergeCategories(inputs).value;
    var withDate := AttachDate(merged, inputs.games, v.how).value;
    var table := AttachOutcome(withDate, inputs.games, v.how).value;
    var row := SeasonTable(store, season, v).value.rows[i];
    assert SeasonTable(store, season, v) == if v.keyDedup then DropDuplicates(table, MergeColumns) else Ok(table);
    SeasonTableRow(table, v, i);
    var k :| 0 <= k < |table.rows| && table.rows[k] == row;
    AttachOutcomeKeepsRow(withDate, inputs.games, v.how, k);
    var p :| 0 <= p < |withDate.rows| && Agrees(row, withDate.rows[p], withDate.columns);
    AttachDateColumns(merged, inputs.games, v.how);
    assert Get(row, DateColumn) == Get(withDate.rows[p], DateColumn);
    assert Get(row, GameIdColumn) == Get(withDate.rows[p], GameIdColumn);
    AttachDateFromGames(merged, inputs.games, v.how, p);
  }

  // ---------------------------------------------------------------------------------------------
  // Every season table is ready for the per-team transform

  lemma SelectPrepared(f: Frame, cols: seq<string>)
    requires Distinct(cols) && NoAvgNames(cols) && Select(f, cols).Ok?
    ensures Prepared(Select(f, cols).value)
  {
  }

  lemma MergePrepared(l: Frame, r: Frame, on: seq<string>, how: How)
    requires Prepared(l) && Prepared(r) && Merge(l, r, on, how).Ok?
    ensures Prepared(Merge(l, r, on, how).value)
  {
    MergeWellFormed(l, r, on, how);
  }

  /** The five category tables are selected with lists of distinct names, none of them an average. */
  lemma ReadSeasonPrepared(store: Store, season: string)
    requires ReadSeason(store, season).Ok?
    ensures var inputs := ReadSeason(store, season).value;
      && Prepared(inputs.advanced) && Prepared(inputs.traditional) && Prepared(inputs.hustle)
      && Prepared(inputs.misc) && Prepared(inputs.tracking)
  {
    AdvancedDistinct();
    AdvancedNotAveraged();
    ReadCategoryPrepared(store, AdvancedFile(season), AdvancedColumns);
    TraditionalDistinct();
    TraditionalNotAveraged();
    ReadCategoryPrepared(store, TraditionalFile(season), TraditionalColumns);
    HustleDistinct();
    HustleNotAveraged();
    ReadCategoryPrepared(store, HustleFile(season), HustleColumns);
    MiscDistinct();
    MiscNotAveraged();
    ReadCategoryPrepared(store, MiscFile(season), MiscColumns);
    TrackingDistinct();
    TrackingNotAveraged();
    ReadCategoryPrepared(store, TrackingFile(season), TrackingColumns);
  }

  lemma ReadCategoryPrepared(store: Store, file: string, cols: seq<string>)
    requires Distinct(cols) && NoAvgNames(cols)
    ensures ReadCategory(store, file, cols).Ok? ==> Prepared(ReadCategory(store, file, cols).value)
  {
  }

  lemma MergeCategoriesPrepared(inputs: SeasonInputs)
    requires Prepared(inputs.advanced) && Prepared(inputs.traditional) && Prepared(inputs.hustle)
    requires Prepared(inputs.misc) && Prepared(inputs.tracking)
    requires MergeCategories(inputs).Ok?
    ensures Prepared(MergeCategories(inputs).value)
  {
    var m1 := Merge(inputs.advanced, inputs.traditional, MergeColumns, Inner).value;
    MergePrepared(inputs.advanced, inputs.traditional, MergeColumns, Inner);
    var m2 := Merge(m1, inputs.hustle, MergeColumns, Inner).value;
    MergePrepared(m1, inputs.hustle, MergeColumns, Inner);
    var m3 := Merge(m2, inputs.misc, MergeColumns, Inner).value;
    MergePrepared(m2, inputs.misc, MergeColumns, Inner);
    var m4 := Merge(m3, inputs.tracking, MergeColumns, Inner).value;
    MergePrepared(m3, inputs.tracking, MergeColumns, Inner);
    DropDuplicatesWellFormed(m4, m4.columns);
  }

  lemma AttachDatePrepared(merged: Frame, games: Frame, how: How)
    requires Prepared(merged) && AttachDate(merged, games, how).Ok?
    ensures Prepared(AttachDate(merged, games, how).value)
  {
    var dated := Select(games, [GameIdColumn, GameDateColumn]).value;
    DateNamesDiffer();
    SourceColumnsNotAveraged();
    SelectPrepared(games, [GameIdColumn, GameDateColumn]);
    var m := Merge(merged, dated, GameKey, how).value;
    MergePrepared(merged, dated, GameKey, how);
    var dates := ParseDates(Column(m, GameDateColumn)).value;
    var f := SetColumn(m, DateColumn, dates);
    assert DateColumn in [DateColumn];
    assert Prepared(f);
    assert AttachDate(merged, games, how) == Drop(f, [GameDateColumn]);
  }

  lemma AttachOutcomePrepared(withDate: Frame, games: Frame, how: How)
    requires Prepared(withDate) && AttachOutcome(withDate, games, how).Ok?
    ensures Prepared(AttachOutcome(withDate, games, how).value)
  {
    var outcome := Select(WithWinner(games).value, OutcomeColumns).value;
    OutcomeNamesDiffer();
    SourceColumnsNotAveraged();
    SelectPrepared(WithWinner(games).value, OutcomeColumns);
    MergePrepared(withDate, outcome, GameKey, how);
  }

  /**
   * Every season table meets the per-team transform's assumptions: well formed, and no column already
   * named like a running average. PreprocessIsPerTeam, TeamIndependence and ProcessGroupNoLookAhead
   * therefore apply to the tables both preprocessors build.
   */
  lemma SeasonTablePrepared(store: Store, season: string, v: Variant)
    requires SeasonTable(store, season, v).Ok?
    ensures Prepared(SeasonTable(store, season, v).value)
  {
    var inputs := ReadSeason(store, season).value;
    ReadSeasonPrepared(store, season);
    var merged := MergeCategories(inputs).value;
    MergeCategoriesPrepared(inputs);
    var withDate := AttachDate(merged, inputs.games, v.how).value;
    AttachDatePrepared(merged, inputs.games, v.how);
    var table := AttachOutcome(withDate, inputs.games, v.how).value;
    AttachOutcomePrepared(withDate, inputs.games, v.how);
    if v.keyDedup {
      DropDuplicatesWellFormed(table, MergeColumns);
    }
  }

  /** The games table keeps its game identifiers through the winner column and the selection. */
  lemma OutcomeGameKeys(games: Frame)
    requires WithWinner(games).Ok? && Select(WithWinner(games).value, OutcomeColumns).Ok?
    ensures KeySet(Select(WithWinner(games).value, OutcomeColumns).value.rows, GameKey) == KeySet(games.rows, GameKey)
  {
    WithWinnerCorrect(games);
    var decided := WithWinner(games).value;
    SelectKeys(decided, OutcomeColumns, GameKey);
    KeySetSameCells(decided.rows, games.rows, GameKey);
  }

  /** Attaching the outcome: a left join keeps every key, an inner join the keys whose game is listed in
      the games table. */
  lemma AttachOutcomeKeys(withDate: Frame, games: Frame, how: How)
    requires AttachOutcome(withDate, games, how).Ok?
    ensures var out := AttachOutcome(withDate, games, how).value;
      && (how == Left ==> KeySet(out.rows, MergeColumns) == KeySet(withDate.rows, MergeColumns)
                          && KeySet(out.rows, GameKey) == KeySet(withDate.rows, GameKey))
      && (how == Inner ==> KeySet(out.rows, MergeColumns)
                           == WithLead(KeySet(withDate.rows, MergeColumns), KeySet(games.rows, GameKey)))
  {
    var outcome := Select(WithWinner(games).value, OutcomeColumns).value;
    OutcomeGameKeys(games);
    var extra := Without(outcome.columns, GameKey);
    assert GameIdColumn !in extra && TeamColumn !in extra;
    if how == Left {
      LeftJoinKeys(withDate.rows, outcome.rows, GameKey, extra, MergeColumns);
      LeftJoinKeys(withDate.rows, outcome.rows, GameKey, extra, GameKey);
    } else {
      InnerJoinKeys(withDate.rows, outcome.rows, GameKey, extra, MergeColumns);
      assert MergeColumns[..1] == GameKey;
      SemiLeadKeys(withDate.rows, MergeColumns, KeySet(outcome.rows, GameKey));
    }
  }

  /** The season table of the left-join variant with the final de-duplication: the (game, team) keys
      are exactly those present in all five category files, each appears once, and every game is one
      the season's games file lists. */
  lemma LeftSeasonTableKeys(store: Store, season: string, v: Variant)
    requires v.how == Left && v.keyDedup
    requires SeasonTable(store, season, v).Ok?
    ensures var t := SeasonTable(store, season, v).value;
      && KeySet(t.rows, MergeColumns) == CategoryKeys(store, season)
      && (forall i, j :: 0 <= i < j < |t.rows| ==> KeyOf(t.rows[i], MergeColumns) != KeyOf(t.rows[j], MergeColumns))
      && KeySet(t.rows, GameKey) <= FileKeys(store, GamesFile(season), GameKey)
  {
    var inputs := ReadSeason(store, season).value;
    ReadSeasonKeys(store, season);
    var merged := MergeCategories(inputs).value;
    MergeCategoriesKeys(inputs);
    var withDate := AttachDate(merged, inputs.games, Left).value;
    AttachDateKeys(merged, inputs.games, Left);
    var table := AttachOutcome(withDate, inputs.games, Left).value;
    AttachOutcomeKeys(withDate, inputs.games, Left);
    DropDuplicatesKeepsFirst(table, MergeColumns);
    DedupSubKeys(table.rows, MergeColumns, GameKey);
  }

  /** The season table of the inner-join variant: the (game, team) keys are exactly those present in all
      five category files whose game the season's games file lists. */
  lemma InnerSeasonTableKeys(store: Store, season: string, v: Variant)
    requires v.how == Inner
    requires SeasonTable(store, season, v).Ok?
    ensures KeySet(SeasonTable(store, season, v).value.rows, MergeColumns)
         == WithLead(CategoryKeys(store, season), FileKeys(store, GamesFile(season), GameKey))
  {
    var inputs := ReadSeason(store, season).value;
    ReadSeasonKeys(store, season);
    var merged := MergeCategories(inputs).value;
    MergeCategoriesKeys(inputs);
    var withDate := AttachDate(merged, inputs.games, Inner).value;
    AttachDateKeys(merged, inputs.games, Inner);
    var table := AttachOutcome(withDate, inputs.games, Inner).value;
    AttachOutcomeKeys(withDate, inputs.games, Inner);
    WithLeadTwice(CategoryKeys(store, season), KeySet(inputs.games.rows, GameKey));
    if v.keyDedup {
      DedupSubKeys(table.rows, MergeColumns, MergeColumns);
    }
  }

  // ---------------------------------------------------------------------------------------------
  // The final tables

  /** The older variant leaves the outcome columns out of its team table. */
  lemma TeamStatsDropsOutcome(store: Store, seasons: seq<string>, v: Variant, span: int, shift: int)
    requires v.dropOutcome
    requires TeamStatsSpec(store, seasons, v, span, shift).Ok?
    ensures forall c :: c in DroppedOutcomeColumns ==> c !in TeamStatsSpec(store, seasons, v, span, shift).value.columns
  {
  }

  /** The horizon combine keeps a row combination exactly when its shared cells occur in all three tables. */
  lemma CombineHorizonsKeys(p50: Frame, p25: Frame, p10: Frame)
    requires CombineHorizons(p50, p25, p10).Ok?
    ensures var common := CommonColumns(p50.columns, p25.columns);
      KeySet(CombineHorizons(p50, p25, p10).value.rows, common)
        == KeySet(p50.rows, common) * KeySet(p25.rows, common) * KeySet(p10.rows, common)
  {
    var common := CommonColumns(p50.columns, p25.columns);
    InnerJoinIntersects(p50, p25, common);
    InnerJoinIntersects(Merge(p50, p25, common, Inner).value, p10, common);
  }

  // ---------------------------------------------------------------------------------------------
  // Failure of a prefix is failure of the whole: the loops over the seasons stop at the first error

  lemma {:induction false} ReadGamesPrefixErr(store: Store, seasons: seq<string>, n: int)
    requires 0 <= n <= |seasons| && ReadGames(store, seasons[..n]).Err?
    ensures ReadGames(store, seasons) == ReadGames(store, seasons[..n])
    decreases |seasons|
  {
    if n < |seasons| {
      var init := seasons[..|seasons| - 1];
      assert init[..n] == seasons[..n];
      ReadGamesPrefixErr(store, init, n);
    } else {
      assert seasons[..n] == seasons;
    }
  }

  lemma {:induction false} ProcessSeasonsPrefixErr(store: Store, seasons: seq<string>, n: int, v: Variant, span: int, shift: int)
    requires 0 <= n <= |seasons| && ProcessSeasons(store, seasons[..n], v, span, shift).Err?
    ensures ProcessSeasons(store, seasons, v, span, shift) == ProcessSeasons(store, seasons[..n], v, span, shift)
    decreases |seasons|
  {
    if n < |seasons| {
      var init := seasons[..|seasons| - 1];
      assert init[..n] == seasons[..n];
      ProcessSeasonsPrefixErr(store, init, n, v, span, shift);
    } else {
      assert seasons[..n] == seasons;
    }
  }
}
