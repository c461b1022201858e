# NBA team-feature preprocessor, modelled in Dafny

This project models the two `Preprocessor` classes of an NBA game-prediction pipeline:

- `preprocessing.py`, the older one;
- `preproccessing_new.py`, the newer one.

Each preprocessor does the following for every season:

1. Reads the games file and five box-score category files (advanced, traditional, hustle, misc and tracking).
2. Inner-merges the five category tables on (gameId, teamTricode).
3. Attaches each game's date and outcome: the winner's code and the home and away codes.
4. Splits the table by team. For every statistic outside an exclusion list, it replaces the statistic by an exponentially weighted running average, shifted by `shift` games.
5. Concatenates the seasons.

Both main scripts then inner-merge the span-50, span-25 and span-10 tables on their shared columns.

The model works on exact values.

- **Tables.** A cell is missing, a number (`real`), a text or a calendar date. A row maps column names to cells. A table is a column list plus rows.
- **pandas operations.** Each operation the source uses becomes a function with its error cases as `Result` values: read, select, drop, merge, `drop_duplicates`, `groupby`, `concat`, `expanding().count()`, `shift`, `fillna`, `diff().dt.days`, `ewm(span, min_periods=1).mean()`, and `int()` / `date()` parsing.
- **Pipelines.** Each source file's pipeline is a specification function over a map from file names to tables. The two differences between the files are parameters of that function:

  | | `preprocessing.py` | `preproccessing_new.py` |
  |---|---|---|
  | join with the games table | left | inner |
  | final de-duplication on (gameId, teamTricode) | yes | no |
  | exclusion list | 16 names | 10 names plus the 17 percentage columns |
  | winner and home/away columns at the end | dropped | kept |

- **Classes.** Each `Preprocessor` is a Dafny class with the fields `games` and `teamStats`. Its loop methods update those fields as the Python attributes are assigned, and each method is proved equal to its specification function.

What is proved:

- the shape of every derived column (game count, days between games, playoff flag and running averages);
- that a running average uses only games at least `shift` rows earlier;
- that each team's output depends only on that team's rows;
- which (game, team) keys survive the merges in each variant;
- the round trips of the minute and date parsers;
- that every merged row carries the cells of one left row and of its partner on the right, so each box score receives its own game's date and outcome;
- that every season table is well formed, as the per-team transform assumes.

Module layout:

- `values.dfy`: cells, rows, tables and errors.
- `calendar.dfy`: proleptic Gregorian dates.
- `parsing.dfy`: `int()`, `str.split`, minutes and dates.
- `series.dfy`: column-level pandas operations.
- `grouping.dfy`: sorted `groupby` keys.
- `frames.dfy`: table operations.
- `joins.dfy`: `pd.merge`.
- `features.dfy`: the per-team transform.
- `schema.dfy`: column lists and file names.
- `pipeline.dfy`: the season pipeline, the winner and the horizon combine.
- `preprocessing.dfy` and `preprocessing_new.dfy`: the two classes.

Behaviour of the code worth noting:

- **Percentage columns in the newer file.** They are excluded from averaging but are not dropped. The output keeps the team's raw values from that same game (`Features.ProcessGroupKeeps`, `PreprocessingNew.PercentagesPassThrough`).
- **Percentage columns in the older file.** Its list of percentage columns is never used, so they are averaged like any other statistic.
- **Ties.** A tie, or a missing score, makes the away team the winner.
- **De-duplication in the newer file.** There is no (game, team) de-duplication. There is only the whole-row `drop_duplicates()` after the category merges.
- **Row order of merges.** A merged table lists its rows in the order of the left table, each left row followed by its partners in right-table order, as `pd.merge` does for inner and left joins since pandas 2.2. The order of a team's rows, and so `game_count` and the running averages, follow from it.

## Model

| member | source | states |
|---|---|---|
| Parsing.ConvertMinutesToFloat | preprocessing.py:6-13 | a non-text value is returned unchanged; text without ':' gives 0; a successful conversion of text with ':' has exactly one colon and gives a number |
| Parsing.MinutesRoundTrip | preprocessing.py:9-11 | "m:s" written from two integers converts to m + s/60 |
| Parsing.MinutesTooManyColons | preprocessing.py:10 | text with two or more colons fails the two-way unpacking |
| Parsing.MinutesExample | preprocessing.py:6-13 | "12:30" converts to 12.5 |
| Parsing.MinutesParts | preprocessing.py:9-11 | text a + ":" + b, with no colon in a or b, converts exactly when `int()` accepts both a and b, and then gives int(a) + int(b)/60 |
| Parsing.ParsesDigits | preprocessing.py:10 | `int()` of a run of ASCII digits, leading zeros included, is the number the digits spell |
| Parsing.MinutesZeroPadded | preprocessing.py:9-11 | the zero-padded "34:07" converts to 34 + 7/60 |
| Parsing.MinutesBadSeconds | preprocessing.py:10 | "12:3x" fails, as `int("3x")` raises |
| Parsing.IntRoundTrip | preprocessing.py:10 | `int()` of the decimal text of n gives back n |
| Parsing.ParseDate | preprocessing.py:37-39 | a successful parse is a valid calendar date; a missing (non-text) cell fails, as `x.split` does on NaN |
| Parsing.DateRoundTrip | preprocessing.py:37-39 | the ISO text of a valid date parses back to that date |
| Parsing.ParseDates | preprocessing.py:37-39 | the column parses when and only when every cell does, and then cell by cell |
| Calendar.OrdinalOrder | preprocessing.py:212 | day numbers order dates exactly as the calendar does and are equal only for equal dates |
| Series.GameCountAt | preprocessing.py:209-211 | row i holds the number of present game ids in rows 0..i-shift, and 0 when that range is empty |
| Series.GameCountOfPresentIds | preprocessing.py:209-211 | with every id present, row i holds max(i+1-shift, 0) |
| Series.PlayoffIff | preprocessing.py:213 | the playoff flag is 1 exactly when game_count > 82 and 0 exactly when it is not |
| Series.PlayoffOfPresentIds | preprocessing.py:213 | with every id present, the flag is 1 exactly when i+1-shift > 82 |
| Series.DaysBetweenAt | preprocessing.py:212 | the first row is missing; otherwise the difference of day numbers, positive exactly when the earlier row's date is earlier and zero exactly when the dates are equal |
| Series.RunningAverage | preprocessing.py:268-270 | succeeds exactly when span >= 1 and every cell is numeric or missing, and keeps the length |
| Series.RunningAverageAt | preprocessing.py:268-270 | row i is the exponentially weighted mean of rows 0..i-shift, and missing when i < shift |
| Series.RunningAverageNoLookAhead | preprocessing.py:268-270 | with shift >= 1, row i depends only on rows 0..i-shift: two columns that agree there give the same row i |
| Series.EwmMissingIff | preprocessing.py:269 | the weighted mean is missing exactly when no number has been seen (min_periods=1) |
| Series.EwmWithinRange | preprocessing.py:269 | the weighted mean lies between any bounds of the values seen |
| Series.RunningAverageExample | preprocessing.py:269 | [10, 20, 30] with span 2 and shift 1 gives [missing, 10, 17.5] |
| Grouping.SortedDistinctCorrect | preprocessing.py:206 | the group keys are strictly sorted and are exactly the non-missing values |
| Grouping.GroupKeysCorrect | preprocessing.py:206 | the teams iterated are strictly sorted and are exactly the non-missing team codes of the table |
| Grouping.LessTotal | preprocessing.py:206 | the key order is total on distinct values |
| Grouping.LessTransitive | preprocessing.py:206 | the key order is transitive |
| Frames.Select | preprocessing.py:46-73 | `df[cols]` succeeds exactly when every column exists, and keeps every row's cells in those columns |
| Frames.Drop | preprocessing.py:173 | `drop(columns=...)` succeeds exactly when every column exists; it removes them and keeps every other cell |
| Frames.SetColumn | preprocessing.py:170-172 | assigning a column gives it the new values, keeps every other cell, and appends the name only when it is new |
| Frames.Concat | preprocessing.py:201 | `pd.concat` fails exactly on an empty list |
| Frames.ConcatSameColumns | preprocessing.py:219 | tables with the same columns concatenate to their rows in order |
| Frames.DropDuplicatesKeepsFirst | preprocessing.py:195 | after de-duplication each key occurs once, the set of keys is unchanged, and every kept row is the first row with its key |
| Frames.DedupSubKeys | preprocessing.py:165 | whole-row de-duplication keeps the set of keys over any subset of the columns |
| Frames.KeySetSameCells | preprocessing.py:173 | tables that agree cell by cell on the key columns have the same keys |
| Joins.Merge | preprocessing.py:161 | a merge succeeds exactly when the key columns are on both sides and no other name is shared; its columns are the left ones followed by the right non-key ones |
| Joins.InnerJoinIntersects | preprocessing.py:161-164 | the keys of an inner merge are the keys present on both sides |
| Joins.InnerJoinKeys | preprocessing.py:161-164 | an inner merge keeps exactly the left rows whose join key the right side has |
| Joins.LeftJoinKeys | preprocessing.py:167-169 | a left merge keeps the keys of the left side over any columns of the left side |
| Joins.LeftJoinPresentMeansMatched | preprocessing.py:167-169 | a non-missing right-side cell in a left-merge row means its join key was found on the right |
| Joins.JoinRowOrigin | preprocessing.py:161-169 | every joined row combines a left row with a right row of the same key or, in a left join only, an unmatched left row with missing right cells |
| Joins.MergeRowOrigin | preprocessing.py:161-169 | every merged row holds all cells of one left row, and either all cells of a right row with the same key or, in a left join whose key the right side lacks, missing right non-key cells |
| Joins.MergeWellFormed | preprocessing.py:161-169 | a merge of well-formed tables has distinct columns, and every row has exactly those columns |
| Joins.SemiLeadKeys | preproccessing_new.py:156-158 | filtering on gameId keeps exactly the (game, team) keys whose game is listed |
| Features.RunningAvgNameInjective | preprocessing.py:266 | distinct columns get distinct running-average names |
| Features.RunningAvgNameHasPrefix | preprocessing.py:266 | every running-average name starts with "running_avg_" |
| Features.WithSeriesColumnsCorrect | preprocessing.py:209-213 | fails exactly when gameId or date is missing; otherwise adds game_count, time_between_games and playoff as the series functions give them and changes no other cell |
| Features.RunningAveragesOfCorrect | preprocessing.py:241-271 | the averaged columns are replaced by their running-average columns in order, the excluded columns keep their cells, and the result is well formed |
| Features.ProcessGroupAverage | preprocessing.py:264-270 | every averaged column of a team's group gets a column holding its running average |
| Features.ProcessGroupKeeps | preproccessing_new.py:227-250 | an excluded column other than the derived ones leaves unchanged, and no running average is made for it |
| Features.ProcessGroupNoLookAhead | preprocessing.py:268-270 | in a team's output, row i of a running-average column is missing when i < shift, and otherwise depends only on the group's rows 0..i-shift |
| Features.PreprocessIsPerTeam | preprocessing.py:204-219 | each team's rows in the output are exactly that team's group processed alone |
| Features.TeamIndependence | preprocessing.py:206-219 | changing other teams' rows does not change a team's output rows |
| Schema.ExclusionListsKeepDerived | preprocessing.py:245-262 | both exclusion lists name teamTricode and the three derived columns |
| Schema.PercentagesAveragedByOld | preprocessing.py:222-263 | no percentage column is on the older exclusion list |
| Pipeline.ReadGames | preprocessing.py:32-35 | reading succeeds exactly when every season's games file exists, and gives them in season order |
| Pipeline.ParseGameDates | preprocessing.py:37-39 | succeeds exactly when GAME_DATE exists and every cell of it parses; GAME_DATE is then replaced row by row by its parsed date and every other cell is kept |
| Pipeline.WinnerIsStrict | preprocessing.py:175-179 | the home team wins exactly when both scores are numbers and the home score is strictly greater; a tie goes to the away team |
| Pipeline.WithWinnerCorrect | preprocessing.py:175-179 | the winner column succeeds exactly when the four score columns exist, is computed row by row, and changes no other cell |
| Pipeline.ReadSeasonKeys | preprocessing.py:45-158 | the selected category tables have the keys of their files |
| Pipeline.MergeCategoriesKeys | preprocessing.py:160-165 | after the four inner merges and `drop_duplicates()`, the keys are exactly those in all five category tables |
| Pipeline.AttachDateKeys | preprocessing.py:167-173 | the left join keeps every key and a successful date parse means every game is in the games table; the inner join keeps the keys whose game is listed |
| Pipeline.AttachOutcomeKeys | preprocessing.py:181-193 | the left join keeps the keys; the inner join keeps those whose game is listed |
| Pipeline.AttachDateFromGames | preprocessing.py:167-173 | every dated row carries the cells of one input row, and its `date` is the parsed GAME_DATE of a games row with the same gameId |
| Pipeline.AttachOutcomeFromGames | preprocessing.py:175-193 | every row's winner and home/away codes are those of a games row with the same gameId, the winner computed from that row's scores; only a left join leaves them missing |
| Pipeline.AttachOutcomeKeepsRow | preprocessing.py:181-193 | every row after the outcome join carries all cells of one dated row |
| Pipeline.SeasonTableDates | preprocessing.py:160-195 | every row of a season table has the date of a games-file row with its own gameId |
| Pipeline.SeasonTablePrepared | preprocessing.py:160-197 | every season table is well formed and has no column named like a running average, so the per-team properties apply to it |
| Pipeline.LeftSeasonTableKeys | preprocessing.py:160-195 | the older season table has exactly the keys in all five category files, each once, and only games from the games file |
| Pipeline.InnerSeasonTableKeys | preproccessing_new.py:149-183 | the newer season table has exactly the keys in all five category files whose game the games file lists |
| Pipeline.TeamStatsDropsOutcome | preprocessing.py:202 | the older team table has no winner or home/away column |
| Pipeline.CommonColumns | preprocessing.py:286-288 | the common columns are exactly the names in both tables |
| Pipeline.CombineHorizonsKeys | preprocessing.py:290-295 | the combined table's common-column keys are those in all three horizon tables |
| Preprocessing.Preprocessor.Empty | preprocessing.py:19-23 | a new object starts with empty games and team tables |
| Preprocessing.Preprocessor.New | preprocessing.py:18-29 | construction succeeds exactly when both loads do, and then holds the games table and the team table of the specification |
| Preprocessing.Preprocessor.LoadAllGames | preprocessing.py:31-39 | `games` becomes the parsed concatenation. On a parse failure the concatenation is already stored; on a read failure it is unchanged |
| Preprocessing.Preprocessor.LoadTeamData | preprocessing.py:41-202 | `team_stats` becomes the concatenated processed seasons without the outcome columns, with the same failure cases as the specification |
| Preprocessing.Preprocessor.PreprocessTeamData | preprocessing.py:204-219 | the loop over teams equals the per-team specification, including its first error |
| Preprocessing.Preprocessor.GenerateTeamRunningAverages | preprocessing.py:221-272 | the loop over averaging columns equals the running-average specification, including its first error |
| Preprocessing.PercentagesAveraged | preprocessing.py:222-263 | in the older preprocessor every percentage column is replaced by its running average |
| PreprocessingNew.Preprocessor.Empty | preproccessing_new.py:8-12 | a new object starts with empty games and team tables |
| PreprocessingNew.Preprocessor.New | preproccessing_new.py:7-17 | construction succeeds exactly when both loads do, and then holds the specification's tables |
| PreprocessingNew.Preprocessor.LoadAllGames | preproccessing_new.py:19-27 | `games` becomes the parsed concatenation, with the same partial-update cases as the older file |
| PreprocessingNew.Preprocessor.LoadTeamData | preproccessing_new.py:29-189 | `team_stats` becomes the concatenated processed seasons and is unchanged on failure |
| PreprocessingNew.Preprocessor.PreprocessTeamData | preproccessing_new.py:191-204 | the loop over teams equals the per-team specification, including its first error |
| PreprocessingNew.Preprocessor.GenerateTeamRunningAverage | preproccessing_new.py:206-251 | the loop over averaging columns equals the running-average specification with the percentage columns excluded |
| PreprocessingNew.PercentagesPassThrough | preproccessing_new.py:207-250 | in the newer preprocessor a percentage column is not averaged and keeps the team's raw values |

## Left out

- Reading and writing CSV files is not modelled. The files are a map from file names to tables. Writing `all_games.csv` and `all_team_averages.csv`, and the fallback to backup file names, are output only.
- `print` calls, the unused `full` argument and the unused `self.current` flag of the older class are left out.
- The span-5 and span-3 preprocessors of the older main script are left out, because they are built but never used.
- Numbers are exact reals, not 64-bit floats, so rounding in `ewm().mean()` and in `seconds / 60` is not modelled.
- pandas dtypes and index labels are not modelled. `astype(int)` is represented by the numbers 0 and 1.
- Joins.Merge: when a non-key column exists on both sides, the model gives an error instead of pandas' `_x`/`_y` suffixes. The category column lists are disjoint apart from the key, and the horizon merges join on all shared columns.
- Pipeline.CommonColumns lists the shared columns in the first table's order, where Python iterates a set in an unspecified order. The order of the join columns changes neither the merge's columns (the left columns, then the right non-key columns) nor its rows, so the set order has no effect.
- Grouping.LessTotal: team codes of different kinds (numbers next to text) are given a fixed rank order, whereas pandas would raise on such keys.
- Parsing.ParseInt accepts ASCII digits only. Python's `int()` also accepts other Unicode digits.
- Pipeline.WinnerIsStrict: comparing non-numeric scores is not modelled. Such a comparison is false and gives the away team, whereas numpy would compare or raise.
- `apirequests.py`, which downloads the CSV files, is not part of this model.
