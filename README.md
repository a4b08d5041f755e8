# fpl-transfer-suggester, modelled in Dafny

This project models the deterministic core of the Fantasy Premier League (FPL)
transfer suggester. The real program is Python over HTTP, SQLite and pandas.
Here each stage is a Dafny function, lemma or method over sequences and maps,
and the properties the pipeline relies on are proved.

- **Feature table** (`build_feature_table.py`). The model covers:
  - the trailing-window mean and standard deviation;
  - the benching probability and the risk score;
  - the "prior match" leakage guard;
  - splitting each fixture into a home row and an away row;
  - the rest-days scan;
  - the forward-horizon aggregate;
  - the double-gameweek counts;
  - the per-(player, target fixture) feature row and the sorted output table.
- **Ranking** (`phase2_rank_players.py`). The model covers:
  - parsing and checking positions;
  - building candidates;
  - min-max normalisation within each position, in place on an array;
  - the weighted score;
  - the five-key sort, the top-N cut and numbering the ranks.
- **Phase 1** (`phase1_pipeline.py`). The model covers:
  - `per90` and `average_last_n_minutes`;
  - `normalize_text`;
  - the next opponent of each team, with "now" as a parameter;
  - the override matching and counting of `build_player_rows` and its sorted rows.
- **Understat export** (`fetch_understat_xgxa.py`). The model covers:
  - `choose_team`;
  - mapping Understat club names to FPL short names through the alias table;
  - the club-name map;
  - `build_rows`.
- **Ingest** (`ingest.py`). The model covers:
  - `get_current_event_id`;
  - the rows `upsert_fixtures`, `upsert_players` and `upsert_gw_stats_and_prices` would write.

Shared building blocks:

- `Common` holds `Option`/`Result`, clamping, sums and means, filters, maps and counts.
- `Text` models Python's `str.strip`, `split()` and `split(",")` with Python's `isspace` character set, and `lower`/`upper` on ASCII letters.
- `Ordering` models Python's tuple ordering on sort keys and a stable sort. The
  stable sort is proved sorted, a permutation, and the only sorted arrangement
  when keys are unique. `Ordering` also gives the first minimum that a stable
  sort puts in front.

Python's `list.sort` and pandas' `mergesort` are both stable, and the model
uses the one stable sort for all of them. Timestamps are `Option<int>` seconds;
a pandas `NaT` or an unparsable time is `None`. Numbers are unrounded `real`s.

The benching probability follows the code's formula:

- With every match a start, `0.1 * (1 - start_rate)` is 0.0, not 0.1, so the
  probability is 0.0 (`Signals.BenchingAllStarts`).
- With every match a did-not-play, the did-not-play term 0.6 and the
  start term 0.1 add up to 0.7 (`Signals.BenchingAllDnp`).

## Model

| member | source | states |
|---|---|---|
| Common.Clamp | data_pipeline/phase2_rank_players.py:73-74 | `max(low, min(value, high))` lies in [low, high] when low ≤ high, is the value itself inside the range and the nearer bound outside it |
| Common.TakeLast | data_pipeline/build_feature_table.py:56 | `values[-n:]` is the last min(n, len) elements of the list |
| Common.TruncToInt | data_pipeline/fetch_understat_xgxa.py:142 | `int(x)` truncates toward zero: it is within 1 of x on the side of 0 |
| Text.Strip | data_pipeline/phase2_rank_players.py:148 | `str.strip()` removes exactly the leading and trailing whitespace and keeps the middle |
| Text.Upper | data_pipeline/phase2_rank_players.py:148 | `upper()` on ASCII letters: keeps the length and maps each character to its upper-case ASCII letter or leaves it as is |
| Text.StripIdempotent | data_pipeline/phase2_rank_players.py:78 | stripping twice is stripping once |
| Text.Words | data_pipeline/phase1_pipeline.py:94 | `split()` yields non-empty words without whitespace, made of characters of the input |
| Text.Lower | data_pipeline/phase1_pipeline.py:94 | `lower()` on ASCII letters: keeps the length and maps each character to its lower-case ASCII letter or leaves it as is |
| Text.WordsOfJoin | data_pipeline/phase1_pipeline.py:94 | splitting `" ".join(words)` gives back the words when none is empty or has whitespace |
| Text.NormalizeText | data_pipeline/phase1_pipeline.py:93-94 | `normalize_text` is lower-case, has no leading or trailing space and no run of two spaces |
| Text.NormalizeTextWords | data_pipeline/phase1_pipeline.py:93-94 | `normalize_text` is the single-space join of the words of the lower-cased input, and splitting it gives exactly those words back |
| Text.NormalizeTextIdempotent | data_pipeline/fetch_understat_xgxa.py:40-41 | normalising a normalised text changes nothing |
| Text.SplitOn | data_pipeline/phase2_rank_players.py:83 | `split(",")` yields at least one part and no part contains the separator |
| Text.JoinOfSplit | data_pipeline/fetch_understat_xgxa.py:116 | joining the parts of `split(",")` with "," gives back the title |
| Ordering.KeyLessTransitive | data_pipeline/phase2_rank_players.py:232-240 | tuple ordering of sort keys (numbers, then strings by code point) is transitive |
| Ordering.KeyLessTotal | data_pipeline/phase2_rank_players.py:232-240 | two different sort keys are always ordered one way or the other |
| Ordering.InsertStable | data_pipeline/phase1_pipeline.py:331 | inserting into a sorted list keeps it sorted and adds exactly that element |
| Ordering.InsertStablePosition | data_pipeline/phase1_pipeline.py:331 | the inserted element lands after every element whose key is not above its own and before every element with a larger key |
| Ordering.SortByKey | data_pipeline/phase1_pipeline.py:331 | `list.sort(key=...)` gives a sorted permutation of its input |
| Ordering.SortByKeyStable | data_pipeline/phase1_pipeline.py:331 | the sort is stable: for every key, the elements with that key keep their input order |
| Ordering.InsertStableWithKey | data_pipeline/phase1_pipeline.py:331 | an inserted element goes behind the elements that share its key |
| Ordering.SortedPermutationUnique | data_pipeline/build_feature_table.py:401-405 | two sorted permutations of the same rows are equal when no two rows share a key |
| Ordering.FirstMinIsLeast | data_pipeline/phase1_pipeline.py:240-242 | the chosen fixture has a key no larger than that of any fixture of the list |
| Ordering.FirstMinIsFirst | data_pipeline/phase1_pipeline.py:240-242 | every fixture before the chosen one has a strictly larger key, as a stable sort requires |
| Ordering.SortHeadIsFirstMin | data_pipeline/phase1_pipeline.py:241-242 | the head of the stably sorted list is the first element with the least key |
| Signals.RollingMean | data_pipeline/build_feature_table.py:53-59 | 0 when n ≤ 0 or the list is empty, otherwise the mean of the last min(n, len) values |
| Signals.RollingMeanBounds | data_pipeline/build_feature_table.py:53-59 | the rolling mean of values in [lo, hi] lies in [lo, hi] |
| Signals.RollingMeanExample | data_pipeline/check_phase2_features_dod.py:94 | `rolling_mean([1, 2, 3], 2) = 2.5` |
| Signals.RollingVariance | data_pipeline/build_feature_table.py:62-69 | the population variance of the trailing window is never negative |
| Signals.SquaredDeviations | data_pipeline/build_feature_table.py:68 | one squared deviation from the mean per value of the window, each ≥ 0 |
| Signals.RollingStd | data_pipeline/build_feature_table.py:62-70 | 0 when n ≤ 0 or the window has at most one value; never negative |
| Signals.RollingStdConstant | data_pipeline/build_feature_table.py:65-70 | a constant window has variance 0 and standard deviation 0 |
| Signals.RollingStdExample | data_pipeline/check_phase2_features_dod.py:97 | `rolling_std([2, 2, 2], 3) = 0` |
| Signals.CountsPartition | data_pipeline/build_feature_table.py:77-79 | each non-negative minute value counts as exactly one of start, cameo or did-not-play |
| Signals.BenchingProbability | data_pipeline/build_feature_table.py:73-81 | the benching probability lies in [0, 1] and is 1 for no matches |
| Signals.BenchingClosedForm | data_pipeline/build_feature_table.py:76-81 | the clamped rate formula equals (0.7·dnp + 0.4·cameo)/n and is at most 0.7 |
| Signals.BenchingAllStarts | data_pipeline/build_feature_table.py:77-81 | all matches of 60 minutes or more give 0.0 |
| Signals.BenchingAllDnp | data_pipeline/build_feature_table.py:77-81 | all matches of 0 minutes give 0.7 |
| Signals.RiskScore | data_pipeline/build_feature_table.py:84-91 | the risk score lies in [0, 1] |
| Signals.RiskScoreMonotone | data_pipeline/build_feature_table.py:89-91 | the risk score does not decrease when benching, volatility or the injury flag grows |
| Signals.RiskScoreUnclamped | data_pipeline/build_feature_table.py:89-91 | with benching in [0, 1] and a 0/1 injury flag the outer clamp never changes the weighted sum |
| TeamFixtures.BuildTeamFixtureRows | data_pipeline/build_feature_table.py:112-135 | each fixture gives a home row (team_h, opponent team_a, home difficulty, is_home 1) and a mirrored away row; missing event, difficulty or finished become 0 |
| TeamFixtures.TwoRowsPerFixture | data_pipeline/build_feature_table.py:131 | every fixture id appears in exactly twice as many team rows as fixtures |
| TeamFixtures.Teams | data_pipeline/build_feature_table.py:140 | the teams of `groupby("team_id")` are exactly the teams of the rows, each once |
| TeamFixtures.PrevValidFacts | data_pipeline/build_feature_table.py:146-155 | `previous_dt` is missing exactly when no earlier row had a kickoff, and otherwise is the last valid kickoff |
| TeamFixtures.RestDays | data_pipeline/build_feature_table.py:150-152 | the rest is present exactly when both kickoffs are, and is then at least 0 |
| TeamFixtures.SortedTeamRows | data_pipeline/build_feature_table.py:141-145 | a team's rows sorted by (kickoff, event, fixture), missing kickoffs last, as a permutation |
| TeamFixtures.BuildRestDaysMap | data_pipeline/build_feature_table.py:138-156 | the scan builds the rest-days map of its specification |
| TeamFixtures.ScanTeam | data_pipeline/build_feature_table.py:146-155 | the scan of one team's sorted rows adds that team's entries |
| TeamFixtures.RestDaysSpecFacts | data_pipeline/build_feature_table.py:138-156 | the map has one entry per (team, fixture) of the rows and each value is None or ≥ 0 |
| TeamFixtures.SortedRestIsGap | data_pipeline/build_feature_table.py:150-152 | in kickoff order the rest is exactly the gap in days to the previous valid kickoff |
| TeamFixtures.RestDaysSpecAt | data_pipeline/build_feature_table.py:138-156 | the map's entry for a team's k-th fixture in kickoff order is the rest since that team's previous valid kickoff, when the team's fixture ids are distinct |
| TeamFixtures.RestDaysNoneCases | data_pipeline/build_feature_table.py:146-153 | in the rest-days map, a team's first fixture in kickoff order and every fixture without a kickoff have no value |
| TeamFixtures.EventStats | data_pipeline/build_feature_table.py:162-174 | the per-event counts, mean difficulty and home count of a team, keyed by its events |
| TeamFixtures.WindowsSplit | data_pipeline/build_feature_table.py:180-186 | the horizon totals over [lo, hi+1) are those over [lo, hi) plus those of event hi |
| TeamFixtures.NoRowsInEvent | data_pipeline/build_feature_table.py:181-182 | an event without fixtures contributes nothing |
| TeamFixtures.HorizonCountsRows | data_pipeline/build_feature_table.py:176-192 | each horizon entry counts the team's fixtures and home fixtures in [event, event + max(1, h)) and averages difficulty weighted by fixtures, or 0 |
| TeamFixtures.BuildHorizonMap | data_pipeline/build_feature_table.py:159-193 | the nested loops build the horizon map of its specification |
| TeamFixtures.AddTeamHorizon | data_pipeline/build_feature_table.py:161-192 | one team's pass adds exactly that team's (team, event) keys with correct entries |
| TeamFixtures.WindowTotals | data_pipeline/build_feature_table.py:177-186 | the inner accumulation loop computes the window totals |
| TeamFixtures.DgwCountOfRow | data_pipeline/build_feature_table.py:260-267 | every team row's (team, event) has a count of at least 1, above 1 exactly when the team plays again in that event |
| TeamFixtures.MatchCount | data_pipeline/build_feature_table.py:260-267 | a row's (team, event) count is ≥ 1, and above 1 exactly when another row has the same team and event |
| TeamFixtures.DgwCountIs | data_pipeline/build_feature_table.py:260-267 | the double-gameweek map gives each (team, event) the number of rows of the whole table with that team and that event |
| TeamFixtures.HorizonOneIsDgw | data_pipeline/build_feature_table.py:180 | a horizon of 1 counts the same fixtures as the double-gameweek map |
| FeatureTable.MatchOf | data_pipeline/build_feature_table.py:295-302 | missing round, minutes and points become 0; the xGI proxy is the column when present and xG + xA (missing ones 0) otherwise; price · 10 is the stored value, 0 when missing; the kickoff is kept |
| FeatureTable.Matches | data_pipeline/build_feature_table.py:295-302 | every history row is converted, one match per row in order |
| FeatureTable.RowsOfPlayer | data_pipeline/build_feature_table.py:304-321 | a player's rows are exactly the history rows carrying that player id |
| FeatureTable.PlayerHistorySorted | data_pipeline/build_feature_table.py:304-321 | each player's history is exactly that player's rows in (kickoff, round, fixture) order |
| FeatureTable.PriorIrreflexive | data_pipeline/build_feature_table.py:101-109 | a match is never prior to itself |
| FeatureTable.Prior | data_pipeline/build_feature_table.py:330-339 | the prior matches are exactly the history rows before the target: by time when both kickoffs exist, by round otherwise |
| FeatureTable.PriorIgnoresLater | data_pipeline/build_feature_table.py:330-339 | appending non-prior matches leaves the prior list unchanged |
| FeatureTable.PositivePrices | data_pipeline/build_feature_table.py:344 | the kept prices are the positive ones |
| FeatureTable.LastPrice | data_pipeline/build_feature_table.py:395 | the last positive prior price, or `now_cost` when there is none |
| FeatureTable.LastPositiveIsLastPrice | data_pipeline/build_feature_table.py:395 | no positive price exactly when every prior price is ≤ 0; otherwise the last kept price is the price of a match after which no positive price follows |
| FeatureTable.InjuryFlag | data_pipeline/build_feature_table.py:349 | the flag is 0 exactly for status "a"/"A", otherwise 1 |
| FeatureTable.FeatureFor | data_pipeline/build_feature_table.py:324-398 | ids copied; `is_dgw = 1` iff the count > 1; defaults 1, (0, 0.0, 0), "UNK", None for missing lookups; horizon ≥ 1; benching and risk in [0, 1]; volatilities ≥ 0; no prior matches give benching 1; the found-key values and the signal columns are stated by the five lemmas below |
| FeatureTable.FeatureForLookups | data_pipeline/build_feature_table.py:355-383 | a found key gives the dgw count, the rest days and the opponent name from their maps |
| FeatureTable.FeatureForHorizon | data_pipeline/build_feature_table.py:356-383 | a horizon entry found for the team and event gives the three horizon columns |
| FeatureTable.FeatureForCopies | data_pipeline/build_feature_table.py:364-396 | name, team, position, kickoff ("" when missing), home flag, opponent id and difficulty and status are copied; horizon = max(1, horizon) |
| FeatureTable.FeatureForRecentAverages | data_pipeline/build_feature_table.py:340-389 | the six recent averages are the rolling means over 3 and 5 of the prior points, minutes and xGI |
| FeatureTable.FeatureForRisk | data_pipeline/build_feature_table.py:343-395 | volatilities are the rolling std over 5 (minutes / 90); benching is computed on the last five prior minutes; the risk score combines them with the injury flag; last_price is the last positive prior price, else now_cost |
| FeatureTable.NoLeakage | data_pipeline/build_feature_table.py:330-339 | history after the target cannot change the target's feature row |
| FeatureTable.TeamPairs | data_pipeline/build_feature_table.py:259 | the distinct (team id, team name) pairs of the players |
| FeatureTable.TeamNameMap | data_pipeline/build_feature_table.py:259 | the name map has exactly the players' team ids, each mapped to a name one of its players carries |
| FeatureTable.NameMap | data_pipeline/build_feature_table.py:259 | `dict(pairs)` has exactly the ids of the pairs and maps each to a name paired with it |
| FeatureTable.TargetFixtures | data_pipeline/build_feature_table.py:271-274 | targets are the team rows with event > 0, and unfinished unless finished ones are included |
| FeatureTable.Join | data_pipeline/build_feature_table.py:278-293 | the inner merge pairs exactly each player with each target fixture of the player's team |
| FeatureTable.PlayerTargets | data_pipeline/build_feature_table.py:278-293 | one player's merged rows are exactly that player with the target fixtures of the player's team |
| FeatureTable.TargetRowFacts | data_pipeline/build_feature_table.py:271-293 | a target row's player and fixture share a team, event > 0, and the fixture is unfinished unless finished ones are included |
| FeatureTable.BuildFeatureTable | data_pipeline/build_feature_table.py:253-408 | empty players or fixtures and an empty target set are errors; otherwise one row per target row, sorted by (target_event, fixture_id, team_id, player_id) |
| FeatureTable.OutputOrderIsDetermined | data_pipeline/build_feature_table.py:400-405 | with unique sort keys the sorted table is the only sorted arrangement of its rows |
| Ranking.ParseFixtureHome | data_pipeline/phase2_rank_players.py:77-78 | 1 exactly when the stripped label ends with "(H)", else 0 |
| Ranking.ParseFixtureHomeIgnoresPadding | data_pipeline/phase2_rank_players.py:78 | surrounding whitespace does not change the answer |
| Ranking.ParseFixtureHomeOfLabel | data_pipeline/check_phase2_dod.py:111-112 | "OPP (H)" gives 1 and "OPP (A)" gives 0 |
| Ranking.ParseFixtureHomeNoParen | data_pipeline/check_phase2_dod.py:113 | a label without "(", such as "TBD", gives 0 |
| Ranking.PositionItems | data_pipeline/phase2_rank_players.py:83 | no more items than parts, none of them empty |
| Ranking.PositionItemsComprehension | data_pipeline/phase2_rank_players.py:83 | the items are the parts stripped, the blank ones dropped, the rest upper-cased, in order |
| Ranking.Dedup | data_pipeline/phase2_rank_players.py:84-89 | de-duplication keeps every item and no item twice |
| Ranking.DedupOrder | data_pipeline/phase2_rank_players.py:84-89 | the kept items are in first-occurrence order |
| Ranking.ParsePositions | data_pipeline/phase2_rank_players.py:81-92 | an invalid item is an error, no items is an error, otherwise the de-duplicated items |
| Ranking.CheckPositions | data_pipeline/phase2_rank_players.py:85-92 | the checking loop raises on the first invalid item and builds the unique list |
| Ranking.ScaleFacts | data_pipeline/phase2_rank_players.py:102-103 | scaling by the span maps [min, max] onto [0, 1] and keeps order |
| Ranking.SeqMin | data_pipeline/phase2_rank_players.py:98 | `min(values)` is an element of the list and no larger than any other |
| Ranking.SeqMax | data_pipeline/phase2_rank_players.py:99 | `max(values)` is an element of the list and no smaller than any other |
| Ranking.MinmaxNormalize | data_pipeline/phase2_rank_players.py:95-103 | same length as the input, every value in [0, 1] |
| Ranking.MinmaxAllEqual | data_pipeline/phase2_rank_players.py:100-101 | all-equal input maps every value to 0.5 |
| Ranking.MinmaxExample | data_pipeline/check_phase2_dod.py:115-122 | `[2, 2, 2]` normalises to `[0.5, 0.5, 0.5]` |
| Ranking.MinmaxEnds | data_pipeline/phase2_rank_players.py:98-103 | otherwise the minimum maps to 0, the maximum to 1, and order is kept |
| Ranking.WeightedScoreExample | data_pipeline/check_phase2_dod.py:124-140 | weights (0.5, 0.25, 0.2, 0.05) on (0.8, 0.5, 0.6, 1) score 0.695 |
| Ranking.WeightedScoreBounds | data_pipeline/phase2_rank_players.py:106-121 | with non-negative weights summing to 1 and signals in [0, 1] the score lies in [0, 1] |
| Ranking.WeightedScoreMonotone | data_pipeline/phase2_rank_players.py:116-121 | the score does not decrease when any signal grows |
| Ranking.ValueRaw | data_pipeline/phase2_rank_players.py:163 | value · price = attack when the price is positive, else 0 |
| Ranking.CandidateOf | data_pipeline/phase2_rank_players.py:148-180 | player, team and opponent stripped; position stripped and upper-cased; attack = xg90 + 0.7·xa90; minutes_raw = clamp(minutes_avg/90, 0, 1); value_raw; fixture_home; norms, score and rank start at 0 |
| Ranking.CandidatesOfSound | data_pipeline/phase2_rank_players.py:145-158 | every candidate comes from a row with a requested position, minutes ≥ the minimum and xg90 + xa90 > 0 |
| Ranking.CandidatesOfComplete | data_pipeline/phase2_rank_players.py:145-158 | every row that passes the filters yields its candidate |
| Ranking.BuildCandidates | data_pipeline/phase2_rank_players.py:140-182 | the loop builds the filtered candidates in row order |
| Ranking.GroupFacts | data_pipeline/phase2_rank_players.py:186-188 | a position's group holds exactly the candidates of that position |
| Ranking.IndicesOfIncreasing | data_pipeline/phase2_rank_players.py:186-188 | a group keeps the candidates' list order |
| Ranking.GatherIndices | data_pipeline/phase2_rank_players.py:186-191 | the group read through its indices into the array is the group |
| Ranking.GroupIndices | data_pipeline/phase2_rank_players.py:186-188 | the grouping loop finds the indices of a position in the candidates array |
| Ranking.NormalizeByPosition | data_pipeline/phase2_rank_players.py:185-200 | each requested group's three norms become the min-max norms of its raw values; other fields and other candidates are unchanged |
| Ranking.NormalizeGroup | data_pipeline/phase2_rank_players.py:191-200 | one group is normalised in place; candidates of other positions are untouched |
| Ranking.WriteNorms | data_pipeline/phase2_rank_players.py:197-200 | the write-back loop sets exactly the three norms of the group's candidates |
| Ranking.ScoreAll | data_pipeline/phase2_rank_players.py:212-222 | every candidate's score is set to its weighted score |
| Ranking.RankCandidates | data_pipeline/phase2_rank_players.py:203-247 | scores are set, and the ranked list and per-position counts are those of the ranking specification |
| Ranking.RankPositions | data_pipeline/phase2_rank_players.py:228-246 | the position loop yields the ranked groups of the requested positions in order and `rows_by_position` |
| Ranking.RankGroup | data_pipeline/phase2_rank_players.py:231-244 | sorting a group, cutting it to top N and numbering it gives the ranked group |
| Ranking.TopCount | data_pipeline/phase2_rank_players.py:241 | `group[:max(0, n)]` keeps min(len, max(0, n)) rows |
| Ranking.RankKeyIgnoresRank | data_pipeline/phase2_rank_players.py:232-243 | numbering does not change the sort key |
| Ranking.NumberedFacts | data_pipeline/phase2_rank_players.py:242-243 | numbered rows carry ranks 1..k in key order |
| Ranking.RankedGroupFacts | data_pipeline/phase2_rank_players.py:231-245 | a ranked group has min(len, max(0, n)) rows of the position, ranked 1..k, sorted by (−score, −value, price, player, team) |
| Ranking.RankedGroupIsTop | data_pipeline/phase2_rank_players.py:232-241 | a candidate with a smaller key than a ranked row is itself ranked before it |
| Ranking.RankedOverFacts | data_pipeline/phase2_rank_players.py:228-246 | the output holds only requested positions, each with rank ≥ 1 |
| Ranking.RowsByPositionFacts | data_pipeline/phase2_rank_players.py:229-245 | `rows_by_position` has exactly the requested positions, each with its ranked count ≤ max(0, n) |
| Ranking.RankedPerPosition | data_pipeline/phase2_rank_players.py:230-246 | the output rows of a position are its ranked group |
| Ranking.RankedOutputChecks | data_pipeline/check_phase2_dod.py:239-257 | per position the ranks run 1..k without gaps, in key order, k ≤ max(0, n), and k equals `rows_by_position` |
| Phase1.Per90 | data_pipeline/phase1_pipeline.py:75-78 | 0 when minutes ≤ 0 or below the minimum, otherwise value/minutes·90 |
| Phase1.PresentMinutesFrom | data_pipeline/phase1_pipeline.py:85 | the kept minutes all come from history rows that have minutes |
| Phase1.AverageLastNMinutes | data_pipeline/phase1_pipeline.py:81-90 | 0 when last_n ≤ 0 or no row has minutes; otherwise the average times min(last_n, present) is the sum of the last last_n present minutes |
| Phase1.AverageLastNBounds | data_pipeline/phase1_pipeline.py:81-90 | the average of minutes in [lo, hi] lies in [lo, hi] |
| Phase1.AverageLastNIgnoresOlder | data_pipeline/phase1_pipeline.py:85-90 | only the last last_n rows with minutes count: older rows and rows without minutes change nothing |
| Phase1.UpcomingByTeamMembers | data_pipeline/phase1_pipeline.py:207-226 | a team's list holds exactly the unfinished, not-yet-kicked-off fixtures it plays in; a missing kickoff is kept |
| Phase1.CollectUpcoming | data_pipeline/phase1_pipeline.py:204-226 | the collecting loop builds the per-team lists and their teams in dict order |
| Phase1.LabelTeam | data_pipeline/phase1_pipeline.py:241-247 | sorting a team's list and labelling its head labels the earliest fixture |
| Phase1.LabelTeams | data_pipeline/phase1_pipeline.py:240-247 | the labelling loop gives every team the label of its earliest fixture |
| Phase1.GetNextFixtureByTeam | data_pipeline/phase1_pipeline.py:203-249 | the result is the next-opponent specification |
| Phase1.NextOpponentsKeys | data_pipeline/phase1_pipeline.py:222-247 | a team has a label exactly when it plays in an upcoming fixture |
| Phase1.NextFixtureIsEarliest | data_pipeline/phase1_pipeline.py:230-242 | the chosen fixture is upcoming, involves the team, and has the least (kickoff, event) key, missing kickoff last and missing event 999 |
| Phase1.LabelReadsBack | data_pipeline/phase1_pipeline.py:243-247 | ranking's `parse_fixture_home` reads 1 from a label exactly when the team is at home; "TBD" reads 0 |
| Phase1.RowFor | data_pipeline/phase1_pipeline.py:292-329 | a matched override replaces both xg90 and xa90, otherwise they are per-90 values; the team, position and next opponent are the looked-up values, "UNKNOWN", "UNK" and "TBD" when missing; minutes_avg is the average of the last last_n present minutes of the player's history, 0 without one; goals and assists copied; price · 10 = now_cost |
| Phase1.OverrideKeyNormalized | data_pipeline/phase1_pipeline.py:304-307 | the player name is stripped and both parts of the override key are normalised |
| Phase1.RowsInFeedOrder | data_pipeline/phase1_pipeline.py:291-329 | one row per player in feed order; matched counts the players whose key matched, and matched + unmatched = players |
| Phase1.BuildPlayerRows | data_pipeline/phase1_pipeline.py:284-337 | the rows are the player rows sorted by (team, position, −xg90, −xa90, player); matched + unmatched = players_total; coverage from matched/total |
| Phase1.CoverageBounds | data_pipeline/phase1_pipeline.py:332-337 | coverage lies in [0, 100] and is 100 exactly when every player of a non-empty list matched |
| Phase1.MatchedCountAll | data_pipeline/phase1_pipeline.py:310-314 | all matched gives matched = players; none matched gives 0 |
| Understat.LastNonEmptyNone | data_pipeline/fetch_understat_xgxa.py:116-118 | no non-empty part exactly when all parts are empty |
| Understat.LastNonEmptyIsLast | data_pipeline/fetch_understat_xgxa.py:116-119 | the chosen part has only empty parts after it |
| Understat.FilterNonEmptyLast | data_pipeline/fetch_understat_xgxa.py:116-119 | the last of the kept parts is the last non-empty part |
| Understat.ChooseTeamIsLastNonEmpty | data_pipeline/fetch_understat_xgxa.py:113-119 | `choose_team` is the last non-empty stripped part |
| Understat.ChooseTeamBlank | data_pipeline/fetch_understat_xgxa.py:113-118 | the club is "" exactly when every comma-separated part is blank |
| Understat.ChooseTeamIsLastPart | data_pipeline/fetch_understat_xgxa.py:116-119 | a non-empty club is a stripped part with only blank parts after it |
| Understat.ChooseTeamClean | data_pipeline/fetch_understat_xgxa.py:116-119 | the club has no comma and no surrounding whitespace |
| Understat.MapUnderstatTeam | data_pipeline/fetch_understat_xgxa.py:101-110 | direct lookup of the normalised name first, then through the alias table; when neither finds a club, the stripped name |
| Understat.MapUnderstatTeamIgnoresSpelling | data_pipeline/fetch_understat_xgxa.py:102-104 | a spelling that normalises to a known name maps the same |
| Understat.LoadFplTeamShortNames | data_pipeline/fetch_understat_xgxa.py:90-98 | the loop builds the club-name map of its specification |
| Understat.TeamShortNameMapKeys | data_pipeline/fetch_understat_xgxa.py:94-97 | every key of the club-name map is normalised |
| Understat.AddTeamNamesValues | data_pipeline/fetch_understat_xgxa.py:91-97 | one club keeps the earlier entries or maps to its non-empty short name |
| Understat.TeamShortNameMapValues | data_pipeline/fetch_understat_xgxa.py:91-97 | every value is the non-empty short name of a club |
| Understat.TeamShortNameMapFindsLast | data_pipeline/fetch_understat_xgxa.py:94-97 | the last club with a short name and a full name has its normalised full name mapped to its short name: later clubs overwrite earlier entries |
| Understat.MappedTeamIsShortName | data_pipeline/fetch_understat_xgxa.py:101-110 | a mapped club is an FPL short name or the stripped Understat name |
| Understat.RowFor | data_pipeline/fetch_understat_xgxa.py:124-146 | xg90 and xa90 are 0 when minutes ≤ 0, otherwise per-90 values; the player is the stripped name; team_understat is the club `choose_team` picks from the stripped title; team is that club mapped to its FPL short name; minutes_understat is `int(minutes)`; the xG and xA totals are copied |
| Understat.BuildRows | data_pipeline/fetch_understat_xgxa.py:122-150 | one row per player, a permutation of the player rows, sorted by (team, player) |
| Ingest.MaxPositiveId | data_pipeline/ingest.py:596-597 | the largest positive id, 0 exactly when no id is positive |
| Ingest.FirstFlaggedNone | data_pipeline/ingest.py:590-595 | a scan finds nothing exactly when no event carries the flag |
| Ingest.FirstFlaggedIndex | data_pipeline/ingest.py:590-595 | a scan returns the id of a flagged event with no flagged event before it |
| Ingest.CurrentEventIdTiers | data_pipeline/ingest.py:589-597 | the first current event, else the first next event, else the largest positive id or 0 |
| Ingest.FixtureRows | data_pipeline/ingest.py:375-390 | one row per fixture with a positive id, exactly those, and as many rows as such fixtures |
| Ingest.FixtureRowsShape | data_pipeline/ingest.py:376-390 | every row has a positive id and finished 1/0, 1 exactly when the fixture finished; a missing kickoff becomes "" |
| Ingest.PlayerRecordOf | data_pipeline/ingest.py:297-320 | price · 10 = now_cost; position from the element type or "UNK"; each missing text field becomes "" and present text is kept; id, team, points, minutes and `now` copied |
| Ingest.PlayerRows | data_pipeline/ingest.py:296-322 | the loop writes one row per element, in feed order |
| Ingest.PlayerRowsPrices | data_pipeline/ingest.py:306-308 | each row keeps its element's id, and its price times ten is the feed's price |
| Ingest.StatRowsForMembers | data_pipeline/ingest.py:528-568 | a player's stat rows are exactly those of the matches with a positive fixture id |
| Ingest.PricesOfStatsMembers | data_pipeline/ingest.py:569-578 | the price rows are exactly the prices of the stat rows with a positive value |
| Ingest.GwStatsAndPrices | data_pipeline/ingest.py:526-586 | the loops produce the stat rows of every history, the price rows of those stat rows, and their counts |
| Ingest.AppendHistory | data_pipeline/ingest.py:528-578 | one player's history appends its stat rows, and keeps the price rows in step with the stat rows |
| Ingest.StatRowsFromHistories | data_pipeline/ingest.py:529-531 | every stat row has a positive fixture id, and every match with one has its stat row |
| Ingest.PricesFollowStats | data_pipeline/ingest.py:569-586 | there are no more price rows than stat rows; each shares (player, fixture) with a stat row of positive value, and its price · 10 is that value |

## Left out

- HTTP fetching, retries, backoff and the element-summary cache are left out: they are network and file I/O. This covers `fetch_json` and `fetch_text` in every file.
- `fetch_histories` and `build_histories_for_players` are left out: their point is thread-pool concurrency. The histories they return are an input map.
- Schema creation, `executemany`/`commit` and all `read_sql_query`/`to_parquet` calls are persistence and are left out. Each ingest operation returns the rows it would write.
- CSV and JSON readers and writers, `load_understat_overrides`, `read_phase1_rows`, `main` and `_entrypoint` are serialisation and command-line plumbing. The overrides are an input map keyed by normalised (player, team).
- `parse_float`/`parse_int` and `_as_float` are Python's numeric parsing. Inputs arrive as numbers, with missing values as `None` where the code falls back to a default.
- Timestamp parsing (`pd.to_datetime`, `datetime.fromisoformat`) is not modelled. A kickoff is `Option<int>` seconds, and an unparsable time is the same as a missing one.
- Implicit clock reads (`datetime.now`, `utc_now_iso`) are parameters `now`.
- Signals.RollingStd: `math.sqrt` is a function parameter. It only has to be non-negative and map 0 to 0, so the proved facts are about the variance and about zero.
- `round(…, 2/3/6)` on xg90, xa90, minutes_avg, coverage and the score, and `round(…, 3)` on the Understat xg_total and xa_total, are not modelled. Values are exact reals. Python sorts the phase-1 rows on the rounded xg90 and xa90 (phase1_pipeline.py:324-331) and the ranking groups on the rounded score (phase2_rank_players.py:122, 232-240). Two values that tie only after rounding therefore fall through to the next sort key in Python but not in the model, so such rows can come out in a different order.
- Text.Lower: only ASCII letters change case. Python's Unicode case mapping of other letters is not modelled. Whitespace does follow Python's `isspace` set (`Text.IsSpace`).
- Text.Upper: only ASCII letters are upper-cased, one character at a time. Python also maps 'ı' to 'I' and 'ſ' to 'S', and expands 'ß' to 'SS'. So `parse_positions("mıd")` gives `["MID"]` in Python but an invalid-position error in the model.
- Phase1.NextFixtureIsEarliest: `datetime.max` is a sort-key flag that puts fixtures without a valid kickoff after all others. It is not a concrete date.
- The pandas `merge` is modelled as an inner join over sequences in player order, then fixture order. pandas may order rows differently, and the output sort hides that only when keys are unique.
- Ranking.RankCandidates: the ranked list holds copies of the candidates. Python shares the candidate objects between `candidates` and `ranked`, so `rank_position` also changes in the input list; that aliasing is not modelled.
- The statistic columns that are copied through unchanged are not fields of the model. They include goals conceded, cards, bonus, ICT, expected goals, selected-by percent and chance of playing.
- `upsert_teams`, `upsert_injuries_news`, `fetch_user_squad` and `insert_user_snapshot` in ingest.py are not part of this model.
