# futsal_friends: the rating engine, the balancers, the leaderboard and the operator scripts

This project models the core of the futsal_friends backend in Dafny. That core is:

- the league constants (`RatingConfig`, `PointsConfig`);
- the match-rating and season-rating records and their database constraints;
- the rating repository's window queries;
- the rating engine `RatingService.calculate_match_ratings`: warm-up, absence penalty, attendance and third-time bonuses, the ELO term, and the rolling-window rebase with clamping;
- the two team balancers, greedy and shuffled;
- the season leaderboard and the per-player statistics;
- the operator scripts:
  - `record_match`;
  - `record_match_result`;
  - `record_third_time_attendance`;
  - `record_match_result_and_update_leaderboard`;
  - `recalculate_match_ratings`.

Everything is a pure function over immutable data:

- A database is a `Store` value holding the players, matches, teams, team memberships, the season-rating table and the match-rating rows.
- A script is a function from the store and the lines the operator types to a new store, or to the reason it stopped.
- A commit is a returned store, and a rollback is an `Err`.
- The constraints are predicates: the CHECK constraints, the UNIQUE constraints, and the row invariant "locked exactly while fewer than three matches are completed". Every writer is proved to keep them.

The modules follow the program:

| module | file | models |
|---|---|---|
| `Config` | config.dfy | `constants.py` |
| `Entities` | entities.dfy | `models/` and their constraints |
| `Sorting` | sorting.dfy | stable `ORDER BY` and slicing |
| `Text` | text.dfy | `str.strip`, `lower`, `split`, `int` on ASCII |
| `Prompts` | prompts.dfy | the prompts the scripts share |
| `RatingRepository` | rating_repository.dfy | `repositories/rating.py` |
| `Queries` | queries.dfy | the scripts' and the repositories' player, season, match and team queries |
| `Elo` | elo.dfy | the expected score |
| `RatingService` | rating_service.dfy | the engine |
| `TeamService` | team_service.dfy | the balancers |
| `Leaderboard` | leaderboard.dfy | `leaderboard_service.py` |
| `Recalculate` | recalculate.dfy | the recalculation script |
| `ThirdTimeScript` | third_time.dfy | the third-time script |
| `RecordMatch` | record_match.dfy | `record_match.py` |
| `MatchResultScripts` | match_result.dfy | the two result scripts |

Parameters:

- `pow10` stands for `10 ** x`. It is constrained by `Elo.Pow10Law`: positive, 1 at 0, `10^-x = 1/10^x`, and strictly increasing. `Elo.Pow10LawSatisfiable` shows that the law can be met.
- `now` stands for `datetime.utcnow()`.
- The orders that `random.shuffle` would produce are an input list.

Where the written specification and the code disagree, the model follows the code:

- A match without a result is rated, not rejected. `OutcomeForTeam(None)` is `DidNotAttend` for everybody, and the attendees still get the attendance bonus.
- `models/match.py` lacks the `UNPLAYABLE` status. A migration adds it, and the scripts and the leaderboard use it, so `MatchStatus` has it.
- The leaderboard leaves invited and inactive players out entirely. `get_player_stats` only zeroes an invited player's third-time count.
- Resolving an ambiguous player name happens in `find_player_by_name` of the combined result script, not in the recalculation script.
- The recalculation script finds the week's match across all seasons (`scalar_one_or_none` with no season filter).
- It rewinds rows by comparing `match_number` with the week number.

## Model

| member | source | states |
|---|---|---|
| Config.PriorWindow | backend/app/constants.py:24-27 | The rebase re-sums `RATING_WINDOW_SIZE - 1 = 2` earlier deltas, one fewer than the window. |
| Config.PolicyConsistent | backend/app/constants.py:8-38 | The initial rating lies within [MIN, MAX], the bonuses are positive and the penalty negative, warm-up and window are both 3, and win > draw > loss in points. |
| Entities.DefaultSeasonRating | backend/app/models/season.py:75-89 | A new season row starts at rating 3.0, locked, with zero counts and no calculation time, and satisfies the row invariant. |
| Entities.AppendAllValid | backend/app/models/rating.py:101-105 | The CHECK constraints hold on a concatenation of rows exactly when they hold on both parts. |
| Entities.AppendKeepsRatingTableValid | backend/app/models/rating.py:101-105 | Appending rows to a valid match-rating table keeps it valid iff the new rows pass the CHECKs, are unique among themselves, and share no (player, match) pair with the old rows. |
| Elo.Expected | backend/app/services/rating_service.py:284-290 | The expected score `1/(1+10^((opp-team)/2))` lies strictly between 0 and 1. |
| Elo.ActualScore | backend/app/services/rating_service.py:292-298 | A win scores 1, a draw 0.5, a loss or a missing result 0, each both ways. |
| Elo.EloDelta | backend/app/services/rating_service.py:284-301 | The ELO term is strictly within ±K (±0.5); it is positive for a win and negative for a loss. |
| Elo.ExpectedEven | backend/app/services/rating_service.py:287-290 | Equal team averages give an expected score of one half. |
| Elo.ExpectedComplement | backend/app/services/rating_service.py:287-290 | The two sides' expected scores sum to 1. |
| Elo.ExpectedMonotone | backend/app/services/rating_service.py:287-290 | A higher team average strictly raises the expected score. |
| Elo.EloZeroSum | backend/app/services/rating_service.py:284-301 | For a win/loss, and for a draw, the ELO terms of the two sides cancel. |
| Elo.EvenWinIsQuarter | backend/app/services/rating_service.py:284-301 | A win between equal averages gives an ELO term of K/2 = 0.25. |
| Elo.Pow10LawSatisfiable | backend/app/services/rating_service.py:287-290 | Some function meets every assumption the engine makes about `10 ** x`. |
| RatingService.EloTerm | backend/app/services/rating_service.py:284-301 | No ELO term when either team average is missing; otherwise it stays within ±K. |
| RatingService.RatingChange | backend/app/services/rating_service.py:237-306 | Nothing moves in warm-up (match number ≤ 3). An absent invited player gets 0; an absent regular player gets exactly the −0.2 penalty. An attendee gets +0.1, plus +0.05 for a regular at third time, plus the ELO term. The total always lies in (−0.4, 0.65). |
| RatingService.OutcomeForTeam | backend/app/services/rating_service.py:223-235 | A missing result is `DidNotAttend`; a draw result is a draw; a win result is a win exactly for the winning team, and a loss otherwise. |
| RatingService.DecidedMatchHasOneWinner | backend/app/services/rating_service.py:223-235 | In a decided match between two teams, one side wins exactly when the other loses. |
| RatingService.Classify | backend/app/services/rating_service.py:71-93 | A player attended iff listed in either roster. An absentee has no outcome and no averages. Team A takes precedence for a player listed on both, with its own and the opponent's average swapped accordingly. |
| RatingService.AttendedThirdTime | backend/app/services/rating_service.py:96-99 | True iff some third-time row of the match is for the player and marked attended. |
| RatingService.Dedup | backend/app/services/rating_service.py:204-221 | The distinct members of a roster: same members, no repeats, empty only for an empty roster. |
| RatingService.RowOrDefault | backend/app/services/rating_service.py:102-117 | The stored season row, or the default row the engine creates; from a valid table it keeps the row invariant and its own key. |
| RatingService.SumRatings | backend/app/services/rating_service.py:204-221 | From a valid table, the sum of n ratings lies between n·MIN and n·MAX. |
| RatingService.Mean | backend/app/services/rating_service.py:211-221 | The mean times the count gives the total, and a total within the bounds has a mean within [1, 5]. |
| RatingService.TeamAverage | backend/app/services/rating_service.py:204-221 | An empty roster averages to the initial 3.0; from a valid table the average lies in [1, 5]. |
| RatingService.AverageOf | backend/app/services/rating_service.py:204-221 | The mean current rating of the listed members, times their count, is their rating sum; 3.0 with no members; within [1, 5] from a valid table. |
| RatingService.Clamp | backend/app/services/rating_service.py:159-162 | The result is always in [1, 5], equals the input when it is in range, and sits at the bound it crosses otherwise. |
| RatingService.PriorWindowRows | backend/app/services/rating_service.py:144-146 | At most two rows, all drawn from the player's own season rows. |
| RatingService.NewRating | backend/app/services/rating_service.py:138-162 | The new rating is always within [1, 5], and it is exactly 3.0 during warm-up. |
| RatingService.RateParticipant | backend/app/services/rating_service.py:120-197 | One participant's record. Match number = completed + 1; rating before = the current rating; attendance and third time as in the match; averages set for attendees only and oriented to the player's team; K = 0.5; rating after in range, equal to the rebase of the window and 3.0 in warm-up. The season row takes the new rating and count, adds one attended match iff the player attended, is locked iff still in warm-up, and records `now`. |
| RatingService.RateParticipantComponents | backend/app/services/rating_service.py:237-306 | The stored bonus, penalty and change components are the ones the rating-change rules give. |
| RatingService.RateParticipantKeepsInvariants | backend/app/services/rating_service.py:138-197 | A valid row is updated into one that keeps the row invariant, and the new record passes its CHECK constraints. |
| RatingService.RebaseIgnoresRatingBefore | backend/app/services/rating_service.py:144-156 | The new rating does not depend on the stored current rating: changing only that value changes nothing but `rating_before`. |
| RatingService.ParticipantKeys | backend/app/services/rating_service.py:102-117 | The season-table keys of exactly the participants, in this season. |
| RatingService.StoreKeepsTableValid | backend/app/services/rating_service.py:188-197 | Storing a row that keeps the invariant under its own key keeps the season table valid. |
| RatingService.RateAll | backend/app/services/rating_service.py:71-197 | One record per participant, in order, for that player and this match. Each record is the participant's result against the table as updated by the earlier participants, and its third-time flag is read from the match's third-time rows. |
| RatingService.RateAllTouchesOnlyParticipants | backend/app/services/rating_service.py:102-197 | Only the participants' season rows of this season are created or changed; all other rows stay as they were. |
| RatingService.RateAllKeepsInvariants | backend/app/services/rating_service.py:71-197 | Rating all participants keeps the season table valid and yields rows that pass the CHECKs. |
| RatingService.CalculateMatchRatings | backend/app/services/rating_service.py:39-202 | Both teams get their average stored, taken before any row changes. There is one record per season player, for this match, and every attendee's record carries both averages. Each record flags third time exactly when the match's rows mark that player as attending. A valid table stays valid, and the new rows pass their CHECKs. |
| RatingService.AttendeesHaveAverages | backend/app/services/rating_service.py:58-93 | When both team averages are known, every attendee's record carries both averages. |
| RatingService.CommitRatings | backend/app/services/rating_service.py:199-200 | The bulk insert succeeds iff the new rows pass the CHECKs and no (player, match) pair repeats; a CHECK failure is reported as such; on success the rows are appended; on a valid table, success is exactly "the result is valid". |
| RatingService.FreshMatchCommits | backend/app/services/rating_service.py:39-200 | Rating a match with no stored rows, for distinct participants, from a valid store, always commits. |
| RatingService.EvenWinTotal | backend/app/services/rating_service.py:237-306 | A win at equal averages totals 0.35 (ELO 0.25 + attendance 0.1) when no third-time bonus applies. |
| RatingService.FirstAbsenceAfterWarmUp | backend/app/services/rating_service.py:138-162 | A regular player's first rated absence after warm-up changes by −0.2 and lands on 2.8. |
| RatingService.InvitedAbsenceRebases | backend/app/services/rating_service.py:267-275 | An invited player's absence changes nothing; the new rating is the rebase of the window alone. |
| RatingService.RepeatedAbsencesSettle | backend/app/services/rating_service.py:144-162 | With two penalties already in the window, a third absence lands on 2.4: the window stops the slide. |
| RatingRepository.PlayerSeasonRecords | backend/app/repositories/rating.py:31-45 | Exactly the rows of the player in the season, drawn from the table, counted by `CountIf`. |
| RatingRepository.DateOrdersArePreorders | backend/app/repositories/rating.py:47-61 | `match_date DESC` and `match_date ASC` are total preorders, so sorting by them is well defined. |
| RatingRepository.NewestFirst | backend/app/repositories/rating.py:47-61 | A permutation of the player's season rows, sorted newest first. |
| RatingRepository.GetLastNRatings | backend/app/repositories/rating.py:47-61 | min(n, count) of the player's season rows, oldest first. |
| RatingRepository.LastNAreLatest | backend/app/repositories/rating.py:47-61 | Every row left out is no newer than every row returned: the window is the n latest rows. |
| RatingRepository.GetSeasonMatchCount | backend/app/repositories/rating.py:70-81 | The count equals the number of table positions holding a row of the player in the season. |
| RatingRepository.GetPlayerSeasonRatings | backend/app/repositories/rating.py:31-45 | The rows by ascending date after `skip`, at most `limit`, all of the player's season, with the exact count that the offset and limit leave. |
| Queries.NameOrderIsPreorder | backend/app/repositories/player.py:19-24 | `ORDER BY name` (code-point order) is a total preorder. |
| Queries.ByName | backend/app/repositories/player.py:38-53 | A permutation of the players, ordered by name. |
| Queries.ByNameKeepsDistinctIds | backend/app/repositories/player.py:38-53 | Reordering by name keeps the ids distinct. |
| Queries.SelectionKeepsDistinctIds | backend/scripts/recalculate_match_ratings.py:41-61 | Filtering players and ordering them by name keeps the ids distinct. |
| Queries.RegularActivePlayers | backend/scripts/record_match_result_and_update_leaderboard.py:271-286 | Exactly the regular, active players, in name order, with distinct ids kept. |
| Queries.SeasonPlayers | backend/scripts/recalculate_match_ratings.py:41-61 | The players holding a row for the season, by name, when there is any such player; the regular active players otherwise. |
| Queries.MatchByWeek | backend/scripts/recalculate_match_ratings.py:27-38 | A match of the week is returned iff exactly one exists. `NotFound` iff none exists. |
| Queries.TeamsOf | backend/scripts/recalculate_match_ratings.py:163-168 | Exactly the stored teams of the match, one per stored row. |
| Queries.RosterMembers | backend/app/services/rating_service.py:51-55 | A roster holds exactly the players with a membership row for the team, one entry per row. |
| Sorting.Insert | backend/app/services/team_service.py:54 | Insertion adds exactly one element: same multiset plus `x`. |
| Sorting.InsertSorted | backend/app/services/team_service.py:54 | Inserting into a sorted list keeps it sorted under a total preorder. |
| Sorting.Sort | backend/app/services/team_service.py:54 | The stable sort returns a permutation of its input, sorted by the preorder. |
| Sorting.SortSnocInOrder | backend/app/services/team_service.py:54 | Appending an element that every element may precede to a list the sort leaves in place gives a list the sort leaves in place too (stability). |
| Sorting.CountIfIsCardinality | backend/app/repositories/rating.py:70-81 | Counting by predicate equals the number of matching positions. |
| Sorting.ReversedTopFacts | backend/app/repositories/rating.py:47-61 | The first n of a descending list, reversed: at most n elements, drawn from the list, in ascending order. |
| Sorting.WindowFacts | backend/app/repositories/rating.py:31-45 | An OFFSET/LIMIT window of a sorted list is drawn from it and stays sorted. |
| Sorting.SortKeepsSortedBy | backend/app/services/leaderboard_service.py:130 | Sorting keeps every symmetric pairwise relation the input had, such as distinct ids. |
| Text.Strip | backend/scripts/record_match_result.py:30 | `str.strip()`: a slice of the input with no whitespace at either end and only whitespace cut off. |
| Text.StripIdempotent | backend/scripts/record_third_time_attendance.py:70-77 | Stripping a stripped line changes nothing, which is why names cut from a stripped line can be stripped again. |
| Text.Lower | backend/scripts/record_match_result.py:58 | `str.lower()` on ASCII: same length, letters mapped one by one. |
| Text.NameLeTotal | backend/app/repositories/player.py:38-53 | Any two names are ordered one way or the other. |
| Text.JoinSplit | backend/scripts/record_third_time_attendance.py:77 | Splitting a comma-joined list of comma-free pieces gives the pieces back. |
| Text.SplitJoin | backend/scripts/record_third_time_attendance.py:77 | Joining the pieces of a split with the separator gives the line back. |
| Text.SplitWhitespaceJoin | backend/scripts/record_match.py:77 | Splitting a space-joined list of words on whitespace gives the words back. |
| Text.ParseShowInt | backend/scripts/record_match_result.py:30-31 | `int()` reads back every integer as written. |
| Prompts.ReadAtLeast | backend/scripts/record_match_result.py:28-37 | A typed line is accepted iff it is a number at least the bound, and then that number is the answer; otherwise it is refused as not a number or too small. |
| Prompts.Prompt | backend/scripts/record_match_result.py:28-37 | The loop settles on the first accepted line, with the count of lines read; none when every line is refused. |
| Prompts.PromptReadsShownNumber | backend/scripts/record_match_result.py:28-37 | Typing a number answers the prompt exactly when it meets the bound. |
| Prompts.PromptSkipsRefusals | backend/scripts/record_match_result.py:28-37 | Refused lines before an answer change only the count of lines read. |
| Prompts.KeepNames | backend/scripts/record_third_time_attendance.py:77-82 | The trimmed pieces without the empty ones, in order, each non-empty and trimmed. |
| Prompts.ParseNames | backend/scripts/record_third_time_attendance.py:77-82 | The parsed names are non-empty, trimmed and free of commas. |
| Prompts.ParseJoinedNames | backend/scripts/record_third_time_attendance.py:77-82 | Trimmed non-empty comma-free names typed joined with commas are parsed back to exactly those names. |
| Prompts.PyIndex | backend/scripts/record_match.py:77-78 | Python list indexing: negative positions count from the end; positions outside [−n, n) are an `IndexError`. |
| Prompts.NumberedPosition | backend/scripts/record_match.py:77-78 | `int(token) - 1` as a list position, or none on `ValueError` or `IndexError`. |
| Prompts.PickEach | backend/scripts/record_match.py:77-78 | The items picked by the tokens, one per token; none as soon as a token fails. |
| Prompts.SelectShownNumbers | backend/scripts/record_match.py:70-86 | Typing the 1-based numbers of any valid positions selects exactly the items at those positions, in typed order. |
| Prompts.NonPositiveNumbersCountFromEnd | backend/scripts/record_match.py:77-78 | Typing 0 or −k picks an item from the end, as Python's negative indexing does. |
| Prompts.OutOfRangeNumbersRefused | backend/scripts/record_match.py:77-86 | Numbers past the end, or −n and below, are refused. |
| Prompts.ResultFromScores | backend/scripts/record_match_result.py:115-125 | A higher score for A means A won, a higher score for B means B won, and equal scores are a draw with no winner. |
| Prompts.ResultIgnoresSides | backend/scripts/record_match_result.py:115-125 | Swapping which side is called A does not change the winner. |
| Prompts.ResultOutcomes | backend/scripts/record_match_result.py:115-125 | The engine reads the stored result back as the score comparison: the higher score wins, the other side loses, and equal scores are a draw for both. |
| TeamService.RatingInRange | backend/app/services/team_service.py:41-51 | From a valid table, every player's rating used by the balancer lies in [1, 5]. |
| TeamService.Average | backend/app/services/team_service.py:72-73 | An empty team averages 0.0; otherwise the average times the size is the total. |
| TeamService.ByRatingIsPreorder | backend/app/services/team_service.py:54 | "Rating at least as high" is a total preorder. |
| TeamService.DealPartition | backend/app/services/team_service.py:63-69 | The greedy loop puts every player in exactly one team. |
| TeamService.DealSums | backend/app/services/team_service.py:63-69 | The running totals are the teams' rating sums. |
| TeamService.DealBalanced | backend/app/services/team_service.py:63-69 | With ratings in [0, m], the two totals never differ by more than m. |
| TeamService.DealFillsBothTeams | backend/app/services/team_service.py:63-69 | With at least two players of positive rating, neither team is empty. |
| TeamService.DealKeepsOrder | backend/app/services/team_service.py:63-69 | Each team lists its members in the order they were visited. |
| TeamService.GreedyTeams | backend/app/services/team_service.py:27-107 | Fewer than two players is the only refusal. The teams partition the requested ids, and each average is its team's mean. |
| TeamService.GreedyTeamsBalanced | backend/app/services/team_service.py:27-107 | From a valid table: both teams are non-empty, each lists its members from the highest rating down, and the two rating totals differ by at most the rating of the top-rated player. |
| TeamService.GreedyFourPlayers | backend/app/services/team_service.py:54-73 | Ratings 4.0, 3.5, 3.0, 2.0 give A = {4.0, 2.0} with average 3.0 and B = {3.5, 3.0} with average 3.25. |
| TeamService.FourAlreadyInOrder | backend/app/services/team_service.py:54 | Four players already in rating order are left in place by the sort. |
| TeamService.DealFour | backend/app/services/team_service.py:63-69 | The greedy loop over 4.0, 3.5, 3.0, 2.0 deals A, B, B, A with totals 6.0 and 6.5. |
| TeamService.HalfSplit | backend/app/services/team_service.py:145-155 | The first ⌊n/2⌋ of the order form A and the rest B; both non-empty; averages are the teams' means. |
| TeamService.Abs | backend/app/services/team_service.py:158 | `abs`: non-negative, and equal to the input or its negation. |
| TeamService.SelectBest | backend/app/services/team_service.py:139-163 | The kept split has the smallest gap of all attempts, and every earlier attempt had a strictly larger gap (the first minimum wins). |
| TeamService.Attempts | backend/app/services/team_service.py:139-155 | One half-split per attempted order, in order. |
| TeamService.ShuffleTeams | backend/app/services/team_service.py:109-192 | Fewer than two players is refused. With no attempts, the unpacking of the missing best split fails. Otherwise the teams partition the ids into ⌊n/2⌋ and the rest, and their gap is the smallest among the attempts. |
| TeamService.RatingDifference | backend/app/services/team_service.py:194-200 | The gap is non-negative, and zero exactly when the stored averages agree, a missing one counting as 0. |
| TeamService.RatingDifferenceSymmetric | backend/app/services/team_service.py:194-200 | The gap does not depend on the order of the two teams. |
| TeamService.MemberRows | backend/app/services/team_service.py:75-105 | One membership row per member, for that team, in order. |
| TeamService.CreatedRostersReadBack | backend/app/services/team_service.py:75-105 | Reading the rosters back from the inserted rows gives each team exactly its members, in order. |
| TeamService.RosterAppend | backend/app/services/team_service.py:75-105 | The roster of a concatenation of membership rows is the concatenation of the rosters. |
| Leaderboard.SeasonRecordsOf | backend/app/services/leaderboard_service.py:52-59 | Exactly the player's rating records of the season. |
| Leaderboard.OutcomeCountsPartition | backend/app/services/leaderboard_service.py:62-76 | Wins, draws, losses and absences add up to the number of records. |
| Leaderboard.UnplayableThirdTimeZero | backend/app/services/leaderboard_service.py:82-92 | The unplayable-match third-time count is zero exactly when no unplayable match of the season has an attended row for the player. |
| Leaderboard.Points | backend/app/services/leaderboard_service.py:98-104 | Points = attendance + 3·wins + draws + third times, and non-negative for non-negative attendance. |
| Leaderboard.PointsRankOutcomes | backend/app/services/leaderboard_service.py:98-104 | A draw is worth one point more than a loss, and a win two more than a draw. |
| Leaderboard.AttendanceRate | backend/app/services/leaderboard_service.py:107-111 | 0 with no completed match; otherwise the rate times the completed count is 100 × attended, and it lies in [0, 100] when attended ≤ completed. |
| Leaderboard.StatsOf | backend/app/services/leaderboard_service.py:52-124 | Rating and counts come from the season row. Wins, draws and losses never exceed the records. Third times are zero when not counted. From a valid row, points are non-negative and the rate is in [0, 100]. |
| Leaderboard.FindPlayer | backend/app/services/leaderboard_service.py:42-45 | `scalar_one` succeeds iff exactly one player has the id, and returns that player. `NotFound` iff none has it. |
| Leaderboard.FindPlayerDistinct | backend/app/services/leaderboard_service.py:174-177 | With distinct ids, looking up a stored player's id returns that player. |
| Leaderboard.GetPlayerStats | backend/app/services/leaderboard_service.py:134-241 | It fails exactly when the player lookup fails. Without a season row it reports rating 3.0 and zero counts; with one, that row's statistics. An invited player's third-time count is zero. From a valid table, points are non-negative and the rate is in [0, 100]. |
| Leaderboard.SeasonRatingsQuery | backend/app/services/leaderboard_service.py:36 | At most 1000 rows, by rating, highest first. |
| Leaderboard.SeasonRatingsQueryRows | backend/app/repositories/season.py:45-56 | The query returns only rows of the season, and all of them when there are no more than the limit. |
| Leaderboard.CollectFails | backend/app/services/leaderboard_service.py:42-49 | The loop fails exactly when some row's player cannot be read. |
| Leaderboard.CollectSound | backend/app/services/leaderboard_service.py:42-124 | Every entry is the entry of one of the rows, and its player is listed. |
| Leaderboard.CollectComplete | backend/app/services/leaderboard_service.py:42-124 | Every row of a listed player has its entry in the loop's result. |
| Leaderboard.CollectLength | backend/app/services/leaderboard_service.py:42-124 | At most one entry per row. |
| Leaderboard.PointsOrderIsPreorder | backend/app/services/leaderboard_service.py:130 | Ordering by points and then by rating is a total preorder. |
| Leaderboard.CalculateSeasonLeaderboard | backend/app/services/leaderboard_service.py:31-132 | Entries are ordered by points, then by rating, both descending, with at most 1000 of them. |
| Leaderboard.LeaderboardSound | backend/app/services/leaderboard_service.py:31-132 | Every entry is the statistics of a season row whose player is listed. |
| Leaderboard.LeaderboardFails | backend/app/services/leaderboard_service.py:42-45 | The leaderboard fails only on a season row whose player cannot be read. |
| Leaderboard.LeaderboardComplete | backend/app/services/leaderboard_service.py:31-132 | With no more season rows than the limit, every listed player's row has its entry. |
| Leaderboard.ExcludedPlayersNeverListed | backend/app/services/leaderboard_service.py:48-49 | Invited and inactive players never appear. |
| Leaderboard.LeaderboardAgreesWithPlayerStats | backend/app/services/leaderboard_service.py:134-241 | Each leaderboard entry is exactly what `get_player_stats` reports for that player. |
| Recalculate.DeleteMatchRatings | backend/scripts/recalculate_match_ratings.py:64-76 | The rows kept are exactly those of other matches; the deleted count is the match's row count, and the two add up to the table. |
| Recalculate.DeleteKeepsTableValid | backend/scripts/recalculate_match_ratings.py:64-76 | Deleting keeps the table's CHECK and UNIQUE constraints. |
| Recalculate.PriorRows | backend/scripts/recalculate_match_ratings.py:104-113 | Exactly the player's season rows numbered below the week. |
| Recalculate.Latest | backend/scripts/recalculate_match_ratings.py:121-125 | The first row of `ORDER BY match_number DESC`: a row of the list whose match number no other row exceeds. |
| Recalculate.ResetRow | backend/scripts/recalculate_match_ratings.py:100-134 | With no prior rows, the row goes back to 3.0, zero counts and locked. Otherwise it takes the latest prior row's rating and number and counts the attended prior rows. Either way it is locked iff fewer than 3 matches are completed, and the key and calculation time are kept. |
| Recalculate.DistinctNumbersBound | backend/scripts/recalculate_match_ratings.py:128-131 | Rows with distinct match numbers between 1 and m number at most m. |
| Recalculate.ResetRowKeepsInvariant | backend/scripts/recalculate_match_ratings.py:100-134 | From valid rows with distinct match numbers per player season, the rewound row keeps the invariant (rating in range, attended ≤ completed). |
| Recalculate.ResetSeasonRatings | backend/scripts/recalculate_match_ratings.py:79-137 | Every row of the season is rewound, other seasons' rows are untouched, and no row is added or removed. |
| Recalculate.ResetKeepsTableValid | backend/scripts/recalculate_match_ratings.py:79-137 | Rewinding a valid table from valid, distinctly numbered rows keeps it valid. |
| Recalculate.RewindToFirstWeek | backend/scripts/recalculate_match_ratings.py:115-120 | Rewinding to week 1 or earlier restarts every row. |
| Recalculate.ResetIgnoresOtherRows | backend/scripts/recalculate_match_ratings.py:104-113 | Rows of other players or seasons, or numbered at or above the week, do not affect the rewind. |
| Recalculate.WeekArgument | backend/scripts/recalculate_match_ratings.py:233-249 | The argument is accepted iff it parses to a number of at least 1, and then that number is the week; a non-number is `NotANumber`. |
| Recalculate.Prepare | backend/scripts/recalculate_match_ratings.py:140-184 | A plan is produced only for the single match of the week, with a result, exactly two teams with averages, the season's players, and "yes" typed. A missing or duplicated week, a missing result and a wrong team count stop with their own errors. |
| Recalculate.PlanForMatch | backend/scripts/recalculate_match_ratings.py:158-184 | Once the match is found: a result, exactly two teams, both averages and the confirmation are all required; no result and a wrong team count give their own errors. |
| Recalculate.PlanForTeams | backend/scripts/recalculate_match_ratings.py:170-184 | It proceeds iff both team averages exist and "yes" is typed. |
| Recalculate.ReplaceTeams | backend/app/services/rating_service.py:58-67 | Same number of teams; the two teams are replaced by their re-averaged versions, and every other team is unchanged. |
| Recalculate.Rewrite | backend/scripts/recalculate_match_ratings.py:186-226 | A successful rewrite keeps the players and matches as they were. |
| Recalculate.RewriteStores | backend/scripts/recalculate_match_ratings.py:186-226 | The stored rows are the remaining rows followed by the engine's rows, and the season table is the engine's. |
| Recalculate.RerateAppendsMatchRows | backend/scripts/recalculate_match_ratings.py:186-226 | Every other match's rows keep their order, followed by one new row of this match per season player, in the players' order. |
| Recalculate.RewriteReplacesMatchRows | backend/scripts/recalculate_match_ratings.py:186-226 | After a success, the rows of other matches are exactly the old ones, and the match has exactly one row per season player. |
| Recalculate.RewriteTouchesOnlyParticipants | backend/scripts/recalculate_match_ratings.py:186-226 | Outside the match's season, season rows are untouched; inside it, only the rewound or season players' rows change. |
| Recalculate.RecalculateMatchRatings | backend/scripts/recalculate_match_ratings.py:140-249 | A bad argument or a failed check is reported as that error with nothing written; a success implies both the argument and the checks passed. |
| Recalculate.DeleteKeepsNumbersDistinct | backend/scripts/recalculate_match_ratings.py:64-76 | Deletion keeps match numbers distinct within each player's season. |
| Recalculate.RewriteSucceeds | backend/scripts/recalculate_match_ratings.py:186-226 | From a valid store with distinct season players, no flush and no insert is refused. |
| Recalculate.RecalculateWritesExactlyAfterChecks | backend/scripts/recalculate_match_ratings.py:140-249 | On a valid store, the script writes exactly when the argument is accepted and every check up to the confirmation passes. |
| ThirdTimeScript.PlayerMap | backend/scripts/record_third_time_attendance.py:85 | Every key is its player's lowercased name, and every player's lowercased name is a key. |
| ThirdTimeScript.PlayerMapValues | backend/scripts/record_third_time_attendance.py:85 | Every value of the map is one of the players. |
| ThirdTimeScript.PlayerMapLaterWins | backend/scripts/record_third_time_attendance.py:85 | The value under a key is the last player listed with that lowercased name. |
| ThirdTimeScript.Resolve | backend/scripts/record_third_time_attendance.py:95-112 | The exact lowercase key wins. Otherwise the unique player whose key partially matches either way round. None when several or none match. |
| ThirdTimeScript.ResolveIgnoresCase | backend/scripts/record_third_time_attendance.py:95-112 | The lookup does not depend on the case of the typed name. |
| ThirdTimeScript.ResolveFindsOwnName | backend/scripts/record_third_time_attendance.py:85-98 | A player's own name, in any case, finds that player when no later player shares the lowercased name. |
| ThirdTimeScript.UniqueRowsCountAtMostOne | backend/scripts/record_third_time_attendance.py:115-124 | Under the UNIQUE constraint, a (match, player) pair has at most one row, so `scalar_one_or_none` never raises. |
| ThirdTimeScript.AddFreshRowKeepsUnique | backend/scripts/record_third_time_attendance.py:115-135 | Adding a row for a pair with no row yet keeps the constraint. |
| ThirdTimeScript.RecordName | backend/scripts/record_third_time_attendance.py:94-135 | An unresolved name counts as not found. A player already recorded is skipped. Otherwise one attended row is added. Two stored rows for the pair raise. |
| ThirdTimeScript.RecordNamesCounts | backend/scripts/record_third_time_attendance.py:94-135 | Every name is counted exactly once, as created, skipped or not found. |
| ThirdTimeScript.RecordNamesKeepsUnique | backend/scripts/record_third_time_attendance.py:94-135 | From unique rows the loop never raises and never duplicates a pair. It only appends attended rows for mapped players of this match, exactly one per created record. |
| ThirdTimeScript.WithThirdTime | backend/scripts/record_third_time_attendance.py:94-135 | Only the match with that id gets the new rows; every other match is unchanged. |
| ThirdTimeScript.RecordForMatch | backend/scripts/record_third_time_attendance.py:70-135 | An empty line or a line with no names cancels; otherwise the loop runs over the match's stored rows. |
| ThirdTimeScript.RecordThirdTimeAttendance | backend/scripts/record_third_time_attendance.py:27-135 | With no or several matches for the week, or no regular players, it stops; on success only the week's match changes. |
| ThirdTimeScript.RecordingNeverDuplicates | backend/scripts/record_third_time_attendance.py:70-135 | From unique rows and a line naming someone, recording succeeds. The stored rows come first, then one new row per created record, each for a regular active player, and the constraint still holds. |
| RecordMatch.Ids | backend/scripts/record_match.py:44-58 | The ids of the players, in order. |
| RecordMatch.SelectAttendees | backend/scripts/record_match.py:61-86 | An answer is accepted iff the stripped line is non-empty, every number is valid and at least two are typed; the ids are the numbered players' ids, in typed order. |
| RecordMatch.SelectAttendeesByNumbers | backend/scripts/record_match.py:70-86 | Typing the numbers of at least two valid positions selects the players at those positions. |
| RecordMatch.ChosenAreAttendees | backend/scripts/record_match.py:70-86 | Selected ids are ids of the listed players. |
| RecordMatch.MarkAttendance | backend/scripts/record_match.py:123-135 | One row per season player, in order, marked attended exactly when selected. |
| RecordMatch.AttendedAreTheSelected | backend/scripts/record_match.py:123-135 | The players marked attended are exactly the selected season players; every other season player is marked absent. |
| RecordMatch.Complement | backend/scripts/record_match.py:188 | Pink is the attendees not in Black, in attendee order. |
| RecordMatch.PickTeams | backend/scripts/record_match.py:169-192 | As written: Black is accepted iff its numbers are valid, at least one is typed, and fewer entries than attendees; Pink is the complement. |
| RecordMatch.DistinctCount | backend/scripts/record_match.py:169-192 | A list has at most as many distinct elements as entries, and as many when nothing repeats. |
| RecordMatch.DistinctAttendeesLeavePink | backend/scripts/record_match.py:169-192 | With distinct attendees, fewer Black entries than attendees always leave someone for Pink. |
| RecordMatch.PickTeamsChecked | backend/scripts/record_match.py:169-192 | Corrected: a repeated number or an empty Pink is refused, so both teams have members and no member repeats. |
| RecordMatch.CheckedAgreesOnDistinct | backend/scripts/record_match.py:169-192 | With distinct attendees and no repeated number, the corrected prompt accepts exactly what the original accepts. |
| RecordMatch.SelectAttendeesChecked | backend/scripts/record_match.py:61-86 | Corrected: as the original, but a number typed twice is refused. |
| RecordMatch.AverageOrNone | backend/scripts/record_match.py:194-243 | An empty team has no average; otherwise the members' mean current rating, in [1, 5] from a valid table. |
| RecordMatch.CreateTeams | backend/scripts/record_match.py:194-258 | A repeated member breaks the UNIQUE constraint, and a missing average cannot be printed. Otherwise both teams are stored with their averages, Black's member rows first. |
| RecordMatch.TypedTwiceSelectsTwice | backend/scripts/record_match.py:70-86 | Typing "1 1" selects the first player twice. |
| RecordMatch.RepeatedAttendeeEmptiesPink | backend/scripts/record_match.py:169-192 | As written: attendees "1 1" and Black "1" pass both prompts, Pink is empty, and printing its average fails. |
| RecordMatch.CheckedTeamsAreCreated | backend/scripts/record_match.py:169-258 | With the corrected prompts, both teams have members, none repeats, and both averages exist and lie in [1, 5]. |
| RecordMatch.RecordResult | backend/scripts/record_match.py:263-302 | Scores are read with `int()` and no lower bound. A non-number records nothing; otherwise the higher score wins for Black (team A) or Pink, and equal scores draw. |
| RecordMatch.RecordThirdTimeByNumbers | backend/scripts/record_match.py:305-343 | An empty line or an invalid selection records nothing. Otherwise there is one attended row per selected player, and a player selected twice breaks the UNIQUE constraint. |
| RecordMatch.ThirdTimeRows | backend/scripts/record_match.py:332-339 | One attended row per selected player, in order; a repeated player fails. |
| MatchResultScripts.FirstNamed | backend/scripts/record_match_result.py:71-86 | The first team with the given name, if any. |
| MatchResultScripts.BlackAndPink | backend/scripts/record_match_result.py:71-86 | Accepted iff there are exactly two teams, a black one and a pink one, returned as A and B; otherwise the wrong count or the missing team is reported. |
| MatchResultScripts.SetMatch | backend/scripts/record_match_result.py:129-140 | Only the match with that id is replaced; the length and every other match are kept. |
| MatchResultScripts.ClearResultAsWritten | backend/scripts/record_match_result.py:52-68 | As written: with "yes" typed over an existing result, the second read of the consumed query fails. |
| MatchResultScripts.ClearResult | backend/scripts/record_match_result.py:52-68 | Intended: with no result it passes; with a result, "yes" deletes it and anything else keeps it and stops. |
| MatchResultScripts.OverwriteNeverCompletes | backend/scripts/record_match_result.py:52-68 | As written, overwriting never gets through: "yes" stops on the consumed query while the intended step goes on with the result deleted. |
| MatchResultScripts.ClearResultAgreesOtherwise | backend/scripts/record_match_result.py:52-68 | On every answer other than "yes" over an existing result, the written and the intended step agree. |
| MatchResultScripts.TypedWeek | backend/scripts/record_match_result.py:28-37 | The first typed week that is a number of at least 1. |
| MatchResultScripts.TypedScores | backend/scripts/record_match_result.py:92-112 | The first accepted black and pink scores, both at least 0. |
| MatchResultScripts.ResultForWeek | backend/scripts/record_match_result.py:41-140 | After the week is known: a missing or duplicated match, a kept existing result, or unusable teams stop the script; otherwise the result is stored. |
| MatchResultScripts.RecordMatchResult | backend/scripts/record_match_result.py:23-140 | Input that runs out before a week is accepted stops the script with nothing written; otherwise it behaves as the step for the typed week. |
| MatchResultScripts.RecordedResultFollowsScores | backend/scripts/record_match_result.py:41-140 | A recorded result belongs to the week's match. It holds the first accepted scores, both ≥ 0, with Black as A and Pink as B, and no other table changes. |
| MatchResultScripts.UnusableTeamsWriteNoResult | backend/scripts/record_match_result.py:52-86 | Without teams named black and pink, no result is written; only an agreed deletion is committed. |
| MatchResultScripts.ExactAt | backend/scripts/record_match_result_and_update_leaderboard.py:38-42 | The first player whose lowercased name equals the key, or the end of the list. |
| MatchResultScripts.FindPlayerByName | backend/scripts/record_match_result_and_update_leaderboard.py:34-54 | The first exact lowercase match wins. Otherwise the one player whose name contains the typed text. None when several or none do. |
| MatchResultScripts.FindPlayerByOwnName | backend/scripts/record_match_result_and_update_leaderboard.py:34-54 | A player's own name, in any case and with spaces around it, finds that player when no two players share a lowercased name. |
| MatchResultScripts.AmbiguousNameFindsNobody | backend/scripts/record_match_result_and_update_leaderboard.py:44-54 | A text matching no name exactly and occurring in two names finds nobody. |
| MatchResultScripts.Locate | backend/scripts/record_match_result_and_update_leaderboard.py:62-111 | The match is located only for the single match of the first accepted week that is not UNPLAYABLE and has black and pink teams; each other case is its own error. |
| MatchResultScripts.ResultStep | backend/scripts/record_match_result_and_update_leaderboard.py:118-184 | An existing result is kept unless "yes" is typed; otherwise the result of the first accepted scores, with Black as A. |
| MatchResultScripts.NamedRows | backend/scripts/record_match_result_and_update_leaderboard.py:227-246 | One attended row of this match per typed name that finds a player, in typed order. |
| MatchResultScripts.NamedRowFromName | backend/scripts/record_match_result_and_update_leaderboard.py:227-246 | Every row is for a player that one of the typed names finds. |
| MatchResultScripts.NameGivesRow | backend/scripts/record_match_result_and_update_leaderboard.py:227-246 | Every typed name that finds a player gives that player a row. |
| MatchResultScripts.ThirdTimeStep | backend/scripts/record_match_result_and_update_leaderboard.py:191-251 | Existing rows are kept unless "yes" is typed; otherwise they are replaced by the named rows, and a player found twice breaks the UNIQUE constraint. |
| MatchResultScripts.RepeatedNameRowsTwice | backend/scripts/record_match_result_and_update_leaderboard.py:227-246 | Two names finding the same player give that player two rows. |
| MatchResultScripts.RepeatedNameRollsBack | backend/scripts/record_match_result_and_update_leaderboard.py:191-251 | Naming a player twice makes the flush fail, and the whole session, result included, is lost. |
| MatchResultScripts.RateAndCommit | backend/scripts/record_match_result_and_update_leaderboard.py:270-328 | The engine rates the match with the third-time rows it is handed. A refused season row or insert rolls everything back. Otherwise the match is stored COMPLETED and the engine's rows and table are committed. |
| MatchResultScripts.RecordAndUpdate | backend/scripts/record_match_result_and_update_leaderboard.py:75-328 | As written: everything is committed together, or nothing is, and every error leaves no store. The engine reads the third-time rows the match was loaded with, not those step 2 stores (Finding 3). |
| MatchResultScripts.RecordAndUpdateReloaded | backend/scripts/record_match_result_and_update_leaderboard.py:75-328 | As intended: the same script, with the engine reading the third-time rows that are stored. |
| MatchResultScripts.Prepared | backend/scripts/record_match_result_and_update_leaderboard.py:75-251 | The match as stored after both steps: located, with the step's result and with the rows the third-time step returns. |
| MatchResultScripts.UpdateRatesPrepared | backend/scripts/record_match_result_and_update_leaderboard.py:75-302 | Both versions commit what rating the prepared match commits. As written the engine is handed the located match's third-time rows; as intended, the prepared ones. |
| MatchResultScripts.ReloadedAgreesWhenRowsKept | backend/scripts/record_match_result_and_update_leaderboard.py:200-216 | When step 2 keeps the located third-time rows, the as-written and the intended script give the same outcome. |
| MatchResultScripts.RateAndCommitThirdTime | backend/app/services/rating_service.py:95-99 | A committed record for the k-th season player follows the stored rows, and flags third time exactly when the rows handed to the engine mark that player. |
| MatchResultScripts.NewThirdTimeEarnsNoBonus | backend/scripts/record_match_result_and_update_leaderboard.py:238-263 | As written, in a week without third-time rows, the match is stored with the new rows, yet every season player's new record says "no third time". |
| MatchResultScripts.ReloadedSeesStoredThirdTime | backend/scripts/record_match_result_and_update_leaderboard.py:238-302 | As intended, each new record flags third time exactly when the stored rows mark that player as attending. |
| MatchResultScripts.StaleThirdTimeDiffers | backend/scripts/record_match_result_and_update_leaderboard.py:238-302 | A player newly recorded at step 2 in a week without rows is rated without the flag as written and with it as intended, so the two commit different stores. |
| MatchResultScripts.UpdateCompletesMatch | backend/scripts/record_match_result_and_update_leaderboard.py:270-328 | After a success, the match is stored COMPLETED with a result, and one new rating row per season player follows the stored rows. |
| MatchResultScripts.RateAndCommitAppends | backend/scripts/record_match_result_and_update_leaderboard.py:299-328 | A committed rating appends one row per season player after the stored rows. |
| MatchResultScripts.InsertClash | backend/app/models/rating.py:101-105 | A new row for a (player, match) pair already stored breaks the UNIQUE constraint. |
| MatchResultScripts.RateAndCommitClash | backend/scripts/record_match_result_and_update_leaderboard.py:299-322 | Rating a match that already has a row for a season player is refused at the insert. |
| MatchResultScripts.RatedTwiceRollsBack | backend/scripts/record_match_result_and_update_leaderboard.py:56-328 | Rating a week already rated for a season player rolls back the whole session, result and third time included, in both versions. |
| MatchResultScripts.FreshMatchIsCommitted | backend/scripts/record_match_result_and_update_leaderboard.py:56-328 | From a valid store, once the checks and both steps pass, a match with no rating rows yet is rated and committed, in both versions. |

## Left out

- Text is ASCII only:
  - `Text.Lower`, `Text.Strip`, `Text.SplitWhitespace`: Unicode case mapping and Unicode whitespace are not modelled.
  - `Text.ParseInt`: signs and ASCII digits only. `int()`'s underscores and non-ASCII digits are not accepted.
- Exact reals:
  - All arithmetic is exact. Floating-point rounding is not modelled.
  - `round(x, 2)` in the leaderboard and the team averages is not modelled.
  - The `Leaderboard` figures are therefore unrounded.
- `10 ** x` is the parameter `pow10` under `Elo.Pow10Law`, not a computed power.
- I/O, the async database session, printing, and the prompts' terminal handling are not modelled. A prompt reads from a list of typed lines. Output that is only printed is not modelled.
- Timestamps are not computed: `datetime.utcnow()` is the parameter `now`.
- `random.shuffle` is not modelled: the shuffled orders are an input of `TeamService.ShuffleTeams`, each required to be a permutation of the ids.
- Storage order:
  - The database's order for rows that tie under `ORDER BY` is unspecified. The model keeps table order (a stable sort).
  - `ORDER BY name` is code-point order, not a collation.
- Recalculation:
  - `Recalculate.ResetRowKeepsInvariant` assumes no player's season repeats a match number (`NumbersDistinct`). Nothing in the schema enforces that.
  - That recalculation reproduces the original values is not proved. It holds only under assumptions about how match numbers relate to match weeks, which the schema does not state.
- `calculate_season_leaderboard` and `get_player_stats` read the player with `scalar_one`, and only the lookup failure of that read is modelled. Other database errors are not.
- `record_match.py`'s `main` orchestration is not modelled:
  - the match date and location prompts;
  - the rating step (`calculate_ratings`, lines 346-383, which calls the engine modelled by `RatingService.CalculateMatchRatings`);
  - the leaderboard display.
- The API endpoints, the schemas and the frontend are not modelled.
- `MatchResultScripts.RecordMatchResult` models the overwrite step as intended (`ClearResult`). The as-written step is `ClearResultAsWritten`; see Findings.
- `MatchResultScripts.RecordAndUpdate` models the combined script as written: its engine does not see the third-time rows step 2 adds or deletes. This rests on SQLAlchemy's identity-map rules, which are not modelled. `MatchResultScripts.RecordAndUpdateReloaded` is the intended version; see Findings.

## Findings

| source | as written | input that shows it | evidently intended | confidence | as-written member | corrected member |
|---|---|---|---|---|---|---|
| backend/scripts/record_match.py:169-192 | `select_attendees` accepts a number typed twice. The Black check `len(black) >= len(attendees)` counts entries, not players, so Black can take every attendee and Pink is empty; printing Pink's average (`None`) then raises. | attendees "1 1", Team Black "1" | Both teams non-empty with distinct members: refuse repeated numbers and an empty Pink | not executed | RecordMatch.RepeatedAttendeeEmptiesPink | RecordMatch.CheckedTeamsAreCreated |
| backend/scripts/record_match_result.py:52-68 | After `existing_result.scalar_one_or_none()` has consumed the result, line 66 calls `existing_result.scalar_one()` on it again, so a confirmed overwrite raises and rolls back. | a match with a stored result, "yes" typed at the overwrite prompt | The existing result is deleted and the new scores are recorded | not executed | MatchResultScripts.OverwriteNeverCompletes | MatchResultScripts.ClearResult |
| backend/scripts/record_match_result_and_update_leaderboard.py:238-263 | Step 2 adds its rows with `db.add` and deletes old ones with `db.delete`, neither of which changes the match's loaded `third_time_attendances` collection. The re-select at lines 253-263 finds the match already in the session and, without `populate_existing`, keeps that collection. So the engine (`rating_service.py:95-99`) reads the rows from before step 2. | a week with no third-time rows, and a regular season player's name typed at step 2: the row is committed, but the player's record has `attended_third_time` false and no +0.05 | The engine rates with the third-time rows that are committed | not executed; rests on SQLAlchemy's session rules | MatchResultScripts.StaleThirdTimeDiffers | MatchResultScripts.ReloadedSeesStoredThirdTime |
