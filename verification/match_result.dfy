/**
 * The two result scripts: `record_match_result` stores the scores of a week's match,
 * and `record_match_result_and_update_leaderboard` stores the scores, replaces the
 * third-time rows and rates the match in one session.
 */
module MatchResultScripts {
  import opened Wrappers
  import opened Text
  import opened Entities
  import opened Sorting
  import opened Queries
  import opened Prompts
  import opened RatingService
  import opened Elo
  import Recalculate

  // ---------------------------------------------------------------- the two teams

  /** The position of the first team with the given name; `|teams|` when there is none. */
  function FirstNamedAt(teams: seq<Team>, name: TeamName): (k: nat)
    ensures k <= |teams|
    ensures forall j :: 0 <= j < k ==> teams[j].name != name
    ensures k < |teams| ==> teams[k].name == name
    decreases |teams|
  {
    if |teams| == 0 then 0
    else if teams[0].name == name then 0
    else
      assert forall j :: 1 <= j < |teams| ==> teams[j] == teams[1..][j - 1];
      1 + FirstNamedAt(teams[1..], name)
  }

  /** `next((t for t in teams if t.name == name), None)`. */
  function FirstNamed(teams: seq<Team>, name: TeamName): (r: Option<Team>)
    ensures r.None? <==> forall t :: t in teams ==> t.name != name
    ensures r.Some? ==> exists k :: 0 <= k < |teams| && teams[k] == r.value && r.value.name == name
                                    && forall j :: 0 <= j < k ==> teams[j].name != name
  {
    var k := FirstNamedAt(teams, name);
    if k < |teams| then Some(teams[k]) else None
  }

  /** Why a match's teams do not do. */
  datatype TeamsProblem = TeamCount(found: nat) | MissingTeam

  /** Exactly two teams, one of them black (team A) and the other pink (team B). */
  function BlackAndPink(teams: seq<Team>): (r: Result<(Team, Team), TeamsProblem>)
    ensures |teams| != 2 ==> r == Err(TeamCount(|teams|))
    ensures r.Ok? <==> |teams| == 2 && teams[0].name != teams[1].name
    ensures r.Ok? ==> r.value.0.name == TeamA && r.value.1.name == TeamB
                      && r.value.0 in teams && r.value.1 in teams
  {
    if |teams| != 2 then Err(TeamCount(|teams|))
    else
      match (FirstNamed(teams, TeamA), FirstNamed(teams, TeamB))
      case (Some(black), Some(pink)) => Ok((black, pink))
      case _ => Err(MissingTeam)
  }

  /** Stores `m` in place of the stored match with its id. */
  function SetMatch(matches: seq<Match>, m: Match): (r: seq<Match>)
    ensures |r| == |matches|
    ensures forall i :: 0 <= i < |matches| ==> r[i] == if matches[i].id == m.id then m else matches[i]
  {
    seq(|matches|, i requires 0 <= i < |matches| => if matches[i].id == m.id then m else matches[i])
  }

  // ---------------------------------------------------------------- record_match_result

  /** What the operator types: the week answers, the overwrite answer, and the score answers. */
  datatype ResultTyping = ResultTyping(week: seq<string>, overwrite: string, black: seq<string>, pink: seq<string>)

  /** Why `record_match_result` ends without a new result. */
  datatype Stop =
    | InputEnded           // a prompt reads past the last typed line
    | NoMatchForWeek
    | SeveralMatchesForWeek
    | KeptExisting         // the operator does not confirm the overwrite
    | ResultConsumed       // the second read of the existing-result query raises
    | TeamsUnusable(problem: TeamsProblem)

  /** What the script leaves in the database, and why it stopped early if it did. */
  datatype Run = Run(db: Store, stop: Option<Stop>)

  /**
   * Lines 52-68 as written: `scalar_one_or_none()` has already consumed the query
   * result, so the `scalar_one()` on it meant to fetch the row to delete raises, and
   * the session rolls back.
   */
  function ClearResultAsWritten(db: Store, m: Match, answer: string): (r: Result<Store, Stop>)
    ensures m.result.None? ==> r == Ok(db)
    ensures m.result.Some? ==> r.Err?
  {
    if m.result.None? then Ok(db)
    else if !Confirms(answer) then Err(KeptExisting)
    else Err(ResultConsumed)
  }

  /** Lines 52-68 as intended: a confirmed overwrite deletes the existing result. */
  function ClearResult(db: Store, m: Match, answer: string): (r: Result<Store, Stop>)
    ensures m.result.None? ==> r == Ok(db)
    ensures m.result.Some? && !Confirms(answer) ==> r == Err(KeptExisting)
    ensures m.result.Some? && Confirms(answer) ==> r == Ok(db.(matches := SetMatch(db.matches, m.(result := None))))
  {
    if m.result.None? then Ok(db)
    else if !Confirms(answer) then Err(KeptExisting)
    else Ok(db.(matches := SetMatch(db.matches, m.(result := None))))
  }

  /**
   * As written, overwriting an existing result never gets through: with "yes" typed the
   * script stops on the consumed query, while the intended step goes on with the result
   * deleted. The two agree on every other answer.
   */
  lemma OverwriteNeverCompletes(db: Store, m: Match, answer: string)
    requires m.result.Some? && Confirms(answer)
    ensures ClearResultAsWritten(db, m, answer) == Err(ResultConsumed)
    ensures ClearResult(db, m, answer).Ok?
  {
  }

  lemma ClearResultAgreesOtherwise(db: Store, m: Match, answer: string)
    requires m.result.None? || !Confirms(answer)
    ensures ClearResultAsWritten(db, m, answer) == ClearResult(db, m, answer)
  {
  }

  /** The week the prompt settles on (lines 28-37 and 63-72): the first answer of at least 1. */
  function TypedWeek(lines: seq<string>): (r: Option<int>)
    ensures r.Some? <==> Prompt(lines, WeekAnswer).Some?
    ensures r.Some? ==> r.value == Prompt(lines, WeekAnswer).value.0 && r.value >= FIRST_WEEK
  {
    match Prompt(lines, WeekAnswer)
    case None => None
    case Some((week, n)) =>
      assert WeekAnswer(lines[n - 1]) == Ok(week);
      Some(week)
  }

  /** The black and pink scores the two prompts settle on: the first answers of at least 0. */
  function TypedScores(black: seq<string>, pink: seq<string>): (r: Option<(int, int)>)
    ensures r.Some? <==> Prompt(black, ScoreAnswer).Some? && Prompt(pink, ScoreAnswer).Some?
    ensures r.Some? ==> r.value == (Prompt(black, ScoreAnswer).value.0, Prompt(pink, ScoreAnswer).value.0)
    ensures r.Some? ==> r.value.0 >= LEAST_SCORE && r.value.1 >= LEAST_SCORE
  {
    match (Prompt(black, ScoreAnswer), Prompt(pink, ScoreAnswer))
    case (Some((a, i)), Some((b, j))) =>
      assert ScoreAnswer(black[i - 1]) == Ok(a) && ScoreAnswer(pink[j - 1]) == Ok(b);
      Some((a, b))
    case _ => None
  }

  /** `record_match_result` once the week is known. */
  function ResultForWeek(week: int, typed: ResultTyping, db: Store): (r: Run)
    ensures r.stop.Some? && !r.stop.value.TeamsUnusable? ==> r.db == db
  {
    match MatchByWeek(db.matches, week)
    case Err(NotFound) => Run(db, Some(NoMatchForWeek))
    case Err(SeveralFound) => Run(db, Some(SeveralMatchesForWeek))
    case Ok(m) =>
      match ClearResult(db, m, typed.overwrite)
      case Err(e) => Run(db, Some(e))
      case Ok(cleared) =>
        match BlackAndPink(TeamsOf(db.teams, m.id))
        case Err(p) => Run(cleared, Some(TeamsUnusable(p)))
        case Ok((black, pink)) =>
          match TypedScores(typed.black, typed.pink)
          case Some((a, b)) =>
            Run(db.(matches := SetMatch(db.matches, m.(result := Some(ResultFromScores(m.id, black.id, pink.id, a, b))))), None)
          case None => Run(db, Some(InputEnded))
  }

  /**
   * `record_match_result` with the intended overwrite step. A plain `return` inside the
   * session commits what was done so far, an exception rolls it back.
   */
  function RecordMatchResult(typed: ResultTyping, db: Store): (r: Run)
    ensures TypedWeek(typed.week).None? ==> r == Run(db, Some(InputEnded))
    ensures TypedWeek(typed.week).Some? ==> r == ResultForWeek(TypedWeek(typed.week).value, typed, db)
  {
    match TypedWeek(typed.week)
    case None => Run(db, Some(InputEnded))
    case Some(week) => ResultForWeek(week, typed, db)
  }

  /**
   * A recorded result belongs to the typed week's match: it holds the first accepted
   * scores, both at least 0, with black as team A and pink as team B; no other table
   * changes.
   */
  lemma RecordedResultFollowsScores(week: int, typed: ResultTyping, db: Store)
    requires ResultForWeek(week, typed, db).stop.None?
    ensures MatchByWeek(db.matches, week).Ok?
    ensures var m := MatchByWeek(db.matches, week).value;
            && BlackAndPink(TeamsOf(db.teams, m.id)).Ok?
            && TypedScores(typed.black, typed.pink).Some?
            && var (black, pink) := BlackAndPink(TeamsOf(db.teams, m.id)).value;
               var (a, b) := TypedScores(typed.black, typed.pink).value;
               ResultForWeek(week, typed, db)
                 == Run(db.(matches := SetMatch(db.matches, m.(result := Some(ResultFromScores(m.id, black.id, pink.id, a, b))))), None)
  {
  }

  /**
   * A match without two teams named black and pink gets no result; the only change
   * committed is the deletion of an existing result the operator agreed to overwrite.
   */
  lemma UnusableTeamsWriteNoResult(week: int, typed: ResultTyping, db: Store, m: Match)
    requires MatchByWeek(db.matches, week) == Ok(m)
    requires BlackAndPink(TeamsOf(db.teams, m.id)).Err?
    ensures ResultForWeek(week, typed, db).stop.Some?
    ensures m.result.None? ==> ResultForWeek(week, typed, db) == Run(db, Some(TeamsUnusable(BlackAndPink(TeamsOf(db.teams, m.id)).error)))
    ensures m.result.Some? && Confirms(typed.overwrite) ==>
              ResultForWeek(week, typed, db).db == db.(matches := SetMatch(db.matches, m.(result := None)))
  {
  }

  // ---------------------------------------------------------------- find_player_by_name

  /** The position of the first player whose lowercased name is `key`; `|players|` when there is none. */
  function ExactAt(players: seq<Player>, key: string): (k: nat)
    ensures k <= |players|
    ensures forall j :: 0 <= j < k ==> Lower(players[j].name) != key
    ensures k < |players| ==> Lower(players[k].name) == key
    decreases |players|
  {
    if |players| == 0 then 0
    else if Lower(players[0].name) == key then 0
    else
      assert forall j :: 1 <= j < |players| ==> players[j] == players[1..][j - 1];
      1 + ExactAt(players[1..], key)
  }

  /** `name_lower in p.name.lower()`: the typed text occurs in the lowercased name. */
  function NameHolds(key: string): Player -> bool {
    (p: Player) => Contains(Lower(p.name), key)
  }

  /**
   * `find_player_by_name` (lines 34-54): the typed text is lowercased and trimmed; the
   * first player with exactly that lowercased name wins; otherwise the one player whose
   * lowercased name contains it, and no player when several or none do.
   */
  function FindPlayerByName(players: seq<Player>, typed: string): (r: Option<Player>)
    ensures var key := Strip(Lower(typed));
            (exists i :: 0 <= i < |players| && Lower(players[i].name) == key) ==>
              r.Some? && r.value == players[ExactAt(players, key)]
    ensures var key := Strip(Lower(typed));
            (forall i :: 0 <= i < |players| ==> Lower(players[i].name) != key) ==>
              && (r.Some? <==> CountIf(players, NameHolds(key)) == 1)
              && (r.Some? ==> r.value in players && Contains(Lower(r.value.name), key))
  {
    var key := Strip(Lower(typed));
    var k := ExactAt(players, key);
    if k < |players| then Some(players[k])
    else
      var matches := FilterBy(players, NameHolds(key));
      if |matches| == 1 then
        assert matches[0] in matches;
        Some(matches[0])
      else None
  }

  /**
   * Typing a player's name in any case, with spaces around it, finds that player when no
   * two players share a lowercased name.
   */
  lemma FindPlayerByOwnName(players: seq<Player>, i: nat, typed: string)
    requires i < |players|
    requires forall j, k :: 0 <= j < k < |players| ==> Lower(players[j].name) != Lower(players[k].name)
    requires Strip(Lower(typed)) == Lower(players[i].name)
    ensures FindPlayerByName(players, typed) == Some(players[i])
  {
    var k := ExactAt(players, Lower(players[i].name));
    assert k <= i;
  }

  /** A typed text that matches no name exactly and occurs in two names finds nobody. */
  lemma AmbiguousNameFindsNobody(players: seq<Player>, typed: string, i: nat, j: nat)
    requires i < j < |players|
    requires forall k :: 0 <= k < |players| ==> Lower(players[k].name) != Strip(Lower(typed))
    requires Contains(Lower(players[i].name), Strip(Lower(typed))) && Contains(Lower(players[j].name), Strip(Lower(typed)))
    ensures FindPlayerByName(players, typed).None?
  {
    var key := Strip(Lower(typed));
    CountIfIsCardinality(players, NameHolds(key));
    assert {i, j} <= Positions(players, NameHolds(key));
    assert |{i, j}| == 2;
    SubsetSize({i, j}, Positions(players, NameHolds(key)));
  }

  // ---------------------------------------------------------------- record_match_result_and_update_leaderboard

  /** What the operator types to the combined script. */
  datatype UpdateTyping = UpdateTyping(
    week: seq<string>,
    overwrite: string,
    black: seq<string>,
    pink: seq<string>,
    amend: string,
    thirdTime: string)

  /** Why rating the match fails; the session is rolled back. */
  datatype RatingFailure = SeasonRowRejected | InsertRejected(cause: CommitError)

  /** Why the combined script ends without writing anything. */
  datatype UpdateError =
    | TypingEnded
    | NoMatch
    | SeveralMatches
    | MatchUnplayable
    | TeamsNotUsable(problem: TeamsProblem)
    | ThirdTimeRowTwice      // the UNIQUE (match, player) constraint refuses the flushed rows
    | RatingFailed(failure: RatingFailure)

  /**
   * Lines 62-111: the week prompt, the match of that week, the UNPLAYABLE check and the
   * two teams.
   */
  function Locate(weekLines: seq<string>, db: Store): (r: Result<(Match, Team, Team), UpdateError>)
    ensures TypedWeek(weekLines).None? ==> r == Err(TypingEnded)
    ensures r.Ok? ==> TypedWeek(weekLines).Some?
                      && MatchByWeek(db.matches, TypedWeek(weekLines).value) == Ok(r.value.0)
                      && r.value.0.status != Unplayable
                      && BlackAndPink(TeamsOf(db.teams, r.value.0.id)) == Ok((r.value.1, r.value.2))
    ensures TypedWeek(weekLines).Some? ==>
              var found := MatchByWeek(db.matches, TypedWeek(weekLines).value);
              && (found == Err(NotFound) ==> r == Err(NoMatch))
              && (found == Err(SeveralFound) ==> r == Err(SeveralMatches))
              && (found.Ok? && found.value.status == Unplayable ==> r == Err(MatchUnplayable))
              && (found.Ok? && found.value.status != Unplayable && BlackAndPink(TeamsOf(db.teams, found.value.id)).Err? ==>
                    r == Err(TeamsNotUsable(BlackAndPink(TeamsOf(db.teams, found.value.id)).error)))
  {
    match TypedWeek(weekLines)
    case None => Err(TypingEnded)
    case Some(week) =>
      match MatchByWeek(db.matches, week)
      case Err(NotFound) => Err(NoMatch)
      case Err(SeveralFound) => Err(SeveralMatches)
      case Ok(m) =>
        if m.status == Unplayable then Err(MatchUnplayable)
        else
          match BlackAndPink(TeamsOf(db.teams, m.id))
          case Err(p) => Err(TeamsNotUsable(p))
          case Ok((black, pink)) => Ok((m, black, pink))
  }

  /**
   * Lines 118-184: an existing result is kept unless the operator types "yes"; otherwise
   * the scores are read and the result is built with black as team A.
   */
  function ResultStep(m: Match, black: Team, pink: Team, typed: UpdateTyping): (r: Result<MatchResult, UpdateError>)
    ensures m.result.Some? && !Confirms(typed.overwrite) ==> r == Ok(m.result.value)
    ensures m.result.None? || Confirms(typed.overwrite) ==>
              (r.Ok? <==> TypedScores(typed.black, typed.pink).Some?)
              && (r.Ok? ==> r.value == ResultFromScores(m.id, black.id, pink.id,
                                                       TypedScores(typed.black, typed.pink).value.0,
                                                       TypedScores(typed.black, typed.pink).value.1))
    ensures r.Err? ==> r == Err(TypingEnded)
  {
    if m.result.Some? && !Confirms(typed.overwrite) then Ok(m.result.value)
    else
      match TypedScores(typed.black, typed.pink)
      case Some((a, b)) => Ok(ResultFromScores(m.id, black.id, pink.id, a, b))
      case None => Err(TypingEnded)
  }

  /**
   * Lines 227-246: one attended row per typed name that finds a regular player, in
   * typed order; a name that finds nobody is passed over, and a player named twice
   * gets two rows.
   */
  function NamedRows(m: MatchId, find: string -> Option<Player>, names: seq<string>): (rows: seq<ThirdTimeAttendance>)
    ensures |rows| <= |names|
    ensures forall i :: 0 <= i < |rows| ==> rows[i].matchId == m && rows[i].attended
    decreases |names|
  {
    if |names| == 0 then []
    else
      var n := |names| - 1;
      var init := NamedRows(m, find, names[..n]);
      match find(names[n])
      case None => init
      case Some(p) => init + [ThirdTimeAttendance(m, p.id, true)]
  }

  /** Every row is for a player that one of the typed names finds. */
  lemma {:induction false} NamedRowFromName(m: MatchId, find: string -> Option<Player>, names: seq<string>, a: nat)
    requires a < |NamedRows(m, find, names)|
    ensures exists k :: 0 <= k < |names| && find(names[k]).Some?
                        && find(names[k]).value.id == NamedRows(m, find, names)[a].playerId
    decreases |names|
  {
    var n := |names| - 1;
    var init := NamedRows(m, find, names[..n]);
    var rows := NamedRows(m, find, names);
    if a < |init| {
      assert rows[a] == init[a];
      NamedRowFromName(m, find, names[..n], a);
      var k :| 0 <= k < n && find(names[..n][k]).Some?
                          && find(names[..n][k]).value.id == init[a].playerId;
      assert names[..n][k] == names[k];
    } else {
      assert find(names[n]).Some?;
    }
  }

  /** Every typed name that finds a player gives that player a row. */
  lemma {:induction false} NameGivesRow(m: MatchId, find: string -> Option<Player>, names: seq<string>, k: nat)
    requires k < |names| && find(names[k]).Some?
    ensures exists a :: 0 <= a < |NamedRows(m, find, names)|
                        && NamedRows(m, find, names)[a].playerId == find(names[k]).value.id
    decreases |names|
  {
    var n := |names| - 1;
    var init := NamedRows(m, find, names[..n]);
    var rows := NamedRows(m, find, names);
    if k < n {
      assert names[..n][k] == names[k];
      NameGivesRow(m, find, names[..n], k);
      var a :| 0 <= a < |init| && init[a].playerId == find(names[k]).value.id;
      assert rows[a] == init[a];
    } else {
      assert rows[|rows| - 1].playerId == find(names[k]).value.id;
    }
  }

  /** The lookup the combined script applies to each typed name. */
  function Finder(regular: seq<Player>): string -> Option<Player> {
    name => FindPlayerByName(regular, name)
  }

  /** No player appears twice among the rows. */
  predicate DistinctPlayers(rows: seq<ThirdTimeAttendance>) {
    forall i, j :: 0 <= i < j < |rows| ==> rows[i].playerId != rows[j].playerId
  }

  /**
   * Lines 191-251: the existing third-time rows are kept unless the operator types
   * "yes", in which case they are deleted and the typed names are recorded; the rows are
   * flushed together, so a player found twice violates the UNIQUE constraint.
   */
  function ThirdTimeStep(m: Match, regular: seq<Player>, typed: UpdateTyping): (r: Result<seq<ThirdTimeAttendance>, UpdateError>)
    ensures |m.thirdTime| > 0 && !Confirms(typed.amend) ==> r == Ok(m.thirdTime)
    ensures (|m.thirdTime| == 0 || Confirms(typed.amend)) && Strip(typed.thirdTime) == "" ==> r == Ok([])
    ensures (|m.thirdTime| == 0 || Confirms(typed.amend)) && Strip(typed.thirdTime) != "" ==>
              var rows := NamedRows(m.id, Finder(regular), ParseNames(typed.thirdTime));
              (r.Ok? <==> DistinctPlayers(rows)) && (r.Ok? ==> r.value == rows)
    ensures r.Err? ==> r == Err(ThirdTimeRowTwice)
  {
    if |m.thirdTime| > 0 && !Confirms(typed.amend) then Ok(m.thirdTime)
    else if Strip(typed.thirdTime) == "" then Ok([])
    else
      var rows := NamedRows(m.id, Finder(regular), ParseNames(typed.thirdTime));
      if DistinctPlayers(rows) then Ok(rows) else Err(ThirdTimeRowTwice)
  }

  /** Two typed names that find the same player give that player two rows. */
  lemma {:induction false} RepeatedNameRowsTwice(m: MatchId, find: string -> Option<Player>, names: seq<string>, i: nat, j: nat)
    requires i < j < |names| && find(names[i]).Some?
    requires find(names[j]) == find(names[i])
    ensures !DistinctPlayers(NamedRows(m, find, names))
    decreases |names|
  {
    var n := |names| - 1;
    var init := NamedRows(m, find, names[..n]);
    var rows := NamedRows(m, find, names);
    assert names[..n][i] == names[i];
    if j < n {
      assert names[..n][j] == names[j];
      RepeatedNameRowsTwice(m, find, names[..n], i, j);
      var a, b :| 0 <= a < b < |init| && init[a].playerId == init[b].playerId;
      assert rows[a] == init[a] && rows[b] == init[b];
    } else {
      NameGivesRow(m, find, names[..n], i);
      var a :| 0 <= a < |init| && init[a].playerId == find(names[i]).value.id;
      assert rows[a] == init[a] && rows[|init|].playerId == init[a].playerId;
    }
  }

  /**
   * Typing a name twice (or two names for one player) at the third-time prompt makes the
   * flush fail, and the whole session, the result included, is lost.
   */
  lemma RepeatedNameRollsBack(m: Match, regular: seq<Player>, typed: UpdateTyping, i: nat, j: nat)
    requires |m.thirdTime| == 0 || Confirms(typed.amend)
    requires Strip(typed.thirdTime) != ""
    requires var names := ParseNames(typed.thirdTime);
             i < j < |names| && FindPlayerByName(regular, names[i]).Some?
             && FindPlayerByName(regular, names[j]) == FindPlayerByName(regular, names[i])
    ensures ThirdTimeStep(m, regular, typed) == Err(ThirdTimeRowTwice)
  {
    RepeatedNameRowsTwice(m.id, Finder(regular), ParseNames(typed.thirdTime), i, j);
  }

  /**
   * Lines 270-328: the engine rates the match for the season's players (the regular
   * active players when the season has none), reading `seen` as the match's third-time
   * rows; a refused season row or a refused insert rolls everything back, otherwise the
   * match `m` is stored COMPLETED and all is committed.
   */
  function RateAndCommit(m: Match, seen: seq<ThirdTimeAttendance>, black: Team, pink: Team, db: Store, now: Instant, pow10: real -> real): (r: Result<Store, UpdateError>)
    requires Pow10Law(pow10)
    ensures r.Ok? ==> r.value.players == db.players && r.value.teamPlayers == db.teamPlayers
    ensures r.Ok? ==> r.value.matches == SetMatch(db.matches, m.(status := Completed))
  {
    var players := SeasonPlayers(db.players, db.seasonRatings, m.seasonId);
    var c := CalculateMatchRatings(Rated(m, seen, black, pink, db), players, db.seasonRatings, db.matchRatings, now, pow10);
    if !Recalculate.SeasonChecksHold(c.table) then Err(RatingFailed(SeasonRowRejected))
    else
      match CommitRatings(db.matchRatings, c.ratings)
      case Err(e) => Err(RatingFailed(InsertRejected(e)))
      case Ok(rows) =>
        Ok(db.(matches := SetMatch(db.matches, m.(status := Completed)), teams := Recalculate.ReplaceTeams(db.teams, c.teamA, c.teamB),
               seasonRatings := c.table, matchRatings := rows))
  }

  /** What the engine is handed: match `m` with `seen` as its third-time rows, and the two rosters. */
  function Rated(m: Match, seen: seq<ThirdTimeAttendance>, black: Team, pink: Team, db: Store): MatchContext {
    MatchContext(m.(thirdTime := seen), Roster(db.teamPlayers, black.id), Roster(db.teamPlayers, pink.id), black, pink)
  }

  /**
   * `record_match_result_and_update_leaderboard` as written: everything is committed
   * together, or nothing is. The rows step 2 writes are stored, but the engine reads the
   * third-time rows the match was loaded with (lines 76-85, refreshed at line 184): the
   * re-select at lines 253-263 finds the match already in the session and does not
   * replace its loaded collection, and `db.add` of a new row or `db.delete` of an old one
   * never touches that collection.
   */
  function RecordAndUpdate(typed: UpdateTyping, db: Store, now: Instant, pow10: real -> real): (r: Result<Store, UpdateError>)
    requires Pow10Law(pow10)
    ensures Locate(typed.week, db).Err? ==> r == Err(Locate(typed.week, db).error)
    ensures r.Ok? ==> Locate(typed.week, db).Ok?
    ensures r.Ok? ==> r.value.players == db.players && r.value.teamPlayers == db.teamPlayers
  {
    match Locate(typed.week, db)
    case Err(e) => Err(e)
    case Ok((m, black, pink)) =>
      match ResultStep(m, black, pink, typed)
      case Err(e) => Err(e)
      case Ok(result) =>
        match ThirdTimeStep(m, RegularActivePlayers(db.players), typed)
        case Err(e) => Err(e)
        case Ok(rows) => RateAndCommit(m.(result := Some(result), thirdTime := rows), m.thirdTime, black, pink, db, now, pow10)
  }

  /**
   * The script as evidently intended: the engine reads the third-time rows step 2 leaves
   * in place, the ones that are stored.
   */
  function RecordAndUpdateReloaded(typed: UpdateTyping, db: Store, now: Instant, pow10: real -> real): (r: Result<Store, UpdateError>)
    requires Pow10Law(pow10)
    ensures Locate(typed.week, db).Err? ==> r == Err(Locate(typed.week, db).error)
    ensures r.Ok? ==> Locate(typed.week, db).Ok?
    ensures r.Ok? ==> r.value.players == db.players && r.value.teamPlayers == db.teamPlayers
  {
    match Locate(typed.week, db)
    case Err(e) => Err(e)
    case Ok((m, black, pink)) =>
      match ResultStep(m, black, pink, typed)
      case Err(e) => Err(e)
      case Ok(result) =>
        match ThirdTimeStep(m, RegularActivePlayers(db.players), typed)
        case Err(e) => Err(e)
        case Ok(rows) => RateAndCommit(m.(result := Some(result), thirdTime := rows), rows, black, pink, db, now, pow10)
  }

  /** The match as it is stored once the result and third-time steps are done. */
  function Prepared(typed: UpdateTyping, db: Store): (r: Option<(Match, Team, Team)>)
    ensures r.Some? ==> Locate(typed.week, db).Ok? && r.value.1 == Locate(typed.week, db).value.1
                        && r.value.2 == Locate(typed.week, db).value.2
                        && r.value.0.id == Locate(typed.week, db).value.0.id
                        && r.value.0.seasonId == Locate(typed.week, db).value.0.seasonId
                        && r.value.0.result.Some?
    ensures r.Some? ==> var m := Locate(typed.week, db).value.0;
                        ThirdTimeStep(m, RegularActivePlayers(db.players), typed) == Ok(r.value.0.thirdTime)
  {
    match Locate(typed.week, db)
    case Err(_) => None
    case Ok((m, black, pink)) =>
      match ResultStep(m, black, pink, typed)
      case Err(_) => None
      case Ok(result) =>
        match ThirdTimeStep(m, RegularActivePlayers(db.players), typed)
        case Err(_) => None
        case Ok(rows) => Some((m.(result := Some(result), thirdTime := rows), black, pink))
  }

  /**
   * Both versions commit exactly what rating the prepared match commits; they differ only
   * in the third-time rows the engine reads, the located ones or the prepared ones.
   */
  lemma UpdateRatesPrepared(typed: UpdateTyping, db: Store, now: Instant, pow10: real -> real)
    requires Pow10Law(pow10)
    ensures Prepared(typed, db).None? ==> RecordAndUpdate(typed, db, now, pow10).Err?
    ensures Prepared(typed, db).None? ==> RecordAndUpdateReloaded(typed, db, now, pow10).Err?
    ensures Prepared(typed, db).Some? ==>
              var (m, black, pink) := Prepared(typed, db).value;
              && RecordAndUpdate(typed, db, now, pow10)
                   == RateAndCommit(m, Locate(typed.week, db).value.0.thirdTime, black, pink, db, now, pow10)
              && RecordAndUpdateReloaded(typed, db, now, pow10) == RateAndCommit(m, m.thirdTime, black, pink, db, now, pow10)
  {
  }

  /** When step 2 keeps the located rows, the as-written script and the intended one agree. */
  lemma ReloadedAgreesWhenRowsKept(typed: UpdateTyping, db: Store, now: Instant, pow10: real -> real)
    requires Pow10Law(pow10)
    requires Prepared(typed, db).Some? ==> Prepared(typed, db).value.0.thirdTime == Locate(typed.week, db).value.0.thirdTime
    ensures RecordAndUpdate(typed, db, now, pow10) == RecordAndUpdateReloaded(typed, db, now, pow10)
  {
    UpdateRatesPrepared(typed, db, now, pow10);
  }

  /**
   * A committed rating stores one record per season player after the stored rows, and
   * each record's third-time flag is read from the rows the engine was handed.
   */
  lemma RateAndCommitThirdTime(m: Match, seen: seq<ThirdTimeAttendance>, black: Team, pink: Team, db: Store, now: Instant, pow10: real -> real, k: nat)
    requires Pow10Law(pow10)
    requires RateAndCommit(m, seen, black, pink, db, now, pow10).Ok?
    requires k < |SeasonPlayers(db.players, db.seasonRatings, m.seasonId)|
    ensures var out := RateAndCommit(m, seen, black, pink, db, now, pow10).value;
            var p := SeasonPlayers(db.players, db.seasonRatings, m.seasonId)[k];
            && |db.matchRatings| + k < |out.matchRatings|
            && out.matchRatings[|db.matchRatings| + k].playerId == p.id
            && (out.matchRatings[|db.matchRatings| + k].attendedThirdTime <==> AttendedThirdTime(seen, p.id))
  {
    var players := SeasonPlayers(db.players, db.seasonRatings, m.seasonId);
    var c := CalculateMatchRatings(Rated(m, seen, black, pink, db), players, db.seasonRatings, db.matchRatings, now, pow10);
    assert CommitRatings(db.matchRatings, c.ratings).Ok?;
    assert (db.matchRatings + c.ratings)[|db.matchRatings| + k] == c.ratings[k];
  }

  /**
   * As written: a season player named at step 2 of a week that had no third-time rows is
   * stored as a third-time attendee, yet the record the engine writes for them says they
   * did not attend, so the +0.05 bonus is lost.
   */
  lemma NewThirdTimeEarnsNoBonus(typed: UpdateTyping, db: Store, now: Instant, pow10: real -> real, k: nat)
    requires Pow10Law(pow10)
    requires RecordAndUpdate(typed, db, now, pow10).Ok?
    requires |Locate(typed.week, db).value.0.thirdTime| == 0
    requires k < |SeasonPlayers(db.players, db.seasonRatings, Locate(typed.week, db).value.0.seasonId)|
    ensures Prepared(typed, db).Some?
    ensures var (m, _, _) := Prepared(typed, db).value;
            var p := SeasonPlayers(db.players, db.seasonRatings, m.seasonId)[k];
            var out := RecordAndUpdate(typed, db, now, pow10).value;
            && out.matches == SetMatch(db.matches, m.(status := Completed))
            && |db.matchRatings| + k < |out.matchRatings|
            && out.matchRatings[|db.matchRatings| + k].playerId == p.id
            && !out.matchRatings[|db.matchRatings| + k].attendedThirdTime
  {
    UpdateRatesPrepared(typed, db, now, pow10);
    var (m, black, pink) := Prepared(typed, db).value;
    RateAndCommitThirdTime(m, Locate(typed.week, db).value.0.thirdTime, black, pink, db, now, pow10, k);
  }

  /**
   * Intended: every record the engine writes flags third time exactly for the players
   * the stored third-time rows mark as attending.
   */
  lemma ReloadedSeesStoredThirdTime(typed: UpdateTyping, db: Store, now: Instant, pow10: real -> real, k: nat)
    requires Pow10Law(pow10)
    requires RecordAndUpdateReloaded(typed, db, now, pow10).Ok?
    requires k < |SeasonPlayers(db.players, db.seasonRatings, Locate(typed.week, db).value.0.seasonId)|
    ensures Prepared(typed, db).Some?
    ensures var (m, _, _) := Prepared(typed, db).value;
            var p := SeasonPlayers(db.players, db.seasonRatings, m.seasonId)[k];
            var out := RecordAndUpdateReloaded(typed, db, now, pow10).value;
            && out.matches == SetMatch(db.matches, m.(status := Completed))
            && |db.matchRatings| + k < |out.matchRatings|
            && out.matchRatings[|db.matchRatings| + k].playerId == p.id
            && (out.matchRatings[|db.matchRatings| + k].attendedThirdTime <==> AttendedThirdTime(m.thirdTime, p.id))
  {
    UpdateRatesPrepared(typed, db, now, pow10);
    var (m, black, pink) := Prepared(typed, db).value;
    RateAndCommitThirdTime(m, m.thirdTime, black, pink, db, now, pow10, k);
  }

  /**
   * The discrepancy: when the week had no third-time rows and step 2 records one for a
   * season player, the as-written script rates that player without the third-time flag
   * and the intended one with it, so the two commit different stores.
   */
  lemma StaleThirdTimeDiffers(typed: UpdateTyping, db: Store, now: Instant, pow10: real -> real, k: nat)
    requires Pow10Law(pow10)
    requires RecordAndUpdate(typed, db, now, pow10).Ok? && RecordAndUpdateReloaded(typed, db, now, pow10).Ok?
    requires Prepared(typed, db).Some? && |Locate(typed.week, db).value.0.thirdTime| == 0
    requires var m := Prepared(typed, db).value.0;
             && k < |SeasonPlayers(db.players, db.seasonRatings, m.seasonId)|
             && AttendedThirdTime(m.thirdTime, SeasonPlayers(db.players, db.seasonRatings, m.seasonId)[k].id)
    ensures var n := |db.matchRatings| + k;
            var stale := RecordAndUpdate(typed, db, now, pow10).value;
            var fixed := RecordAndUpdateReloaded(typed, db, now, pow10).value;
            && n < |stale.matchRatings| && n < |fixed.matchRatings|
            && !stale.matchRatings[n].attendedThirdTime && fixed.matchRatings[n].attendedThirdTime
    ensures RecordAndUpdate(typed, db, now, pow10) != RecordAndUpdateReloaded(typed, db, now, pow10)
  {
    NewThirdTimeEarnsNoBonus(typed, db, now, pow10, k);
    ReloadedSeesStoredThirdTime(typed, db, now, pow10, k);
  }

  /**
   * After a successful run the week's match is stored COMPLETED with a result, and the
   * new match-rating rows follow the stored ones, one per season player.
   */
  lemma UpdateCompletesMatch(typed: UpdateTyping, db: Store, now: Instant, pow10: real -> real)
    requires Pow10Law(pow10)
    requires RecordAndUpdate(typed, db, now, pow10).Ok?
    ensures Prepared(typed, db).Some?
    ensures var (m, _, _) := Prepared(typed, db).value;
            var out := RecordAndUpdate(typed, db, now, pow10).value;
            && out.matches == SetMatch(db.matches, m.(status := Completed))
            && m.(status := Completed).result.Some?
            && |out.matchRatings| == |db.matchRatings| + |SeasonPlayers(db.players, db.seasonRatings, m.seasonId)|
            && out.matchRatings[..|db.matchRatings|] == db.matchRatings
  {
    UpdateRatesPrepared(typed, db, now, pow10);
    var (m, black, pink) := Prepared(typed, db).value;
    RateAndCommitAppends(m, Locate(typed.week, db).value.0.thirdTime, black, pink, db, now, pow10);
  }

  /** A committed rating appends one row per season player after the stored rows. */
  lemma RateAndCommitAppends(m: Match, seen: seq<ThirdTimeAttendance>, black: Team, pink: Team, db: Store, now: Instant, pow10: real -> real)
    requires Pow10Law(pow10)
    requires RateAndCommit(m, seen, black, pink, db, now, pow10).Ok?
    ensures var out := RateAndCommit(m, seen, black, pink, db, now, pow10).value;
            && |out.matchRatings| == |db.matchRatings| + |SeasonPlayers(db.players, db.seasonRatings, m.seasonId)|
            && out.matchRatings[..|db.matchRatings|] == db.matchRatings
  {
    var players := SeasonPlayers(db.players, db.seasonRatings, m.seasonId);
    var c := CalculateMatchRatings(Rated(m, seen, black, pink, db), players, db.seasonRatings, db.matchRatings, now, pow10);
    assert CommitRatings(db.matchRatings, c.ratings).Ok?;
  }

  /** A new row for a (player, match) pair already stored breaks the UNIQUE constraint. */
  lemma InsertClash(records: seq<MatchRating>, added: seq<MatchRating>, i: nat, k: nat)
    requires i < |records| && k < |added|
    requires records[i].playerId == added[k].playerId && records[i].matchId == added[k].matchId
    ensures !UniquePlayerMatch(records + added)
  {
    var all := records + added;
    assert all[i] == records[i] && all[|records| + k] == added[k];
  }

  /** Rating a match that already has a row for one of the season's players is refused at the insert. */
  lemma RateAndCommitClash(m: Match, seen: seq<ThirdTimeAttendance>, black: Team, pink: Team, db: Store, now: Instant, pow10: real -> real, k: nat, i: nat)
    requires Pow10Law(pow10)
    requires SeasonTableValid(db.seasonRatings)
    requires k < |SeasonPlayers(db.players, db.seasonRatings, m.seasonId)| && i < |db.matchRatings|
    requires db.matchRatings[i].matchId == m.id
    requires db.matchRatings[i].playerId == SeasonPlayers(db.players, db.seasonRatings, m.seasonId)[k].id
    ensures RateAndCommit(m, seen, black, pink, db, now, pow10) == Err(RatingFailed(InsertRejected(UniqueViolation)))
  {
    var players := SeasonPlayers(db.players, db.seasonRatings, m.seasonId);
    var c := CalculateMatchRatings(Rated(m, seen, black, pink, db), players, db.seasonRatings, db.matchRatings, now, pow10);
    InsertClash(db.matchRatings, c.ratings, i, k);
    assert Recalculate.SeasonChecksHold(c.table);
  }

  /**
   * Rating a week whose match already has a rating row for one of the season's players
   * fails at the insert, so the whole session, result and third time included, is
   * rolled back.
   */
  lemma RatedTwiceRollsBack(typed: UpdateTyping, db: Store, now: Instant, pow10: real -> real, k: nat, i: nat)
    requires Pow10Law(pow10)
    requires SeasonTableValid(db.seasonRatings)
    requires Prepared(typed, db).Some?
    requires var m := Prepared(typed, db).value.0;
             && k < |SeasonPlayers(db.players, db.seasonRatings, m.seasonId)| && i < |db.matchRatings|
             && db.matchRatings[i].matchId == m.id
             && db.matchRatings[i].playerId == SeasonPlayers(db.players, db.seasonRatings, m.seasonId)[k].id
    ensures RecordAndUpdate(typed, db, now, pow10) == Err(RatingFailed(InsertRejected(UniqueViolation)))
    ensures RecordAndUpdateReloaded(typed, db, now, pow10) == Err(RatingFailed(InsertRejected(UniqueViolation)))
  {
    UpdateRatesPrepared(typed, db, now, pow10);
    var (m, black, pink) := Prepared(typed, db).value;
    RateAndCommitClash(m, Locate(typed.week, db).value.0.thirdTime, black, pink, db, now, pow10, k, i);
    RateAndCommitClash(m, m.thirdTime, black, pink, db, now, pow10, k, i);
  }

  /**
   * From a valid store, once the checks and both steps pass, a match with no rating rows
   * yet is always rated and committed.
   */
  lemma FreshMatchIsCommitted(typed: UpdateTyping, db: Store, now: Instant, pow10: real -> real)
    requires Pow10Law(pow10)
    requires Recalculate.StoreValid(db)
    requires Prepared(typed, db).Some?
    requires forall i :: 0 <= i < |db.matchRatings| ==> db.matchRatings[i].matchId != Prepared(typed, db).value.0.id
    ensures RecordAndUpdate(typed, db, now, pow10).Ok?
    ensures RecordAndUpdateReloaded(typed, db, now, pow10).Ok?
  {
    UpdateRatesPrepared(typed, db, now, pow10);
    var (m, black, pink) := Prepared(typed, db).value;
    var players := SeasonPlayers(db.players, db.seasonRatings, m.seasonId);
    FreshMatchCommits(Rated(m, Locate(typed.week, db).value.0.thirdTime, black, pink, db), players, db.seasonRatings, db.matchRatings, now, pow10);
    FreshMatchCommits(Rated(m, m.thirdTime, black, pink, db), players, db.seasonRatings, db.matchRatings, now, pow10);
  }
}
