/**
 * The operator script that re-rates one match week: it deletes the week's match-rating
 * rows, rewinds every season row of the match's season to what the remaining rows say
 * about the matches numbered below the week, runs the rating engine again and stores the
 * new rows. Every refusal happens before anything is written; in this model a refusal is
 * an `Err` and leaves the store as it was.
 */
module Recalculate {
  import opened Wrappers
  import opened Config
  import opened Entities
  import opened Sorting
  import opened Text
  import opened Queries
  import opened Elo
  import opened RatingService

  // ---------------------------------------------------------------- deleting a match's rows

  /** `delete_match_ratings`: the rows left, and how many rows of the match were removed. */
  function DeleteMatchRatings(records: seq<MatchRating>, m: MatchId): (res: (seq<MatchRating>, nat))
    ensures forall r :: r in res.0 <==> r in records && r.matchId != m
    ensures res.1 == |Positions(records, (r: MatchRating) => r.matchId == m)|
    ensures |res.0| + res.1 == |records|
  {
    var keep := (r: MatchRating) => r.matchId != m;
    var gone := (r: MatchRating) => r.matchId == m;
    CountIfComplement(records, keep, gone);
    CountIfIsCardinality(records, gone);
    (FilterBy(records, keep), CountIf(records, gone))
  }

  /** The rows left after a deletion still satisfy the table's constraints. */
  lemma DeleteKeepsTableValid(records: seq<MatchRating>, m: MatchId)
    requires RatingTableValid(records)
    ensures RatingTableValid(DeleteMatchRatings(records, m).0)
  {
    var rest := DeleteMatchRatings(records, m).0;
    var ok := (a: MatchRating, b: MatchRating) => a.playerId != b.playerId || a.matchId != b.matchId;
    assert SortedBy(records, ok);
    FilterKeepsSortedBy(records, (r: MatchRating) => r.matchId != m, ok);
    forall i | 0 <= i < |rest| ensures MatchRatingValid(rest[i]) {
      assert rest[i] in records;
    }
  }

  // ---------------------------------------------------------------- rewinding a season row

  /** A row counts as history before `week` for the player's season (compares the player's match number with the week). */
  predicate PriorTo(r: MatchRating, p: PlayerId, season: SeasonId, week: int) {
    r.playerId == p && r.seasonId == season && r.matchNumber < week
  }

  /** The player's season rows numbered below `week`, in storage order. */
  function PriorRows(records: seq<MatchRating>, p: PlayerId, season: SeasonId, week: int): (rows: seq<MatchRating>)
    ensures forall r :: r in rows <==> r in records && PriorTo(r, p, season, week)
  {
    FilterBy(records, (r: MatchRating) => PriorTo(r, p, season, week))
  }

  /**
   * The first row of `ORDER BY match_number DESC`: a row with the largest match number;
   * among rows sharing it, the one stored first.
   */
  function Latest(rows: seq<MatchRating>): (last: MatchRating)
    requires |rows| > 0
    ensures last in rows
    ensures forall r :: r in rows ==> r.matchNumber <= last.matchNumber
    decreases |rows|
  {
    if |rows| == 1 then rows[0]
    else
      var rest := Latest(rows[1..]);
      assert forall r :: r in rows ==> r == rows[0] || r in rows[1..];
      if rows[0].matchNumber >= rest.matchNumber then rows[0] else rest
  }

  /**
   * `reset_season_ratings` for one row: with no history before the week the row goes back
   * to the starting state; otherwise it takes the rating and the match number of the
   * latest prior row, counts the prior rows the player attended, and locks while fewer
   * than three matches are completed. `last_calculated_at` is left alone.
   */
  function ResetRow(row: SeasonRating, records: seq<MatchRating>, week: int): (r: SeasonRating)
    ensures r.playerId == row.playerId && r.seasonId == row.seasonId
    ensures r.lastCalculatedAt == row.lastCalculatedAt
    ensures r.ratingLocked <==> r.matchesCompleted < MIN_MATCHES_FOR_RATING
    ensures (forall x :: x in records ==> !PriorTo(x, row.playerId, row.seasonId, week)) ==>
              r.currentRating == INITIAL_RATING && r.matchesCompleted == 0 && r.matchesAttended == 0
    ensures (exists x :: x in records && PriorTo(x, row.playerId, row.seasonId, week)) ==>
              && (exists x :: x in records && PriorTo(x, row.playerId, row.seasonId, week)
                               && r.currentRating == x.ratingAfter && r.matchesCompleted == x.matchNumber)
              && (forall x :: x in records && PriorTo(x, row.playerId, row.seasonId, week) ==>
                               x.matchNumber <= r.matchesCompleted)
    ensures r.matchesAttended
              == CountIf(records, (x: MatchRating) => PriorTo(x, row.playerId, row.seasonId, week) && x.attendedMatch)
  {
    var prior := PriorRows(records, row.playerId, row.seasonId, week);
    CountIfFilter(records, (x: MatchRating) => PriorTo(x, row.playerId, row.seasonId, week),
                  (x: MatchRating) => x.attendedMatch,
                  (x: MatchRating) => PriorTo(x, row.playerId, row.seasonId, week) && x.attendedMatch);
    if |prior| == 0 then
      row.(currentRating := 3.0, matchesCompleted := 0, matchesAttended := 0, ratingLocked := true)
    else
      var last := Latest(prior);
      var completed := last.matchNumber;
      row.(currentRating := last.ratingAfter,
           matchesCompleted := completed,
           matchesAttended := CountIf(prior, (x: MatchRating) => x.attendedMatch),
           ratingLocked := completed < 3)
  }

  /** Within one player's season, no two rows carry the same match number. */
  predicate NumbersDistinct(records: seq<MatchRating>) {
    forall i, j :: 0 <= i < j < |records| ==>
      records[i].playerId == records[j].playerId && records[i].seasonId == records[j].seasonId ==>
      records[i].matchNumber != records[j].matchNumber
  }

  function NumberSet(rows: seq<MatchRating>): set<int> {
    set r | r in rows :: r.matchNumber
  }

  /** The numbers 1 to `m`. */
  function Range(m: nat): (r: set<int>)
    ensures forall x :: x in r <==> 1 <= x <= m
  {
    if m == 0 then {} else Range(m - 1) + {m}
  }

  lemma {:induction false} RangeSize(m: nat)
    ensures |Range(m)| == m
  {
    if m > 0 {
      RangeSize(m - 1);
      OneMore(Range(m - 1), m);
    }
  }

  lemma OneMore(r: set<int>, m: int)
    requires forall x :: x in r ==> x < m
    ensures |r + {m}| == |r| + 1
  {
    assert m !in r;
  }

  lemma {:induction false} NumberSetSize(rows: seq<MatchRating>)
    requires forall i, j :: 0 <= i < j < |rows| ==> rows[i].matchNumber != rows[j].matchNumber
    ensures |NumberSet(rows)| == |rows|
    decreases |rows|
  {
    if |rows| > 0 {
      var n := |rows| - 1;
      var init := rows[..n];
      NumberSetSize(init);
      assert rows == init + [rows[n]];
      assert NumberSet(rows) == NumberSet(init) + {rows[n].matchNumber};
    }
  }

  /** Rows with distinct match numbers between 1 and `m` number at most `m`. */
  lemma DistinctNumbersBound(rows: seq<MatchRating>, m: nat)
    requires forall i, j :: 0 <= i < j < |rows| ==> rows[i].matchNumber != rows[j].matchNumber
    requires forall r :: r in rows ==> 1 <= r.matchNumber <= m
    ensures |rows| <= m
  {
    NumberSetSize(rows);
    RangeSize(m);
    var a, b := NumberSet(rows), Range(m);
    assert b == a + (b - a) && a * (b - a) == {};
  }

  /**
   * When the stored rows satisfy their constraints and no player's season repeats a match
   * number, the rewound row satisfies the season table's constraints.
   */
  lemma ResetRowKeepsInvariant(row: SeasonRating, records: seq<MatchRating>, week: int)
    requires AllMatchRatingsValid(records) && NumbersDistinct(records)
    ensures SeasonRowInvariant(ResetRow(row, records, week))
  {
    var p, s := row.playerId, row.seasonId;
    var keep := (x: MatchRating) => PriorTo(x, p, s, week);
    var prior := PriorRows(records, p, s, week);
    if |prior| > 0 {
      var last := Latest(prior);
      assert last in records;
      var k :| 0 <= k < |records| && records[k] == last;
      assert MatchRatingValid(records[k]);
      var ok := (a: MatchRating, b: MatchRating) =>
        a.playerId == b.playerId && a.seasonId == b.seasonId ==> a.matchNumber != b.matchNumber;
      assert SortedBy(records, ok);
      FilterKeepsSortedBy(records, keep, ok);
      forall r | r in prior ensures 1 <= r.matchNumber <= last.matchNumber {
        var j :| 0 <= j < |records| && records[j] == r;
        assert MatchRatingValid(records[j]);
      }
      forall i, j | 0 <= i < j < |prior| ensures prior[i].matchNumber != prior[j].matchNumber {
        assert prior[i] in prior && prior[j] in prior;
        assert ok(prior[i], prior[j]);
      }
      DistinctNumbersBound(prior, last.matchNumber);
    }
  }

  /** `reset_season_ratings`: every row of the season is rewound; other seasons' rows are untouched. */
  function ResetSeasonRatings(t: SeasonTable, records: seq<MatchRating>, season: SeasonId, week: int): (r: SeasonTable)
    ensures r.Keys == t.Keys
    ensures forall k :: k in t && k.1 != season ==> r[k] == t[k]
    ensures forall k :: k in t && k.1 == season ==> r[k] == ResetRow(t[k], records, week)
  {
    map k | k in t :: if k.1 == season then ResetRow(t[k], records, week) else t[k]
  }

  lemma ResetKeepsTableValid(t: SeasonTable, records: seq<MatchRating>, season: SeasonId, week: int)
    requires SeasonTableValid(t) && AllMatchRatingsValid(records) && NumbersDistinct(records)
    ensures SeasonTableValid(ResetSeasonRatings(t, records, season, week))
  {
    forall k | k in t && k.1 == season ensures SeasonRowInvariant(ResetRow(t[k], records, week)) {
      ResetRowKeepsInvariant(t[k], records, week);
    }
  }

  /** Match numbers start at 1, so rewinding to week 1 (or earlier) restarts every row. */
  lemma RewindToFirstWeek(row: SeasonRating, records: seq<MatchRating>, week: int)
    requires AllMatchRatingsValid(records) && week <= 1
    ensures var r := ResetRow(row, records, week);
            r.currentRating == INITIAL_RATING && r.matchesCompleted == 0 && r.matchesAttended == 0 && r.ratingLocked
  {
    forall x | x in records ensures !PriorTo(x, row.playerId, row.seasonId, week) {
      var j :| 0 <= j < |records| && records[j] == x;
      assert MatchRatingValid(records[j]);
    }
  }

  /** Rows numbered at or above the week, or of another player or season, do not affect the rewind. */
  lemma ResetIgnoresOtherRows(row: SeasonRating, records: seq<MatchRating>, other: seq<MatchRating>, week: int)
    requires forall x :: x in other ==> !PriorTo(x, row.playerId, row.seasonId, week)
    ensures ResetRow(row, records + other, week) == ResetRow(row, records, week)
  {
    FilterAppendRejected(records, other, (x: MatchRating) => PriorTo(x, row.playerId, row.seasonId, week));
  }

  // ---------------------------------------------------------------- the script

  /** Why the script stops. Every one of these happens before the session commits. */
  datatype RecalcError =
    | NotANumber
    | WeekNotPositive
    | NoMatchForWeek
    | SeveralMatchesForWeek
    | NoResult
    | TeamCount(found: nat)
    | NoTeamAverage
    | NotConfirmed
    | SeasonRowRejected
    | InsertRejected(cause: CommitError)

  /** `main`: `int(sys.argv[1])`, refused when it is not a number or is below 1. */
  function WeekArgument(arg: string): (r: Result<int, RecalcError>)
    ensures r.Ok? <==> ParseInt(Strip(arg)).Some? && ParseInt(Strip(arg)).value >= 1
    ensures r.Ok? ==> ParseInt(Strip(arg)) == Some(r.value)
    ensures ParseInt(Strip(arg)).None? ==> r == Err(NotANumber)
  {
    match ParseInt(Strip(arg))
    case None => Err(NotANumber)
    case Some(week) => if week < 1 then Err(WeekNotPositive) else Ok(week)
  }

  /** What the checks hand on to the rewrite: the week, the match, its two teams and the season's players. */
  datatype Plan = Plan(week: int, m: Match, teamA: Team, teamB: Team, players: seq<Player>)

  /**
   * The checks of `recalculate_match_ratings` up to the confirmation prompt. Printing a
   * team average with `:.2f` raises when the average is null, so a team without one
   * stops the script as well.
   */
  function Prepare(week: int, answer: string, db: Store): (r: Result<Plan, RecalcError>)
    ensures r.Ok? ==> r.value.week == week && MatchByWeek(db.matches, week) == Ok(r.value.m)
    ensures r.Ok? ==> r.value.m.result.Some?
    ensures r.Ok? ==> TeamsOf(db.teams, r.value.m.id) == [r.value.teamA, r.value.teamB]
    ensures r.Ok? ==> r.value.teamA.averageSkillRating.Some? && r.value.teamB.averageSkillRating.Some?
    ensures r.Ok? ==> r.value.players == SeasonPlayers(db.players, db.seasonRatings, r.value.m.seasonId)
    ensures r.Ok? ==> Lower(Strip(answer)) == "yes"
    ensures MatchByWeek(db.matches, week) == Err(NotFound) ==> r == Err(NoMatchForWeek)
    ensures MatchByWeek(db.matches, week) == Err(SeveralFound) ==> r == Err(SeveralMatchesForWeek)
    ensures MatchByWeek(db.matches, week).Ok? && MatchByWeek(db.matches, week).value.result.None? ==> r == Err(NoResult)
    ensures MatchByWeek(db.matches, week).Ok? && MatchByWeek(db.matches, week).value.result.Some? ==>
              var n := |TeamsOf(db.teams, MatchByWeek(db.matches, week).value.id)|;
              n != 2 ==> r == Err(TeamCount(n))
  {
    match MatchByWeek(db.matches, week)
    case Err(NotFound) => Err(NoMatchForWeek)
    case Err(SeveralFound) => Err(SeveralMatchesForWeek)
    case Ok(m) => PlanForMatch(week, answer, db, m)
  }

  /** The checks after the week's match is found: a result, two teams with averages, a confirmation. */
  function PlanForMatch(week: int, answer: string, db: Store, m: Match): (r: Result<Plan, RecalcError>)
    ensures r.Ok? ==> r.value.week == week && r.value.m == m && m.result.Some?
    ensures r.Ok? ==> TeamsOf(db.teams, m.id) == [r.value.teamA, r.value.teamB]
    ensures r.Ok? ==> r.value.teamA.averageSkillRating.Some? && r.value.teamB.averageSkillRating.Some?
    ensures r.Ok? ==> r.value.players == SeasonPlayers(db.players, db.seasonRatings, m.seasonId)
    ensures r.Ok? ==> Lower(Strip(answer)) == "yes"
    ensures m.result.None? ==> r == Err(NoResult)
    ensures m.result.Some? && |TeamsOf(db.teams, m.id)| != 2 ==> r == Err(TeamCount(|TeamsOf(db.teams, m.id)|))
  {
    if m.result.None? then Err(NoResult)
    else
      var teams := TeamsOf(db.teams, m.id);
      if |teams| != 2 then Err(TeamCount(|teams|))
      else
        assert teams == [teams[0], teams[1]];
        PlanForTeams(week, answer, m, teams[0], teams[1], SeasonPlayers(db.players, db.seasonRatings, m.seasonId))
  }

  /** Both teams need an average and the operator must confirm. */
  function PlanForTeams(week: int, answer: string, m: Match, a: Team, b: Team, players: seq<Player>): (r: Result<Plan, RecalcError>)
    ensures r.Ok? <==> a.averageSkillRating.Some? && b.averageSkillRating.Some? && Lower(Strip(answer)) == "yes"
    ensures r.Ok? ==> r.value == Plan(week, m, a, b, players)
  {
    if a.averageSkillRating.None? || b.averageSkillRating.None? then Err(NoTeamAverage)
    else if Lower(Strip(answer)) != "yes" then Err(NotConfirmed)
    else Ok(Plan(week, m, a, b, players))
  }

  /** The CHECK constraints of every season row, verified when the session flushes. */
  predicate SeasonChecksHold(t: SeasonTable) {
    forall k :: k in t ==> SeasonRatingValid(t[k])
  }

  /** Stores the two re-averaged teams in place of their old rows. */
  function ReplaceTeams(teams: seq<Team>, a: Team, b: Team): (r: seq<Team>)
    ensures |r| == |teams|
    ensures forall i :: 0 <= i < |teams| ==>
              r[i] == (if teams[i].id == a.id then a else if teams[i].id == b.id then b else teams[i])
  {
    seq(|teams|, i requires 0 <= i < |teams| =>
      if teams[i].id == a.id then a else if teams[i].id == b.id then b else teams[i])
  }

  /** The engine's view of the planned match: the rosters come from the team-membership rows. */
  function ContextOf(plan: Plan, db: Store): MatchContext {
    MatchContext(plan.m, Roster(db.teamPlayers, plan.teamA.id), Roster(db.teamPlayers, plan.teamB.id), plan.teamA, plan.teamB)
  }

  /**
   * Deletion, rewind, re-rating and insertion, in one session: the rewind and the
   * engine both read the rows left after the deletion, and a CHECK or UNIQUE violation at
   * a flush or at the insert aborts the whole session.
   */
  function Rewrite(plan: Plan, db: Store, now: Instant, pow10: real -> real): (r: Result<Store, RecalcError>)
    requires Pow10Law(pow10)
    ensures r.Ok? ==> r.value.players == db.players && r.value.matches == db.matches
                      && r.value.teamPlayers == db.teamPlayers
  {
    var rest := Remaining(plan, db);
    var t := Rewound(plan, db);
    if !SeasonChecksHold(t) then Err(SeasonRowRejected)
    else
      var c := Rerated(plan, db, now, pow10);
      if !SeasonChecksHold(c.table) then Err(SeasonRowRejected)
      else
        match CommitRatings(rest, c.ratings)
        case Err(e) => Err(InsertRejected(e))
        case Ok(rows) =>
          Ok(db.(seasonRatings := c.table, matchRatings := rows, teams := ReplaceTeams(db.teams, c.teamA, c.teamB)))
  }

  /** The match-rating rows left once the match's rows are deleted. */
  function Remaining(plan: Plan, db: Store): seq<MatchRating> {
    DeleteMatchRatings(db.matchRatings, plan.m.id).0
  }

  /** The season table rewound to the week, from the remaining rows. */
  function Rewound(plan: Plan, db: Store): SeasonTable {
    ResetSeasonRatings(db.seasonRatings, Remaining(plan, db), plan.m.seasonId, plan.week)
  }

  /** The engine run on the rewound table and the remaining rows. */
  function Rerated(plan: Plan, db: Store, now: Instant, pow10: real -> real): Calculation
    requires Pow10Law(pow10)
  {
    CalculateMatchRatings(ContextOf(plan, db), plan.players, Rewound(plan, db), Remaining(plan, db), now, pow10)
  }

  /** What a successful rewrite stores: the remaining rows followed by the engine's rows, and the engine's table. */
  lemma RewriteStores(plan: Plan, db: Store, now: Instant, pow10: real -> real)
    requires Pow10Law(pow10)
    requires Rewrite(plan, db, now, pow10).Ok?
    ensures Rewrite(plan, db, now, pow10).value.matchRatings
              == Remaining(plan, db) + Rerated(plan, db, now, pow10).ratings
    ensures Rewrite(plan, db, now, pow10).value.seasonRatings == Rerated(plan, db, now, pow10).table
  {
  }

  /**
   * The rows a rewrite stores keep every other match's rows in their order and append
   * one new row of the match per season player, in the players' order.
   */
  lemma RerateAppendsMatchRows(plan: Plan, db: Store, now: Instant, pow10: real -> real)
    requires Pow10Law(pow10)
    ensures var rest := DeleteMatchRatings(db.matchRatings, plan.m.id).0;
            var rows := rest + Rerated(plan, db, now, pow10).ratings;
            && (forall x :: x in db.matchRatings && x.matchId != plan.m.id ==> x in rows)
            && |rows| == |rest| + |plan.players|
            && rows[..|rest|] == rest
            && (forall i :: 0 <= i < |plan.players| ==>
                  rows[|rest| + i].playerId == plan.players[i].id && rows[|rest| + i].matchId == plan.m.id)
  {
    var c := Rerated(plan, db, now, pow10);
    var rest := Remaining(plan, db);
    assert |c.ratings| == |plan.players|;
    AppendedRows(rest, c.ratings, plan.players, plan.m.id);
  }

  lemma AppendedRows(rest: seq<MatchRating>, added: seq<MatchRating>, players: seq<Player>, m: MatchId)
    requires |added| == |players|
    requires forall i :: 0 <= i < |players| ==> added[i].playerId == players[i].id && added[i].matchId == m
    ensures var rows := rest + added;
            && (forall x :: x in rest ==> x in rows)
            && rows[..|rest|] == rest
            && (forall i :: 0 <= i < |players| ==> rows[|rest| + i].playerId == players[i].id && rows[|rest| + i].matchId == m)
  {
    var rows := rest + added;
    assert rows[..|rest|] == rest;
    forall i | 0 <= i < |players| ensures rows[|rest| + i] == added[i] {
    }
  }

  /** A successful rewrite replaces exactly the match's rows, one per season player. */
  lemma RewriteReplacesMatchRows(plan: Plan, db: Store, now: Instant, pow10: real -> real)
    requires Pow10Law(pow10)
    requires Rewrite(plan, db, now, pow10).Ok?
    ensures var rows := Rewrite(plan, db, now, pow10).value.matchRatings;
            var rest := DeleteMatchRatings(db.matchRatings, plan.m.id).0;
            && (forall x :: x in db.matchRatings && x.matchId != plan.m.id ==> x in rows)
            && |rows| == |rest| + |plan.players|
            && rows[..|rest|] == rest
            && (forall i :: 0 <= i < |plan.players| ==>
                  rows[|rest| + i].playerId == plan.players[i].id && rows[|rest| + i].matchId == plan.m.id)
  {
    RewriteStores(plan, db, now, pow10);
    RerateAppendsMatchRows(plan, db, now, pow10);
  }

  /** A successful rewrite changes season rows only for the season's players of this match's season. */
  lemma RewriteTouchesOnlyParticipants(plan: Plan, db: Store, now: Instant, pow10: real -> real)
    requires Pow10Law(pow10)
    requires Rewrite(plan, db, now, pow10).Ok?
    ensures var t := Rewrite(plan, db, now, pow10).value.seasonRatings;
            && t.Keys == db.seasonRatings.Keys + ParticipantKeys(plan.players, plan.m.seasonId)
            && forall k :: k in db.seasonRatings && k.1 != plan.m.seasonId ==> t[k] == db.seasonRatings[k]
  {
    RewriteStores(plan, db, now, pow10);
    var rest := Remaining(plan, db);
    var season := plan.m.seasonId;
    var t := Rewound(plan, db);
    var ctx := ContextOf(plan, db);
    var c := Rerated(plan, db, now, pow10);
    var window := (p: PlayerId) => PriorWindowRows(rest, p, season);
    var ctx' := ctx.(teamA := c.teamA, teamB := c.teamB);
    assert c.table == RateAll(plan.players, ctx', t, window, now, pow10).1;
    RateAllTouchesOnlyParticipants(plan.players, ctx', t, window, now, pow10);
  }

  /** `recalculate_match_ratings` run with `arg` as the week and `answer` typed at the prompt. */
  function RecalculateMatchRatings(arg: string, answer: string, db: Store, now: Instant, pow10: real -> real): (r: Result<Store, RecalcError>)
    requires Pow10Law(pow10)
    ensures WeekArgument(arg).Err? ==> r == Err(WeekArgument(arg).error)
    ensures WeekArgument(arg).Ok? && Prepare(WeekArgument(arg).value, answer, db).Err? ==>
              r == Err(Prepare(WeekArgument(arg).value, answer, db).error)
    ensures r.Ok? ==> WeekArgument(arg).Ok? && Prepare(WeekArgument(arg).value, answer, db).Ok?
                      && r == Rewrite(Prepare(WeekArgument(arg).value, answer, db).value, db, now, pow10)
  {
    match WeekArgument(arg)
    case Err(e) => Err(e)
    case Ok(week) =>
      match Prepare(week, answer, db)
      case Err(e) => Err(e)
      case Ok(plan) => Rewrite(plan, db, now, pow10)
  }

  /** Deletion keeps match numbers distinct within each player's season. */
  lemma DeleteKeepsNumbersDistinct(records: seq<MatchRating>, m: MatchId)
    requires NumbersDistinct(records)
    ensures NumbersDistinct(DeleteMatchRatings(records, m).0)
  {
    var ok := (a: MatchRating, b: MatchRating) =>
      a.playerId == b.playerId && a.seasonId == b.seasonId ==> a.matchNumber != b.matchNumber;
    assert SortedBy(records, ok);
    FilterKeepsSortedBy(records, (r: MatchRating) => r.matchId != m, ok);
  }

  /** The store's constraints, plus distinct match numbers within each player's season. */
  predicate StoreValid(db: Store) {
    && SeasonTableValid(db.seasonRatings)
    && RatingTableValid(db.matchRatings)
    && NumbersDistinct(db.matchRatings)
    && DistinctIds(db.players)
  }

  /** From a valid store, once the checks pass, no flush and no insert is refused. */
  lemma RewriteSucceeds(plan: Plan, db: Store, now: Instant, pow10: real -> real)
    requires Pow10Law(pow10)
    requires SeasonTableValid(db.seasonRatings) && RatingTableValid(db.matchRatings) && NumbersDistinct(db.matchRatings)
    requires DistinctIds(plan.players)
    ensures Rewrite(plan, db, now, pow10).Ok?
  {
    var rest := Remaining(plan, db);
    DeleteKeepsTableValid(db.matchRatings, plan.m.id);
    DeleteKeepsNumbersDistinct(db.matchRatings, plan.m.id);
    ResetKeepsTableValid(db.seasonRatings, rest, plan.m.seasonId, plan.week);
    forall i | 0 <= i < |rest| ensures rest[i].matchId != plan.m.id {
      assert rest[i] in rest;
    }
    FreshMatchCommits(ContextOf(plan, db), plan.players, Rewound(plan, db), rest, now, pow10);
    RewriteCommits(plan, db, now, pow10);
  }

  lemma RewriteCommits(plan: Plan, db: Store, now: Instant, pow10: real -> real)
    requires Pow10Law(pow10)
    requires SeasonTableValid(Rewound(plan, db))
    requires CommitRatings(Remaining(plan, db), Rerated(plan, db, now, pow10).ratings).Ok?
    ensures Rewrite(plan, db, now, pow10).Ok?
  {
    assert SeasonTableValid(Rerated(plan, db, now, pow10).table);
  }

  /**
   * On a valid store the script writes exactly when the week argument is accepted and
   * every check up to the confirmation passes.
   */
  lemma RecalculateWritesExactlyAfterChecks(arg: string, answer: string, db: Store, now: Instant, pow10: real -> real)
    requires Pow10Law(pow10)
    requires StoreValid(db)
    ensures (RecalculateMatchRatings(arg, answer, db, now, pow10).Ok?
             <==> WeekArgument(arg).Ok? && Prepare(WeekArgument(arg).value, answer, db).Ok?)
  {
    if WeekArgument(arg).Ok? && Prepare(WeekArgument(arg).value, answer, db).Ok? {
      var plan := Prepare(WeekArgument(arg).value, answer, db).value;
      RewriteSucceeds(plan, db, now, pow10);
    }
  }
}
