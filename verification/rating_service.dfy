/**
 * The rating engine `RatingService.calculate_match_ratings`: for every season
 * participant it classifies attendance and outcome, computes the rating change
 * (warm-up, absence penalty, bonuses, ELO term) and the rebased new rating, and
 * updates the participant's season row. The stores are values: the season table
 * is threaded through the participants, and the rating windows read the match-rating
 * rows that existed before the call (the new rows are written in one bulk insert).
 */
module RatingService {
  import opened Wrappers
  import opened Config
  import opened Entities
  import opened Sorting
  import opened RatingRepository
  import opened Elo

  // ---------------------------------------------------------------- rating change

  /** `(total_change, attendance_bonus, third_time_bonus, penalty)`. */
  datatype Change = Change(total: real, attendanceBonus: real, thirdTimeBonus: real, penalty: real)

  const NoChange: Change := Change(0.0, 0.0, 0.0, 0.0)

  /** The ELO term, applied only when both team averages are known. */
  function EloTerm(o: Outcome, teamAvg: Option<real>, opponentAvg: Option<real>, pow10: real -> real): (d: real)
    requires Pow10Law(pow10)
    ensures -ELO_K_FACTOR < d < ELO_K_FACTOR
    ensures teamAvg.None? || opponentAvg.None? ==> d == 0.0
  {
    if teamAvg.Some? && opponentAvg.Some? then EloDelta(o, teamAvg.value, opponentAvg.value, pow10) else 0.0
  }

  /** `_calculate_rating_change`. */
  function RatingChange(
    matchNumber: int, attended: bool, attendedThirdTime: bool, o: Outcome,
    teamAvg: Option<real>, opponentAvg: Option<real>, kind: PlayerType, pow10: real -> real): (c: Change)
    requires Pow10Law(pow10)
    // warm-up: nothing moves
    ensures matchNumber <= MIN_MATCHES_FOR_RATING ==> c == NoChange
    // absence
    ensures matchNumber > MIN_MATCHES_FOR_RATING && !attended && kind == Invited ==> c == NoChange
    ensures matchNumber > MIN_MATCHES_FOR_RATING && !attended && kind == Regular ==>
      c == Change(NON_ATTENDANCE_PENALTY, 0.0, 0.0, NON_ATTENDANCE_PENALTY)
    // attendance
    ensures matchNumber > MIN_MATCHES_FOR_RATING && attended ==>
      && c.attendanceBonus == ATTENDANCE_BONUS
      && c.penalty == 0.0
      && (c.thirdTimeBonus == THIRD_TIME_BONUS <==> attendedThirdTime && kind == Regular)
      && (c.thirdTimeBonus == 0.0 <==> !(attendedThirdTime && kind == Regular))
      && c.total - c.attendanceBonus - c.thirdTimeBonus == EloTerm(o, teamAvg, opponentAvg, pow10)
    // the change is bounded
    ensures -0.4 < c.total < 0.65
  {
    if matchNumber <= MIN_MATCHES_FOR_RATING then NoChange
    else if !attended then
      if kind == Invited then NoChange
      else Change(NON_ATTENDANCE_PENALTY, 0.0, 0.0, NON_ATTENDANCE_PENALTY)
    else
      var third := if attendedThirdTime && kind == Regular then THIRD_TIME_BONUS else 0.0;
      var elo := EloTerm(o, teamAvg, opponentAvg, pow10);
      Change(elo + ATTENDANCE_BONUS + third, ATTENDANCE_BONUS, third, 0.0)
  }

  // ---------------------------------------------------------------- outcome

  /** `_get_match_result_for_player`: the outcome for the members of `team`. */
  function OutcomeForTeam(team: TeamId, result: Option<MatchResult>): (o: Outcome)
    ensures o == DidNotAttend <==> result.None?
    ensures o == Draw <==> result.Some? && result.value.resultType == ResultDraw
    ensures o == Win <==> result.Some? && result.value.resultType.ResultWin? && result.value.winningTeam == Some(team)
  {
    match result
    case None => DidNotAttend
    case Some(r) =>
      if r.resultType == ResultDraw then Draw
      else if r.winningTeam == Some(team) then Win
      else Loss
  }

  /** In a decided match between two distinct teams, one side wins exactly when the other loses. */
  lemma DecidedMatchHasOneWinner(a: TeamId, b: TeamId, r: MatchResult)
    requires a != b
    requires r.resultType == ResultWin && (r.winningTeam == Some(a) || r.winningTeam == Some(b))
    ensures OutcomeForTeam(a, Some(r)) == Win <==> OutcomeForTeam(b, Some(r)) == Loss
    ensures OutcomeForTeam(a, Some(r)) == Loss <==> OutcomeForTeam(b, Some(r)) == Win
  {
  }

  /** How a participant took part in the match. */
  datatype Placement = Placement(attended: bool, outcome: Outcome, teamAvg: Option<real>, opponentAvg: Option<real>)

  /** Attendance, team and outcome of player `p` (engine lines 73-93); team A wins a double listing. */
  function Classify(p: PlayerId, rosterA: seq<PlayerId>, rosterB: seq<PlayerId>, teamA: Team, teamB: Team,
                    result: Option<MatchResult>): (pl: Placement)
    ensures pl.attended <==> p in rosterA || p in rosterB
    ensures !pl.attended ==> pl == Placement(false, DidNotAttend, None, None)
    ensures p in rosterA ==>
      pl == Placement(true, OutcomeForTeam(teamA.id, result), teamA.averageSkillRating, teamB.averageSkillRating)
    ensures p !in rosterA && p in rosterB ==>
      pl == Placement(true, OutcomeForTeam(teamB.id, result), teamB.averageSkillRating, teamA.averageSkillRating)
  {
    if p in rosterA then
      Placement(true, OutcomeForTeam(teamA.id, result), teamA.averageSkillRating, teamB.averageSkillRating)
    else if p in rosterB then
      Placement(true, OutcomeForTeam(teamB.id, result), teamB.averageSkillRating, teamA.averageSkillRating)
    else
      Placement(false, DidNotAttend, None, None)
  }

  /** `any(tta.player_id == p and tta.attended for tta in match.third_time_attendances)`. */
  function AttendedThirdTime(rows: seq<ThirdTimeAttendance>, p: PlayerId): (b: bool)
    ensures b <==> exists i :: 0 <= i < |rows| && rows[i].playerId == p && rows[i].attended
    decreases |rows|
  {
    if |rows| == 0 then false
    else (rows[0].playerId == p && rows[0].attended) || AttendedThirdTime(rows[1..], p)
  }

  // ---------------------------------------------------------------- team averages

  /** The set of a roster's player ids, listed once each in first-seen order. */
  function Dedup(s: seq<PlayerId>): (r: seq<PlayerId>)
    ensures forall x :: x in r <==> x in s
    ensures forall i, j :: 0 <= i < j < |r| ==> r[i] != r[j]
    ensures |r| == 0 <==> |s| == 0
    decreases |s|
  {
    if |s| == 0 then []
    else
      var init := Dedup(s[..|s| - 1]);
      assert s == s[..|s| - 1] + [s[|s| - 1]];
      if s[|s| - 1] in init then init else init + [s[|s| - 1]]
  }

  /** The season row of `p`, or the row that the engine would create for it. */
  function RowOrDefault(t: SeasonTable, p: PlayerId, season: SeasonId): (r: SeasonRating)
    ensures (p, season) in t ==> r == t[(p, season)]
    ensures (p, season) !in t ==> r == DefaultSeasonRating(p, season)
    ensures SeasonTableValid(t) ==> SeasonRowInvariant(r) && r.playerId == p && r.seasonId == season
  {
    if (p, season) in t then t[(p, season)] else DefaultSeasonRating(p, season)
  }

  function SumRatings(ids: seq<PlayerId>, t: SeasonTable, season: SeasonId): (total: real)
    ensures SeasonTableValid(t) ==> MIN_RATING * |ids| as real <= total <= MAX_RATING * |ids| as real
    decreases |ids|
  {
    if |ids| == 0 then 0.0
    else RowOrDefault(t, ids[0], season).currentRating + SumRatings(ids[1..], t, season)
  }

  lemma MeanInRange(total: real, n: nat)
    requires n > 0
    ensures (total / n as real) * n as real == total
    ensures MIN_RATING * n as real <= total <= MAX_RATING * n as real ==> MIN_RATING <= total / n as real <= MAX_RATING
  {
    var m := n as real;
    var a := total / m;
    assert a * m == total;
    if a > MAX_RATING {
      PositiveProduct(a - MAX_RATING, m);
    }
    if a < MIN_RATING {
      PositiveProduct(MIN_RATING - a, m);
    }
  }

  lemma PositiveProduct(x: real, y: real)
    requires x > 0.0 && y > 0.0
    ensures x * y > 0.0
  {
  }

  /** The mean of `n` ratings summing to `total`. */
  function Mean(total: real, n: nat): (a: real)
    requires n > 0
    ensures a * n as real == total
    ensures MIN_RATING * n as real <= total <= MAX_RATING * n as real ==> InRatingRange(a)
  {
    MeanInRange(total, n);
    total / n as real
  }

  /** `_calculate_team_average_rating`: mean current rating of the roster's distinct members. */
  function TeamAverage(roster: seq<PlayerId>, t: SeasonTable, season: SeasonId): (avg: real)
    ensures |roster| == 0 ==> avg == INITIAL_RATING
    ensures SeasonTableValid(t) ==> InRatingRange(avg)
  {
    AverageOf(Dedup(roster), t, season)
  }

  /**
   * The mean current rating of the given members (the initial rating for a member with
   * no season row); the initial rating when there are none.
   */
  function AverageOf(members: seq<PlayerId>, t: SeasonTable, season: SeasonId): (avg: real)
    ensures |members| == 0 ==> avg == INITIAL_RATING
    ensures |members| > 0 ==> avg * |members| as real == SumRatings(members, t, season)
    ensures SeasonTableValid(t) ==> InRatingRange(avg)
  {
    if |members| == 0 then INITIAL_RATING
    else Mean(SumRatings(members, t, season), |members|)
  }

  // ---------------------------------------------------------------- new rating

  function Clamp(x: real): (r: real)
    ensures InRatingRange(r)
    ensures InRatingRange(x) ==> r == x
    ensures x < MIN_RATING ==> r == MIN_RATING
    ensures x > MAX_RATING ==> r == MAX_RATING
  {
    if x < MIN_RATING then MIN_RATING else if x > MAX_RATING then MAX_RATING else x
  }

  function SumChanges(rs: seq<MatchRating>): real
    decreases |rs|
  {
    if |rs| == 0 then 0.0 else rs[0].ratingChange + SumChanges(rs[1..])
  }

  /** The prior rows the rebase re-sums: the player's two newest season rows. */
  function PriorWindowRows(records: seq<MatchRating>, p: PlayerId, season: SeasonId): (w: seq<MatchRating>)
    ensures |w| <= 2
    ensures forall x :: x in w ==> x in records && BelongsTo(x, p, season)
  {
    GetLastNRatings(records, p, season, PriorWindow())
  }

  /** Rating after the match: the baseline during warm-up, else the clamped rebase. */
  function NewRating(matchNumber: int, window: seq<MatchRating>, change: real): (r: real)
    ensures InRatingRange(r)
    ensures matchNumber <= MIN_MATCHES_FOR_RATING ==> r == INITIAL_RATING
  {
    if matchNumber <= MIN_MATCHES_FOR_RATING then INITIAL_RATING
    else Clamp(INITIAL_RATING + SumChanges(window) + change)
  }

  // ---------------------------------------------------------------- one participant

  /** What the engine knows about the match it rates. */
  datatype MatchContext = MatchContext(
    m: Match,
    rosterA: seq<PlayerId>,
    rosterB: seq<PlayerId>,
    teamA: Team,
    teamB: Team)

  /** One participant's new match-rating row and updated season row. */
  datatype Rated = Rated(rec: MatchRating, row: SeasonRating)

  /** Lines 72-197 for one participant: the new match-rating row and the updated season row. */
  function RateParticipant(
    player: Player, ctx: MatchContext, t: SeasonTable, window: PlayerId -> seq<MatchRating>,
    now: Instant, pow10: real -> real): (out: Rated)
    requires Pow10Law(pow10)
    // the match-rating row
    ensures out.rec.playerId == player.id && out.rec.matchId == ctx.m.id
    ensures out.rec.seasonId == ctx.m.seasonId && out.rec.matchDate == ctx.m.matchDate
    ensures out.rec.matchNumber == RowOrDefault(t, player.id, ctx.m.seasonId).matchesCompleted + 1
    ensures out.rec.ratingBefore == RowOrDefault(t, player.id, ctx.m.seasonId).currentRating
    ensures out.rec.attendedMatch <==> player.id in ctx.rosterA || player.id in ctx.rosterB
    ensures out.rec.attendedThirdTime <==> AttendedThirdTime(ctx.m.thirdTime, player.id)
    ensures !out.rec.attendedMatch ==>
              out.rec.result == DidNotAttend && out.rec.teamAverage.None? && out.rec.opponentAverage.None?
    ensures out.rec.attendedMatch && ctx.teamA.averageSkillRating.Some? && ctx.teamB.averageSkillRating.Some? ==>
              out.rec.teamAverage.Some? && out.rec.opponentAverage.Some?
    ensures player.id in ctx.rosterA ==>
              && out.rec.result == OutcomeForTeam(ctx.teamA.id, ctx.m.result)
              && out.rec.teamAverage == ctx.teamA.averageSkillRating
              && out.rec.opponentAverage == ctx.teamB.averageSkillRating
    ensures player.id !in ctx.rosterA && player.id in ctx.rosterB ==>
              && out.rec.result == OutcomeForTeam(ctx.teamB.id, ctx.m.result)
              && out.rec.teamAverage == ctx.teamB.averageSkillRating
              && out.rec.opponentAverage == ctx.teamA.averageSkillRating
    ensures out.rec.eloKFactor == ELO_K_FACTOR && out.rec.calculatedAt == now
    ensures InRatingRange(out.rec.ratingAfter)
    ensures out.rec.matchNumber <= MIN_MATCHES_FOR_RATING ==>
              out.rec.ratingAfter == INITIAL_RATING && out.rec.ratingChange == 0.0
    ensures out.rec.ratingAfter == NewRating(out.rec.matchNumber, window(player.id), out.rec.ratingChange)
    // the season row
    ensures SeasonTableValid(t) ==> out.row.playerId == player.id && out.row.seasonId == ctx.m.seasonId
    ensures out.row.currentRating == out.rec.ratingAfter
    ensures out.row.matchesCompleted == out.rec.matchNumber
    ensures out.row.matchesAttended
              == RowOrDefault(t, player.id, ctx.m.seasonId).matchesAttended + (if out.rec.attendedMatch then 1 else 0)
    ensures out.row.ratingLocked
              == (RowOrDefault(t, player.id, ctx.m.seasonId).ratingLocked && out.rec.matchNumber < MIN_MATCHES_FOR_RATING)
    ensures out.row.lastCalculatedAt == Some(now)
  {
    var season := ctx.m.seasonId;
    var pl := Classify(player.id, ctx.rosterA, ctx.rosterB, ctx.teamA, ctx.teamB, ctx.m.result);
    var third := AttendedThirdTime(ctx.m.thirdTime, player.id);
    var before := RowOrDefault(t, player.id, season);
    var matchNumber := before.matchesCompleted + 1;
    var c := RatingChange(matchNumber, pl.attended, third, pl.outcome, pl.teamAvg, pl.opponentAvg, player.kind, pow10);
    var after := NewRating(matchNumber, window(player.id), c.total);
    var rec := MatchRating(
      player.id, ctx.m.id, season, matchNumber, ctx.m.matchDate, pl.attended, third, pl.outcome,
      pl.teamAvg, pl.opponentAvg, before.currentRating, after, c.total, ELO_K_FACTOR,
      c.attendanceBonus, c.thirdTimeBonus, c.penalty, now);
    var row := before.(
      currentRating := after,
      matchesCompleted := matchNumber,
      matchesAttended := before.matchesAttended + (if pl.attended then 1 else 0),
      ratingLocked := before.ratingLocked && !(matchNumber >= MIN_MATCHES_FOR_RATING),
      lastCalculatedAt := Some(now));
    Rated(rec, row)
  }

  /** The components stored on the row follow the rating-change rules. */
  lemma {:induction false} RateParticipantComponents(
    player: Player, ctx: MatchContext, t: SeasonTable, window: PlayerId -> seq<MatchRating>, now: Instant, pow10: real -> real)
    requires Pow10Law(pow10)
    ensures var rec := RateParticipant(player, ctx, t, window, now, pow10).rec;
            && (rec.matchNumber <= MIN_MATCHES_FOR_RATING ==>
                  rec.attendanceBonus == 0.0 && rec.thirdTimeBonus == 0.0 && rec.nonAttendancePenalty == 0.0)
            && (rec.matchNumber > MIN_MATCHES_FOR_RATING && !rec.attendedMatch && player.kind == Invited ==>
                  rec.ratingChange == 0.0 && rec.nonAttendancePenalty == 0.0)
            && (rec.matchNumber > MIN_MATCHES_FOR_RATING && !rec.attendedMatch && player.kind == Regular ==>
                  rec.ratingChange == NON_ATTENDANCE_PENALTY && rec.nonAttendancePenalty == NON_ATTENDANCE_PENALTY
                  && rec.attendanceBonus == 0.0 && rec.thirdTimeBonus == 0.0)
            && (rec.matchNumber > MIN_MATCHES_FOR_RATING && rec.attendedMatch ==>
                  rec.attendanceBonus == ATTENDANCE_BONUS && rec.nonAttendancePenalty == 0.0
                  && (rec.thirdTimeBonus == THIRD_TIME_BONUS <==> rec.attendedThirdTime && player.kind == Regular))
            && (player.kind == Invited ==> rec.thirdTimeBonus == 0.0)
  {
  }

  /** A row that keeps the row invariant is updated into one that keeps it, and the new match row passes its CHECKs. */
  lemma {:induction false} RateParticipantKeepsInvariants(
    player: Player, ctx: MatchContext, t: SeasonTable, window: PlayerId -> seq<MatchRating>, now: Instant, pow10: real -> real)
    requires Pow10Law(pow10)
    ensures SeasonTableValid(t) ==>
              var out := RateParticipant(player, ctx, t, window, now, pow10);
              MatchRatingValid(out.rec) && SeasonRowInvariant(out.row)
  {
    var before := RowOrDefault(t, player.id, ctx.m.seasonId);
  }

  /** The new rating never builds on `rating_before`: two tables that differ only in the current rating agree. */
  lemma {:induction false} RebaseIgnoresRatingBefore(
    player: Player, ctx: MatchContext, t: SeasonTable, window: PlayerId -> seq<MatchRating>, now: Instant, pow10: real -> real,
    other: real)
    requires Pow10Law(pow10)
    requires (player.id, ctx.m.seasonId) in t
    ensures var t' := t[(player.id, ctx.m.seasonId) := t[(player.id, ctx.m.seasonId)].(currentRating := other)];
            RateParticipant(player, ctx, t', window, now, pow10).rec.ratingAfter
              == RateParticipant(player, ctx, t, window, now, pow10).rec.ratingAfter
  {
  }

  // ---------------------------------------------------------------- all participants

  /** The season-table keys of the participants. */
  function ParticipantKeys(players: seq<Player>, season: SeasonId): (ks: set<(PlayerId, SeasonId)>)
    ensures forall k :: k in ks <==> k.1 == season && exists i :: 0 <= i < |players| && players[i].id == k.0
    decreases |players|
  {
    if |players| == 0 then {}
    else
      assert forall i :: 1 <= i < |players| ==> players[i] == players[1..][i - 1];
      {(players[0].id, season)} + ParticipantKeys(players[1..], season)
  }

  /** Storing a row that keeps the invariant under its own key keeps the table valid. */
  lemma StoreKeepsTableValid(t: SeasonTable, row: SeasonRating)
    requires SeasonTableValid(t) && SeasonRowInvariant(row)
    ensures SeasonTableValid(t[(row.playerId, row.seasonId) := row])
  {
  }

  /** The participants in input order, threading the season table (lines 71-197). */
  function RateAll(
    players: seq<Player>, ctx: MatchContext, t: SeasonTable, window: PlayerId -> seq<MatchRating>,
    now: Instant, pow10: real -> real): (out: (seq<MatchRating>, SeasonTable))
    requires Pow10Law(pow10)
    ensures |out.0| == |players|
    ensures forall i :: 0 <= i < |players| ==>
              out.0[i].playerId == players[i].id && out.0[i].matchId == ctx.m.id && out.0[i].seasonId == ctx.m.seasonId
    ensures forall i :: 0 <= i < |players| ==>
              out.0[i].ratingAfter == NewRating(out.0[i].matchNumber, window(players[i].id), out.0[i].ratingChange)
    ensures forall i :: 0 <= i < |players| ==>
              (out.0[i].attendedThirdTime <==> AttendedThirdTime(ctx.m.thirdTime, players[i].id))
    decreases |players|
  {
    if |players| == 0 then ([], t)
    else
      var key := (players[0].id, ctx.m.seasonId);
      var one := RateParticipant(players[0], ctx, t, window, now, pow10);
      var rest := RateAll(players[1..], ctx, t[key := one.row], window, now, pow10);
      ([one.rec] + rest.0, rest.1)
  }

  /** Only the participants' season rows are created or changed. */
  lemma {:induction false} RateAllTouchesOnlyParticipants(
    players: seq<Player>, ctx: MatchContext, t: SeasonTable, window: PlayerId -> seq<MatchRating>, now: Instant, pow10: real -> real)
    requires Pow10Law(pow10)
    ensures var out := RateAll(players, ctx, t, window, now, pow10);
            && out.1.Keys == t.Keys + ParticipantKeys(players, ctx.m.seasonId)
            && forall k :: k in t && k !in ParticipantKeys(players, ctx.m.seasonId) ==> out.1[k] == t[k]
    decreases |players|
  {
    if |players| > 0 {
      var key := (players[0].id, ctx.m.seasonId);
      var one := RateParticipant(players[0], ctx, t, window, now, pow10);
      var t1 := t[key := one.row];
      RateAllTouchesOnlyParticipants(players[1..], ctx, t1, window, now, pow10);
      var rest := RateAll(players[1..], ctx, t1, window, now, pow10);
      assert RateAll(players, ctx, t, window, now, pow10) == ([one.rec] + rest.0, rest.1);
      assert ParticipantKeys(players, ctx.m.seasonId) == {key} + ParticipantKeys(players[1..], ctx.m.seasonId);
    }
  }

  /** Rating the participants keeps the season table valid and produces rows that pass their CHECKs. */
  lemma {:induction false} RateAllKeepsInvariants(
    players: seq<Player>, ctx: MatchContext, t: SeasonTable, window: PlayerId -> seq<MatchRating>, now: Instant, pow10: real -> real)
    requires Pow10Law(pow10)
    ensures SeasonTableValid(t) ==>
              var out := RateAll(players, ctx, t, window, now, pow10);
              SeasonTableValid(out.1) && AllMatchRatingsValid(out.0)
    decreases |players|
  {
    if |players| > 0 && SeasonTableValid(t) {
      var one := RateParticipant(players[0], ctx, t, window, now, pow10);
      RateParticipantKeepsInvariants(players[0], ctx, t, window, now, pow10);
      StoreKeepsTableValid(t, one.row);
      var t1 := t[(players[0].id, ctx.m.seasonId) := one.row];
      RateAllKeepsInvariants(players[1..], ctx, t1, window, now, pow10);
      var rest := RateAll(players[1..], ctx, t1, window, now, pow10);
      assert RateAll(players, ctx, t, window, now, pow10) == ([one.rec] + rest.0, rest.1);
    }
  }

  /** What `calculate_match_ratings` produces: the rows, the updated table, and both teams with their averages. */
  datatype Calculation = Calculation(ratings: seq<MatchRating>, table: SeasonTable, teamA: Team, teamB: Team)

  /**
   * `calculate_match_ratings` over the participants `players` (the season's players, in
   * repository order), the season table `t` and the stored match-rating rows `records`.
   * Team averages are taken once, before any season row changes; every rating window
   * reads `records` only, since the new rows are inserted after the loop.
   */
  function CalculateMatchRatings(
    ctx: MatchContext, players: seq<Player>, t: SeasonTable, records: seq<MatchRating>,
    now: Instant, pow10: real -> real): (c: Calculation)
    requires Pow10Law(pow10)
    ensures c.teamA == ctx.teamA.(averageSkillRating := Some(TeamAverage(ctx.rosterA, t, ctx.m.seasonId)))
    ensures c.teamB == ctx.teamB.(averageSkillRating := Some(TeamAverage(ctx.rosterB, t, ctx.m.seasonId)))
    ensures |c.ratings| == |players|
    ensures forall i :: 0 <= i < |players| ==>
              c.ratings[i].playerId == players[i].id && c.ratings[i].matchId == ctx.m.id
    ensures forall i :: 0 <= i < |players| ==> c.ratings[i].attendedMatch ==>
              c.ratings[i].teamAverage.Some? && c.ratings[i].opponentAverage.Some?
    ensures forall i :: 0 <= i < |players| ==>
              c.ratings[i].ratingAfter
                == NewRating(c.ratings[i].matchNumber, PriorWindowRows(records, players[i].id, ctx.m.seasonId),
                             c.ratings[i].ratingChange)
    ensures forall i :: 0 <= i < |players| ==>
              (c.ratings[i].attendedThirdTime <==> AttendedThirdTime(ctx.m.thirdTime, players[i].id))
    ensures SeasonTableValid(t) ==> SeasonTableValid(c.table) && AllMatchRatingsValid(c.ratings)
  {
    var season := ctx.m.seasonId;
    var window := (p: PlayerId) => PriorWindowRows(records, p, season);
    var teamA := ctx.teamA.(averageSkillRating := Some(TeamAverage(ctx.rosterA, t, season)));
    var teamB := ctx.teamB.(averageSkillRating := Some(TeamAverage(ctx.rosterB, t, season)));
    var ctx' := ctx.(teamA := teamA, teamB := teamB);
    var (ratings, t') := RateAll(players, ctx', t, window, now, pow10);
    AttendeesHaveAverages(players, ctx', t, window, now, pow10);
    RateAllKeepsInvariants(players, ctx', t, window, now, pow10);
    Calculation(ratings, t', teamA, teamB)
  }

  lemma {:induction false} AttendeesHaveAverages(
    players: seq<Player>, ctx: MatchContext, t: SeasonTable, window: PlayerId -> seq<MatchRating>, now: Instant, pow10: real -> real)
    requires Pow10Law(pow10)
    requires ctx.teamA.averageSkillRating.Some? && ctx.teamB.averageSkillRating.Some?
    ensures forall i :: 0 <= i < |RateAll(players, ctx, t, window, now, pow10).0| ==>
              var r := RateAll(players, ctx, t, window, now, pow10).0[i];
              r.attendedMatch ==> r.teamAverage.Some? && r.opponentAverage.Some?
    decreases |players|
  {
    if |players| > 0 {
      var key := (players[0].id, ctx.m.seasonId);
      var one := RateParticipant(players[0], ctx, t, window, now, pow10);
      var t1 := t[key := one.row];
      AttendeesHaveAverages(players[1..], ctx, t1, window, now, pow10);
      var rest := RateAll(players[1..], ctx, t1, window, now, pow10);
      var rs := RateAll(players, ctx, t, window, now, pow10).0;
      assert rs == [one.rec] + rest.0;
      forall i | 0 <= i < |rs| && rs[i].attendedMatch
        ensures rs[i].teamAverage.Some? && rs[i].opponentAverage.Some?
      {
        if i > 0 {
          assert rs[i] == rest.0[i - 1];
        }
      }
    }
  }

  // ---------------------------------------------------------------- persisting the rows

  /** Why the database refuses the new match-rating rows. */
  datatype CommitError = CheckViolation | UniqueViolation

  /**
   * The bulk insert of the new rows (lines 199-200) under the CHECK constraints and
   * the UNIQUE (player, match) constraint of the match-rating table.
   */
  function CommitRatings(records: seq<MatchRating>, added: seq<MatchRating>): (r: Result<seq<MatchRating>, CommitError>)
    ensures r.Ok? <==> AllMatchRatingsValid(added) && UniquePlayerMatch(records + added)
    ensures r == Err(CheckViolation) <==> !AllMatchRatingsValid(added)
    ensures r.Ok? ==> r.value == records + added
    ensures RatingTableValid(records) ==> (r.Ok? <==> RatingTableValid(records + added))
  {
    AppendAllValid(records, added);
    if !AllMatchRatingsValid(added) then Err(CheckViolation)
    else if !UniquePlayerMatch(records + added) then Err(UniqueViolation)
    else Ok(records + added)
  }

  /**
   * Rating a match that has no stored rows yet, for participants with distinct ids,
   * from a valid store, always commits.
   */
  lemma {:induction false} FreshMatchCommits(
    ctx: MatchContext, players: seq<Player>, t: SeasonTable, records: seq<MatchRating>, now: Instant, pow10: real -> real)
    requires Pow10Law(pow10)
    requires SeasonTableValid(t) && RatingTableValid(records)
    requires forall i, j :: 0 <= i < j < |players| ==> players[i].id != players[j].id
    requires forall i :: 0 <= i < |records| ==> records[i].matchId != ctx.m.id
    ensures CommitRatings(records, CalculateMatchRatings(ctx, players, t, records, now, pow10).ratings).Ok?
  {
    var added := CalculateMatchRatings(ctx, players, t, records, now, pow10).ratings;
    var all := records + added;
    forall i, j | 0 <= i < j < |all|
      ensures (all[i].playerId, all[i].matchId) != (all[j].playerId, all[j].matchId)
    {
      if j >= |records| {
        assert all[j] == added[j - |records|];
        if i >= |records| {
          assert all[i] == added[i - |records|];
        }
      }
    }
  }

  // ---------------------------------------------------------------- worked cases

  /**
   * Equal averages and a win: ELO 0.25 plus the attendance bonus, 0.35 in total. A worked
   * case of the attendee clause of `RatingChange`.
   */
  lemma EvenWinTotal(third: bool, kind: PlayerType, pow10: real -> real)
    requires Pow10Law(pow10)
    requires !(third && kind == Regular)
    ensures RatingChange(4, true, third, Win, Some(3.0), Some(3.0), kind, pow10).total == 0.35
  {
    EvenWinIsQuarter(3.0, pow10);
  }

  /**
   * The first rated match missed by a regular player whose window holds only warm-up rows:
   * 2.8. A worked case of the absence clause of `RatingChange` and of `NewRating`.
   */
  lemma FirstAbsenceAfterWarmUp(window: seq<MatchRating>, pow10: real -> real)
    requires Pow10Law(pow10)
    requires SumChanges(window) == 0.0
    ensures RatingChange(4, false, false, DidNotAttend, None, None, Regular, pow10).total == -0.2
    ensures NewRating(4, window, -0.2) == 2.8
  {
  }

  /** An invited player's absence moves nothing: the new rating is the rebase of the window alone. */
  lemma InvitedAbsenceRebases(matchNumber: int, third: bool, window: seq<MatchRating>, pow10: real -> real)
    requires Pow10Law(pow10)
    requires matchNumber > MIN_MATCHES_FOR_RATING
    ensures var c := RatingChange(matchNumber, false, third, DidNotAttend, None, None, Invited, pow10);
            c == NoChange && NewRating(matchNumber, window, c.total) == Clamp(INITIAL_RATING + SumChanges(window))
  {
  }

  /**
   * With two penalties in the window, every further absence lands on 2.4: the window caps
   * the slide. A worked case of the rebase in `NewRating`.
   */
  lemma RepeatedAbsencesSettle(matchNumber: int, a: MatchRating, b: MatchRating)
    requires matchNumber > MIN_MATCHES_FOR_RATING
    requires a.ratingChange == NON_ATTENDANCE_PENALTY && b.ratingChange == NON_ATTENDANCE_PENALTY
    ensures NewRating(matchNumber, [a, b], NON_ATTENDANCE_PENALTY) == 2.4
  {
    assert [a, b][1..] == [b] && [b][1..] == [];
    assert SumChanges([b]) == -0.2;
  }
}
