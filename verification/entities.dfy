/**
 * The league's records as plain data: the enums of the ORM models, the per-season
 * aggregate `PlayerSeasonRating` and the per-match `PlayerMatchRating`, together with the
 * database CHECK and UNIQUE constraints on them, stated as predicates.
 */
module Entities {
  import opened Wrappers
  import opened Config

  type PlayerId = nat
  type SeasonId = nat
  type MatchId = nat
  type TeamId = nat
  /** Timestamps and dates, as an ordinal. */
  type Instant = int

  datatype PlayerType = Regular | Invited

  /** The two teams of a match; `TeamA` is displayed "black", `TeamB` "pink". */
  datatype TeamName = TeamA | TeamB

  datatype ResultType = ResultWin | ResultDraw

  /** Lifecycle of a match; `Unplayable` is used by the scripts and the leaderboard. */
  datatype MatchStatus = Scheduled | Confirmed | Completed | Cancelled | Unplayable

  /** Outcome of a match from one player's point of view. */
  datatype Outcome = Win | Draw | Loss | DidNotAttend

  datatype Player = Player(id: PlayerId, name: string, kind: PlayerType, isActive: bool)

  datatype Team = Team(id: TeamId, matchId: MatchId, name: TeamName, averageSkillRating: Option<real>)

  datatype MatchResult = MatchResult(
    matchId: MatchId,
    teamA: TeamId,
    teamB: TeamId,
    scoreA: int,
    scoreB: int,
    winningTeam: Option<TeamId>,
    resultType: ResultType)

  /** Membership of a player in a team (the `team_players` table). */
  datatype TeamPlayer = TeamPlayer(teamId: TeamId, playerId: PlayerId)

  datatype ThirdTimeAttendance = ThirdTimeAttendance(matchId: MatchId, playerId: PlayerId, attended: bool)

  datatype Match = Match(
    id: MatchId,
    seasonId: SeasonId,
    matchDate: Instant,
    matchWeek: Option<int>,
    status: MatchStatus,
    result: Option<MatchResult>,
    thirdTime: seq<ThirdTimeAttendance>)

  /** Per-(player, season) aggregate rating state. */
  datatype SeasonRating = SeasonRating(
    playerId: PlayerId,
    seasonId: SeasonId,
    currentRating: real,
    matchesCompleted: int,
    matchesAttended: int,
    ratingLocked: bool,
    lastCalculatedAt: Option<Instant>)

  /** Per-(player, match) rating record with its ELO components. */
  datatype MatchRating = MatchRating(
    playerId: PlayerId,
    matchId: MatchId,
    seasonId: SeasonId,
    matchNumber: int,
    matchDate: Instant,
    attendedMatch: bool,
    attendedThirdTime: bool,
    result: Outcome,
    teamAverage: Option<real>,
    opponentAverage: Option<real>,
    ratingBefore: real,
    ratingAfter: real,
    ratingChange: real,
    eloKFactor: real,
    attendanceBonus: real,
    thirdTimeBonus: real,
    nonAttendancePenalty: real,
    calculatedAt: Instant)

  /** The season-rating table; the key is the (player, season) UNIQUE constraint. */
  type SeasonTable = map<(PlayerId, SeasonId), SeasonRating>

  /** The tables the scripts read and write, in storage order. */
  datatype Store = Store(
    players: seq<Player>,
    matches: seq<Match>,
    teams: seq<Team>,
    teamPlayers: seq<TeamPlayer>,
    seasonRatings: SeasonTable,
    matchRatings: seq<MatchRating>)

  predicate InRatingRange(x: real) {
    MIN_RATING <= x <= MAX_RATING
  }

  /** A freshly created season-rating row, with the column defaults. */
  function DefaultSeasonRating(p: PlayerId, s: SeasonId): (r: SeasonRating)
    ensures r.playerId == p && r.seasonId == s
    ensures r.currentRating == INITIAL_RATING && r.ratingLocked && r.lastCalculatedAt.None?
    ensures r.matchesCompleted == 0 && r.matchesAttended == 0
    ensures SeasonRowInvariant(r)
  {
    SeasonRating(p, s, INITIAL_RATING, 0, 0, true, None)
  }

  /** The CHECK constraints `ck_rating_range` and `ck_attendance_count`. */
  predicate SeasonRatingValid(r: SeasonRating) {
    InRatingRange(r.currentRating) && r.matchesAttended <= r.matchesCompleted
  }

  /**
   * What every writer of a season row maintains beyond the CHECK constraints: counts are
   * non-negative and the row is locked exactly while fewer than `MIN_MATCHES_FOR_RATING`
   * matches are completed.
   */
  predicate SeasonRowInvariant(r: SeasonRating) {
    SeasonRatingValid(r) && r.matchesAttended >= 0 && (r.ratingLocked <==> r.matchesCompleted < MIN_MATCHES_FOR_RATING)
  }

  /** Every row keeps the row invariant and is stored under its own (player, season). */
  predicate SeasonTableValid(t: SeasonTable) {
    forall k :: k in t ==> t[k].playerId == k.0 && t[k].seasonId == k.1 && SeasonRowInvariant(t[k])
  }

  /** The CHECK constraints on a match-rating row. */
  predicate MatchRatingValid(r: MatchRating) {
    InRatingRange(r.ratingBefore) && InRatingRange(r.ratingAfter) && r.matchNumber > 0
  }

  predicate AllMatchRatingsValid(rs: seq<MatchRating>) {
    forall i :: 0 <= i < |rs| ==> MatchRatingValid(rs[i])
  }

  /** The UNIQUE constraint `uq_player_match_rating`. */
  predicate UniquePlayerMatch(rs: seq<MatchRating>) {
    forall i, j :: 0 <= i < j < |rs| ==>
      rs[i].playerId != rs[j].playerId || rs[i].matchId != rs[j].matchId
  }

  /** The whole match-rating table satisfies its constraints. */
  predicate RatingTableValid(rs: seq<MatchRating>) {
    AllMatchRatingsValid(rs) && UniquePlayerMatch(rs)
  }

  lemma AppendAllValid(a: seq<MatchRating>, b: seq<MatchRating>)
    ensures AllMatchRatingsValid(a + b) <==> AllMatchRatingsValid(a) && AllMatchRatingsValid(b)
  {
    if AllMatchRatingsValid(a + b) {
      forall j | 0 <= j < |b| ensures MatchRatingValid(b[j]) {
        assert (a + b)[|a| + j] == b[j];
      }
      forall i | 0 <= i < |a| ensures MatchRatingValid(a[i]) {
        assert (a + b)[i] == a[i];
      }
    }
  }

  /** Appending rows keeps the table valid exactly when the new rows are valid and clash with nothing. */
  lemma {:induction false} AppendKeepsRatingTableValid(old_: seq<MatchRating>, new_: seq<MatchRating>)
    requires RatingTableValid(old_)
    ensures RatingTableValid(old_ + new_) <==>
              && RatingTableValid(new_)
              && forall i, j :: 0 <= i < |old_| && 0 <= j < |new_| ==>
                   old_[i].playerId != new_[j].playerId || old_[i].matchId != new_[j].matchId
  {
    var all := old_ + new_;
    assert forall j :: 0 <= j < |new_| ==> all[|old_| + j] == new_[j];
    if RatingTableValid(new_) && forall i, j :: 0 <= i < |old_| && 0 <= j < |new_| ==>
         old_[i].playerId != new_[j].playerId || old_[i].matchId != new_[j].matchId {
      forall i, j | 0 <= i < j < |all|
        ensures all[i].playerId != all[j].playerId || all[i].matchId != all[j].matchId
      {
        if j < |old_| {
        } else if i < |old_| {
          assert all[j] == new_[j - |old_|];
        } else {
          assert all[i] == new_[i - |old_|] && all[j] == new_[j - |old_|];
        }
      }
      forall i | 0 <= i < |all| ensures MatchRatingValid(all[i]) {
        if i >= |old_| { assert all[i] == new_[i - |old_|]; }
      }
    }
    if RatingTableValid(all) {
      forall i, j | 0 <= i < j < |new_|
        ensures new_[i].playerId != new_[j].playerId || new_[i].matchId != new_[j].matchId
      {
        assert all[|old_| + i] == new_[i] && all[|old_| + j] == new_[j];
      }
      forall i, j | 0 <= i < |old_| && 0 <= j < |new_|
        ensures old_[i].playerId != new_[j].playerId || old_[i].matchId != new_[j].matchId
      {
        assert all[i] == old_[i] && all[|old_| + j] == new_[j];
      }
    }
  }
}
