/**
 * `LeaderboardService`: per-player season statistics (outcome counts, third-time count,
 * points, attendance rate) aggregated from the rating records, the season leaderboard of
 * the regular active players ordered by points and then rating, and the statistics of a
 * single player.
 */
module Leaderboard {
  import opened Wrappers
  import opened Config
  import opened Entities
  import opened Sorting
  import opened Queries
  import opened RatingService

  /** `get_season_ratings(season_id, skip=0, limit=1000)`. */
  const SEASON_RATINGS_LIMIT: nat := 1000

  datatype PlayerStats = PlayerStats(
    playerId: PlayerId,
    playerName: string,
    currentRating: real,
    matchesCompleted: int,
    matchesAttended: int,
    wins: nat,
    draws: nat,
    losses: nat,
    thirdTimeAttended: nat,
    totalPoints: int,
    attendanceRate: real)

  // ---------------------------------------------------------------- counting

  /** The player's rating records of the season, in storage order. */
  function SeasonRecordsOf(records: seq<MatchRating>, p: PlayerId, season: SeasonId): (rs: seq<MatchRating>)
    ensures forall r :: r in rs <==> r in records && r.playerId == p && r.seasonId == season
  {
    FilterBy(records, (r: MatchRating) => r.playerId == p && r.seasonId == season)
  }

  /** Number of records with exactly the outcome `o`. */
  function OutcomeCount(rs: seq<MatchRating>, o: Outcome): nat {
    CountIf(rs, (r: MatchRating) => r.result == o)
  }

  /** Every record has exactly one of the four outcomes. */
  lemma {:induction false} OutcomeCountsPartition(rs: seq<MatchRating>)
    ensures OutcomeCount(rs, Win) + OutcomeCount(rs, Draw) + OutcomeCount(rs, Loss)
            + OutcomeCount(rs, DidNotAttend) == |rs|
    decreases |rs|
  {
    if |rs| > 0 {
      OutcomeCountsPartition(rs[..|rs| - 1]);
    }
  }

  /** A third-time row of match `m` that counts for player `p`. */
  predicate CountedSocial(m: Match, a: ThirdTimeAttendance, p: PlayerId) {
    a.matchId == m.id && a.playerId == p && a.attended
  }

  /** The matches whose third-time rows the leaderboard counts directly. */
  predicate UnplayableOf(m: Match, season: SeasonId) {
    m.seasonId == season && m.status == Unplayable
  }

  /** Number of attended third-time rows of `p` at the season's unplayable matches. */
  function UnplayableThirdTime(matches: seq<Match>, p: PlayerId, season: SeasonId): nat
    decreases |matches|
  {
    if |matches| == 0 then 0
    else
      var n := |matches| - 1;
      var m := matches[n];
      UnplayableThirdTime(matches[..n], p, season)
      + (if UnplayableOf(m, season) then CountIf(m.thirdTime, (a: ThirdTimeAttendance) => CountedSocial(m, a, p)) else 0)
  }

  /** The count is zero exactly when no unplayable match of the season has such a row. */
  lemma {:induction false} UnplayableThirdTimeZero(matches: seq<Match>, p: PlayerId, season: SeasonId)
    ensures UnplayableThirdTime(matches, p, season) == 0 <==>
              forall i, a :: 0 <= i < |matches| && UnplayableOf(matches[i], season) && a in matches[i].thirdTime
                ==> !CountedSocial(matches[i], a, p)
    decreases |matches|
  {
    if |matches| > 0 {
      var n := |matches| - 1;
      var m := matches[n];
      UnplayableThirdTimeZero(matches[..n], p, season);
      var q := (a: ThirdTimeAttendance) => CountedSocial(m, a, p);
      CountIfZero(m.thirdTime, q);
      assert (forall a :: a in m.thirdTime ==> !q(a)) <==> forall k :: 0 <= k < |m.thirdTime| ==> !q(m.thirdTime[k]);
      assert forall i :: 0 <= i < n ==> matches[..n][i] == matches[i];
    }
  }

  // ---------------------------------------------------------------- points and rate

  /** `total_points`: attendance, outcomes and third times weighted by `PointsConfig`. */
  function Points(attended: int, wins: nat, draws: nat, losses: nat, thirdTime: nat): (pts: int)
    ensures pts == attended + 3 * wins + draws + thirdTime
    ensures attended >= 0 ==> pts >= 0
  {
    attended * POINTS_MATCH_ATTENDANCE + wins * POINTS_WIN + draws * POINTS_DRAW
    + losses * POINTS_LOSS + thirdTime * POINTS_THIRD_TIME
  }

  /** Turning a loss into a draw gains one point; turning a draw into a win gains two. */
  lemma PointsRankOutcomes(attended: int, wins: nat, draws: nat, losses: nat, thirdTime: nat)
    ensures Points(attended, wins, draws + 1, losses, thirdTime) == Points(attended, wins, draws, losses + 1, thirdTime) + 1
    ensures Points(attended, wins + 1, draws, losses, thirdTime) == Points(attended, wins, draws + 1, losses, thirdTime) + 2
  {
  }

  /** `attended / completed * 100` when any match is completed, else `0.0` (unrounded). */
  function AttendanceRate(attended: int, completed: int): (rate: real)
    ensures completed <= 0 ==> rate == 0.0
    ensures completed > 0 ==> rate * completed as real == attended as real * 100.0
    ensures 0 <= attended <= completed ==> 0.0 <= rate <= 100.0
  {
    if completed > 0 then
      var q := attended as real / completed as real;
      RateBounds(attended, completed, q);
      q * 100.0
    else 0.0
  }

  lemma RateBounds(attended: int, completed: int, q: real)
    requires completed > 0 && q == attended as real / completed as real
    ensures q * 100.0 * completed as real == attended as real * 100.0
    ensures 0 <= attended <= completed ==> 0.0 <= q <= 1.0
  {
    var c := completed as real;
    assert q * c == attended as real;
  }

  // ---------------------------------------------------------------- one player's statistics

  /**
   * The statistics of player `p` from its season row `row`; `social` says whether third
   * times count (`get_player_stats` ignores them for invited players).
   */
  function StatsOf(p: PlayerId, row: SeasonRating, pl: Player, records: seq<MatchRating>, matches: seq<Match>,
                   season: SeasonId, social: bool): (s: PlayerStats)
    ensures s.playerId == p && s.playerName == pl.name && s.currentRating == row.currentRating
    ensures s.matchesCompleted == row.matchesCompleted && s.matchesAttended == row.matchesAttended
    ensures s.wins + s.draws + s.losses <= |SeasonRecordsOf(records, p, season)|
    ensures !social ==> s.thirdTimeAttended == 0
    ensures SeasonRowInvariant(row) ==> s.totalPoints >= 0 && 0.0 <= s.attendanceRate <= 100.0
  {
    var rs := SeasonRecordsOf(records, p, season);
    var wins, draws, losses := OutcomeCount(rs, Win), OutcomeCount(rs, Draw), OutcomeCount(rs, Loss);
    OutcomeCountsPartition(rs);
    var third := if social then CountIf(rs, (r: MatchRating) => r.attendedThirdTime) + UnplayableThirdTime(matches, p, season) else 0;
    PlayerStats(p, pl.name, row.currentRating, row.matchesCompleted, row.matchesAttended, wins, draws, losses, third,
                Points(row.matchesAttended, wins, draws, losses, third),
                AttendanceRate(row.matchesAttended, row.matchesCompleted))
  }

  /** `select(Player).where(Player.id == id).scalar_one()`: no row or several rows raise. */
  function FindPlayer(players: seq<Player>, id: PlayerId): (r: Result<Player, LookupError>)
    ensures r.Ok? ==> r.value in players && r.value.id == id
    ensures r.Ok? ==> forall q :: q in players && q.id == id ==> q == r.value
    ensures r == Err(NotFound) <==> forall q :: q in players ==> q.id != id
    ensures r.Ok? <==> |Positions(players, (q: Player) => q.id == id)| == 1
  {
    var p := (q: Player) => q.id == id;
    var found := FilterBy(players, p);
    CountIfIsCardinality(players, p);
    if |found| == 0 then Err(NotFound)
    else if |found| > 1 then Err(SeveralFound)
    else
      assert found[0] in found;
      OnlyOneWithId(players, id, found[0]);
      Ok(found[0])
  }

  lemma OnlyOneWithId(players: seq<Player>, id: PlayerId, x: Player)
    requires x in players && x.id == id
    requires |Positions(players, (q: Player) => q.id == id)| == 1
    ensures forall q :: q in players && q.id == id ==> q == x
  {
    var ps := Positions(players, (q: Player) => q.id == id);
    var j :| 0 <= j < |players| && players[j] == x;
    assert j in ps;
    SingletonSet(ps, j);
    forall q | q in players && q.id == id ensures q == x {
      var i :| 0 <= i < |players| && players[i] == q;
      assert i in ps;
    }
  }

  lemma SingletonSet(ps: set<int>, j: int)
    requires |ps| == 1 && j in ps
    ensures ps == {j}
  {
    assert ps == {j} + (ps - {j});
    assert |ps - {j}| == 0;
  }

  /** With distinct ids the lookup of a stored player's id gives that player. */
  lemma FindPlayerDistinct(players: seq<Player>, p: Player)
    requires DistinctIds(players) && p in players
    ensures FindPlayer(players, p.id) == Ok(p)
  {
    var ps := Positions(players, (q: Player) => q.id == p.id);
    var i :| 0 <= i < |players| && players[i] == p;
    assert i in ps;
    forall j | j in ps ensures j == i {
      assert players[j].id == players[i].id;
    }
    assert ps == {i};
  }

  /**
   * `get_player_stats`: without a season row, the defaults (rating 3.0, all counts zero);
   * otherwise the statistics of the row, with third times ignored for an invited player.
   */
  function GetPlayerStats(p: PlayerId, season: SeasonId, t: SeasonTable, players: seq<Player>,
                          records: seq<MatchRating>, matches: seq<Match>): (r: Result<PlayerStats, LookupError>)
    ensures r.Err? <==> FindPlayer(players, p).Err?
    ensures r.Ok? ==> r.value.playerId == p && r.value.playerName == FindPlayer(players, p).value.name
    ensures r.Ok? && (p, season) !in t ==>
              && r.value.currentRating == INITIAL_RATING
              && r.value.matchesCompleted == 0 && r.value.matchesAttended == 0
              && r.value.wins == 0 && r.value.draws == 0 && r.value.losses == 0
              && r.value.thirdTimeAttended == 0 && r.value.totalPoints == 0 && r.value.attendanceRate == 0.0
    ensures r.Ok? && (p, season) in t ==>
              && r.value.currentRating == t[(p, season)].currentRating
              && r.value.matchesCompleted == t[(p, season)].matchesCompleted
              && r.value.matchesAttended == t[(p, season)].matchesAttended
    ensures r.Ok? && FindPlayer(players, p).value.kind == Invited ==> r.value.thirdTimeAttended == 0
    ensures r.Ok? && SeasonTableValid(t) ==> r.value.totalPoints >= 0 && 0.0 <= r.value.attendanceRate <= 100.0
  {
    match FindPlayer(players, p)
    case Err(e) => Err(e)
    case Ok(pl) =>
      if (p, season) !in t then Ok(PlayerStats(p, pl.name, 3.0, 0, 0, 0, 0, 0, 0, 0, 0.0))
      else Ok(StatsOf(p, t[(p, season)], pl, records, matches, season, pl.kind != Invited))
  }

  // ---------------------------------------------------------------- the season leaderboard

  /** The leaderboard skips invited and inactive players. */
  predicate Listed(pl: Player) {
    pl.kind == Regular && pl.isActive
  }

  /** `ORDER BY current_rating DESC`. */
  function RatingDesc(): (SeasonRating, SeasonRating) -> bool {
    (x: SeasonRating, y: SeasonRating) => x.currentRating >= y.currentRating
  }

  function OfSeason(season: SeasonId): SeasonRating -> bool {
    (x: SeasonRating) => x.seasonId == season
  }

  /** The season's rows by rating, highest first, cut at the query limit. */
  function SeasonRatingsQuery(rows: seq<SeasonRating>, season: SeasonId): (r: seq<SeasonRating>)
    ensures |r| <= SEASON_RATINGS_LIMIT
    ensures forall i, j :: 0 <= i < j < |r| ==> r[i].currentRating >= r[j].currentRating
  {
    Take(Sort(FilterBy(rows, OfSeason(season)), RatingDesc()), SEASON_RATINGS_LIMIT)
  }

  /**
   * The query returns only rows of the season, and all of them when the season has no
   * more rows than the limit.
   */
  lemma SeasonRatingsQueryRows(rows: seq<SeasonRating>, season: SeasonId)
    ensures forall x :: x in SeasonRatingsQuery(rows, season) ==> x in rows && x.seasonId == season
    ensures CountIf(rows, OfSeason(season)) <= SEASON_RATINGS_LIMIT ==>
              forall x :: x in rows && x.seasonId == season ==> x in SeasonRatingsQuery(rows, season)
  {
    var f := FilterBy(rows, OfSeason(season));
    var sorted := Sort(f, RatingDesc());
    var r := SeasonRatingsQuery(rows, season);
    assert forall x :: x in sorted <==> x in multiset(f);
    assert forall x :: x in f <==> x in rows && x.seasonId == season;
    assert forall x :: x in r ==> x in sorted;
    if |f| <= SEASON_RATINGS_LIMIT {
      assert r == sorted;
    }
  }

  /** Stats `s` are the leaderboard entry of row `x`. */
  predicate IsEntry(s: PlayerStats, x: SeasonRating, players: seq<Player>, records: seq<MatchRating>,
                    matches: seq<Match>, season: SeasonId) {
    FindPlayer(players, x.playerId).Ok? && Listed(FindPlayer(players, x.playerId).value)
    && s == StatsOf(x.playerId, x, FindPlayer(players, x.playerId).value, records, matches, season, true)
  }

  /** `scalar_one` on the players' ids. */
  function LookupIn(players: seq<Player>): PlayerId -> Result<Player, LookupError> {
    (id: PlayerId) => FindPlayer(players, id)
  }

  /** The statistics the leaderboard builds for a row and its player. */
  function EntryOf(records: seq<MatchRating>, matches: seq<Match>, season: SeasonId): (SeasonRating, Player) -> PlayerStats {
    (x: SeasonRating, pl: Player) => StatsOf(x.playerId, x, pl, records, matches, season, true)
  }

  /**
   * The loop of `calculate_season_leaderboard` over the rows `window`: the player of each
   * row is read (a failed read aborts), and the rows of listed players give an entry each,
   * in row order.
   */
  function Collect(window: seq<SeasonRating>, lookup: PlayerId -> Result<Player, LookupError>,
                   entry: (SeasonRating, Player) -> PlayerStats): Result<seq<PlayerStats>, LookupError>
    decreases |window|
  {
    if |window| == 0 then Ok([])
    else
      var n := |window| - 1;
      var x := window[n];
      var init := Collect(window[..n], lookup, entry);
      if init.Err? then init
      else
        match lookup(x.playerId)
        case Err(e) => Err(e)
        case Ok(pl) => if Listed(pl) then Ok(init.value + [entry(x, pl)]) else init
  }

  /** The loop fails exactly when some row's player cannot be read. */
  lemma {:induction false} CollectFails(window: seq<SeasonRating>, lookup: PlayerId -> Result<Player, LookupError>,
                                        entry: (SeasonRating, Player) -> PlayerStats)
    ensures Collect(window, lookup, entry).Err? <==> exists x :: x in window && lookup(x.playerId).Err?
    decreases |window|
  {
    if |window| > 0 {
      var n := |window| - 1;
      CollectFails(window[..n], lookup, entry);
      assert forall x :: x in window <==> x in window[..n] || x == window[n];
    }
  }

  /** Every entry of the loop is the entry of one of its rows, whose player is listed. */
  lemma {:induction false} CollectSound(window: seq<SeasonRating>, lookup: PlayerId -> Result<Player, LookupError>,
                                        entry: (SeasonRating, Player) -> PlayerStats, s: PlayerStats)
    requires Collect(window, lookup, entry).Ok? && s in Collect(window, lookup, entry).value
    ensures exists x :: x in window && lookup(x.playerId).Ok? && Listed(lookup(x.playerId).value)
                        && s == entry(x, lookup(x.playerId).value)
    decreases |window|
  {
    var n := |window| - 1;
    var init := Collect(window[..n], lookup, entry);
    var x := window[n];
    if s in init.value {
      CollectSound(window[..n], lookup, entry, s);
      assert forall y :: y in window[..n] ==> y in window;
    } else {
      assert x in window;
    }
  }

  /** Every row of a listed player has its entry in the loop's result. */
  lemma {:induction false} CollectComplete(window: seq<SeasonRating>, lookup: PlayerId -> Result<Player, LookupError>,
                                           entry: (SeasonRating, Player) -> PlayerStats)
    ensures Collect(window, lookup, entry).Ok? ==>
              forall x :: x in window && lookup(x.playerId).Ok? && Listed(lookup(x.playerId).value) ==>
                entry(x, lookup(x.playerId).value) in Collect(window, lookup, entry).value
    decreases |window|
  {
    if |window| > 0 {
      var n := |window| - 1;
      CollectComplete(window[..n], lookup, entry);
      assert forall x :: x in window ==> x in window[..n] || x == window[n];
    }
  }

  /** The loop gives at most one entry per row. */
  lemma {:induction false} CollectLength(window: seq<SeasonRating>, lookup: PlayerId -> Result<Player, LookupError>,
                                         entry: (SeasonRating, Player) -> PlayerStats)
    ensures Collect(window, lookup, entry).Ok? ==> |Collect(window, lookup, entry).value| <= |window|
    decreases |window|
  {
    if |window| > 0 {
      CollectLength(window[..|window| - 1], lookup, entry);
    }
  }

  /** `key=(-total_points, -current_rating)`: more points first, then the higher rating. */
  function PointsOrder(): (PlayerStats, PlayerStats) -> bool {
    (x: PlayerStats, y: PlayerStats) =>
      x.totalPoints > y.totalPoints || (x.totalPoints == y.totalPoints && x.currentRating >= y.currentRating)
  }

  lemma PointsOrderIsPreorder()
    ensures TotalPreorder(PointsOrder())
  {
  }

  /**
   * `calculate_season_leaderboard`, given the season-rating rows in storage order: the
   * entries of the listed players among the query's rows, by points and then rating.
   */
  function CalculateSeasonLeaderboard(rows: seq<SeasonRating>, players: seq<Player>, records: seq<MatchRating>,
                                      matches: seq<Match>, season: SeasonId): (r: Result<seq<PlayerStats>, LookupError>)
    ensures r.Ok? ==> forall i, j :: 0 <= i < j < |r.value| ==>
              r.value[i].totalPoints > r.value[j].totalPoints
              || (r.value[i].totalPoints == r.value[j].totalPoints && r.value[i].currentRating >= r.value[j].currentRating)
    ensures r.Ok? ==> |r.value| <= SEASON_RATINGS_LIMIT
  {
    var window := SeasonRatingsQuery(rows, season);
    match Collect(window, LookupIn(players), EntryOf(records, matches, season))
    case Err(e) => Err(e)
    case Ok(stats) =>
      CollectLength(window, LookupIn(players), EntryOf(records, matches, season));
      PointsOrderIsPreorder();
      Ok(Sort(stats, PointsOrder()))
  }

  /** Stats `s` are the entry of some season row in `rows`. */
  predicate EntryOfSomeRow(s: PlayerStats, rows: seq<SeasonRating>, players: seq<Player>, records: seq<MatchRating>,
                           matches: seq<Match>, season: SeasonId) {
    exists x :: x in rows && x.seasonId == season && IsEntry(s, x, players, records, matches, season)
  }

  /** Every entry is the statistics of a season row whose player is listed. */
  lemma LeaderboardSound(rows: seq<SeasonRating>, players: seq<Player>, records: seq<MatchRating>,
                         matches: seq<Match>, season: SeasonId)
    ensures var r := CalculateSeasonLeaderboard(rows, players, records, matches, season);
            r.Ok? ==> forall s :: s in r.value ==> EntryOfSomeRow(s, rows, players, records, matches, season)
  {
    var window := SeasonRatingsQuery(rows, season);
    var lookup, entry := LookupIn(players), EntryOf(records, matches, season);
    var c := Collect(window, lookup, entry);
    if c.Ok? {
      SeasonRatingsQueryRows(rows, season);
      PointsOrderIsPreorder();
      var r := Sort(c.value, PointsOrder());
      forall s | s in r ensures EntryOfSomeRow(s, rows, players, records, matches, season) {
        assert s in multiset(c.value);
        CollectSound(window, lookup, entry, s);
        var x :| x in window && lookup(x.playerId).Ok? && Listed(lookup(x.playerId).value)
                 && s == entry(x, lookup(x.playerId).value);
        EntryOfLookup(s, x, players, records, matches, season);
        assert x in rows && x.seasonId == season && IsEntry(s, x, players, records, matches, season);
      }
    }
  }

  lemma EntryOfLookup(s: PlayerStats, x: SeasonRating, players: seq<Player>, records: seq<MatchRating>,
                      matches: seq<Match>, season: SeasonId)
    requires LookupIn(players)(x.playerId).Ok? && Listed(LookupIn(players)(x.playerId).value)
    requires s == EntryOf(records, matches, season)(x, LookupIn(players)(x.playerId).value)
    ensures IsEntry(s, x, players, records, matches, season)
  {
  }

  /** The computation fails only on a season row whose player cannot be read. */
  lemma LeaderboardFails(rows: seq<SeasonRating>, players: seq<Player>, records: seq<MatchRating>,
                         matches: seq<Match>, season: SeasonId)
    ensures CalculateSeasonLeaderboard(rows, players, records, matches, season).Err? ==>
              exists x :: x in rows && x.seasonId == season && FindPlayer(players, x.playerId).Err?
  {
    var window := SeasonRatingsQuery(rows, season);
    var lookup, entry := LookupIn(players), EntryOf(records, matches, season);
    if Collect(window, lookup, entry).Err? {
      SeasonRatingsQueryRows(rows, season);
      CollectFails(window, lookup, entry);
      var x :| x in window && lookup(x.playerId).Err?;
      assert FindPlayer(players, x.playerId).Err?;
    }
  }

  /**
   * When the season has no more rows than the query limit, every season row of a listed
   * player has its entry.
   */
  lemma LeaderboardComplete(rows: seq<SeasonRating>, players: seq<Player>, records: seq<MatchRating>,
                            matches: seq<Match>, season: SeasonId)
    requires CountIf(rows, OfSeason(season)) <= SEASON_RATINGS_LIMIT
    ensures var r := CalculateSeasonLeaderboard(rows, players, records, matches, season);
            r.Ok? ==> forall x :: x in rows && x.seasonId == season && FindPlayer(players, x.playerId).Ok?
                                  && Listed(FindPlayer(players, x.playerId).value) ==>
              StatsOf(x.playerId, x, FindPlayer(players, x.playerId).value, records, matches, season, true) in r.value
  {
    var window := SeasonRatingsQuery(rows, season);
    var lookup, entry := LookupIn(players), EntryOf(records, matches, season);
    var c := Collect(window, lookup, entry);
    if c.Ok? {
      SeasonRatingsQueryRows(rows, season);
      CollectComplete(window, lookup, entry);
      PointsOrderIsPreorder();
      var r := Sort(c.value, PointsOrder());
      forall x | x in rows && x.seasonId == season && FindPlayer(players, x.playerId).Ok?
                 && Listed(FindPlayer(players, x.playerId).value)
        ensures StatsOf(x.playerId, x, FindPlayer(players, x.playerId).value, records, matches, season, true) in r
      {
        assert x in window;
        assert entry(x, lookup(x.playerId).value) in c.value;
        assert entry(x, lookup(x.playerId).value) in multiset(c.value);
      }
    }
  }

  /** Invited and inactive players never appear on the leaderboard. */
  lemma ExcludedPlayersNeverListed(rows: seq<SeasonRating>, players: seq<Player>, records: seq<MatchRating>,
                                   matches: seq<Match>, season: SeasonId, p: Player)
    requires p in players && !Listed(p)
    ensures var r := CalculateSeasonLeaderboard(rows, players, records, matches, season);
            r.Ok? ==> forall s :: s in r.value ==> s.playerId != p.id
  {
    LeaderboardSound(rows, players, records, matches, season);
  }

  /** Each leaderboard entry is exactly what `get_player_stats` reports for that player. */
  lemma LeaderboardAgreesWithPlayerStats(rows: seq<SeasonRating>, t: SeasonTable, players: seq<Player>,
                                         records: seq<MatchRating>, matches: seq<Match>, season: SeasonId)
    requires forall x :: x in rows ==> (x.playerId, x.seasonId) in t && t[(x.playerId, x.seasonId)] == x
    ensures var r := CalculateSeasonLeaderboard(rows, players, records, matches, season);
            r.Ok? ==> forall s :: s in r.value ==> GetPlayerStats(s.playerId, season, t, players, records, matches) == Ok(s)
  {
    LeaderboardSound(rows, players, records, matches, season);
  }
}
