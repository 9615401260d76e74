/**
 * The read queries the operator scripts issue against the tables, as pure functions
 * over a `Store`: players by name, the season's players, the match of a week (with
 * `scalar_one_or_none`'s refusal of several rows), a match's teams and a team's roster.
 */
module Queries {
  import opened Wrappers
  import opened Entities
  import opened Sorting
  import opened Text

  // ---------------------------------------------------------------- players

  /** `ORDER BY Player.name`. */
  function NameOrder(): (Player, Player) -> bool {
    (a: Player, b: Player) => NameLe(a.name, b.name)
  }

  lemma NameOrderIsPreorder()
    ensures TotalPreorder(NameOrder())
  {
    forall a: Player, b: Player ensures NameLe(a.name, b.name) || NameLe(b.name, a.name) {
      NameLeTotal(a.name, b.name);
    }
    forall a: Player, b: Player, c: Player | NameLe(a.name, b.name) && NameLe(b.name, c.name)
      ensures NameLe(a.name, c.name)
    {
      NameLeTransitive(a.name, b.name, c.name);
    }
  }

  /** The players in name order; players with equal names keep their storage order. */
  function ByName(ps: seq<Player>): (r: seq<Player>)
    ensures multiset(r) == multiset(ps)
    ensures forall p :: p in r <==> p in ps
    ensures forall i, j :: 0 <= i < j < |r| ==> NameLe(r[i].name, r[j].name)
  {
    NameOrderIsPreorder();
    var r := Sort(ps, NameOrder());
    assert forall p :: p in r <==> p in multiset(r);
    r
  }

  /** Distinct ids survive reordering by name. */
  lemma ByNameKeepsDistinctIds(ps: seq<Player>)
    requires DistinctIds(ps)
    ensures DistinctIds(ByName(ps))
  {
    var ok := (a: Player, b: Player) => a.id != b.id;
    assert SortedBy(ps, ok);
    NameOrderIsPreorder();
    SortKeepsSortedBy(ps, NameOrder(), ok);
  }

  /** Selecting players and ordering them by name keeps ids distinct. */
  lemma SelectionKeepsDistinctIds(players: seq<Player>, keep: Player -> bool)
    ensures DistinctIds(players) ==> DistinctIds(ByName(FilterBy(players, keep)))
  {
    if DistinctIds(players) {
      var ok := (a: Player, b: Player) => a.id != b.id;
      assert SortedBy(players, ok);
      FilterKeepsSortedBy(players, keep, ok);
      ByNameKeepsDistinctIds(FilterBy(players, keep));
    }
  }

  predicate DistinctIds(ps: seq<Player>) {
    forall i, j :: 0 <= i < j < |ps| ==> ps[i].id != ps[j].id
  }

  /** The regular, active players in name order (scripts: `player_type == REGULAR, is_active`). */
  function RegularActivePlayers(players: seq<Player>): (r: seq<Player>)
    ensures forall p :: p in r <==> p in players && p.kind == Regular && p.isActive
    ensures forall i, j :: 0 <= i < j < |r| ==> NameLe(r[i].name, r[j].name)
    ensures DistinctIds(players) ==> DistinctIds(r)
  {
    var keep := (p: Player) => p.kind == Regular && p.isActive;
    var f := FilterBy(players, keep);
    var r := ByName(f);
    assert forall p :: p in f <==> p in players && keep(p);
    SelectionKeepsDistinctIds(players, keep);
    r
  }

  /**
   * The season's players (`get_season_players`): the players holding a season-rating
   * row for `season`, by name; when there are none, the regular active players instead.
   */
  function SeasonPlayers(players: seq<Player>, t: SeasonTable, season: SeasonId): (r: seq<Player>)
    ensures (exists p :: p in players && (p.id, season) in t) ==>
              forall p :: p in r <==> p in players && (p.id, season) in t
    ensures (forall p :: p in players ==> (p.id, season) !in t) ==> r == RegularActivePlayers(players)
    ensures forall i, j :: 0 <= i < j < |r| ==> NameLe(r[i].name, r[j].name)
    ensures DistinctIds(players) ==> DistinctIds(r)
  {
    var enrolled := FilterBy(players, HasRowIn(t, season));
    assert forall p :: p in enrolled <==> p in players && (p.id, season) in t;
    if |enrolled| > 0 then
      SelectionKeepsDistinctIds(players, HasRowIn(t, season));
      ByName(enrolled)
    else
      RegularActivePlayers(players)
  }

  /** Whether a player holds a row in the season. */
  function HasRowIn(t: SeasonTable, season: SeasonId): Player -> bool {
    (p: Player) => (p.id, season) in t
  }

  // ---------------------------------------------------------------- matches and teams

  /** Why `scalar_one_or_none` gives no match. */
  datatype LookupError = NotFound | SeveralFound

  predicate OfWeek(m: Match, week: int) {
    m.matchWeek == Some(week)
  }

  /**
   * `select(Match).where(Match.match_week == week).scalar_one_or_none()`: the one match
   * of that week, across all seasons; several such matches raise.
   */
  function MatchByWeek(matches: seq<Match>, week: int): (r: Result<Match, LookupError>)
    ensures r.Ok? ==> r.value in matches && OfWeek(r.value, week)
    ensures r.Ok? <==> |Positions(matches, (m: Match) => OfWeek(m, week))| == 1
    ensures r == Err(NotFound) <==> forall m :: m in matches ==> !OfWeek(m, week)
  {
    var p := (m: Match) => OfWeek(m, week);
    var found := FilterBy(matches, p);
    CountIfIsCardinality(matches, p);
    CountIfZero(matches, p);
    assert (forall m :: m in matches ==> !OfWeek(m, week)) <==> forall i :: 0 <= i < |matches| ==> !p(matches[i]);
    if |found| == 0 then Err(NotFound)
    else if |found| > 1 then Err(SeveralFound)
    else
      assert found[0] in found;
      Ok(found[0])
  }

  /** `match.teams`: the teams stored for the match, in storage order. */
  function TeamsOf(teams: seq<Team>, m: MatchId): (r: seq<Team>)
    ensures forall x :: x in r <==> x in teams && x.matchId == m
    ensures |r| == |Positions(teams, (x: Team) => x.matchId == m)|
  {
    CountIfIsCardinality(teams, (x: Team) => x.matchId == m);
    FilterBy(teams, (x: Team) => x.matchId == m)
  }

  /** `get_team_players(team)`, as the ids of its members in insertion order. */
  function Roster(teamPlayers: seq<TeamPlayer>, team: TeamId): seq<PlayerId>
    decreases |teamPlayers|
  {
    if |teamPlayers| == 0 then []
    else
      var n := |teamPlayers| - 1;
      var init := Roster(teamPlayers[..n], team);
      if teamPlayers[n].teamId == team then init + [teamPlayers[n].playerId] else init
  }

  /** The roster holds exactly the players with a membership row for the team, one entry per row. */
  lemma {:induction false} RosterMembers(teamPlayers: seq<TeamPlayer>, team: TeamId)
    ensures forall p :: p in Roster(teamPlayers, team) <==> TeamPlayer(team, p) in teamPlayers
    ensures |Roster(teamPlayers, team)| == |Positions(teamPlayers, (tp: TeamPlayer) => tp.teamId == team)|
    decreases |teamPlayers|
  {
    if |teamPlayers| > 0 {
      var n := |teamPlayers| - 1;
      RosterMembers(teamPlayers[..n], team);
      assert teamPlayers == teamPlayers[..n] + [teamPlayers[n]];
      var p := (x: TeamPlayer) => x.teamId == team;
      CountIfIsCardinality(teamPlayers, p);
      CountIfIsCardinality(teamPlayers[..n], p);
    }
  }
}
