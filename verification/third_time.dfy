/**
 * `record_third_time_attendance`: the operator names who came to the post-match social
 * of a week's match; each name is resolved against the regular active players (exact
 * lowercase name first, then a unique partial match either way round) and a third-time
 * row is added for every resolved player who has none yet for that match.
 */
module ThirdTimeScript {
  import opened Wrappers
  import opened Text
  import opened Entities
  import opened Sorting
  import opened Queries
  import opened Prompts

  // ---------------------------------------------------------------- the name map

  /**
   * `{player.name.lower(): player for player in players}`: one key per lowercased name;
   * a later player with the same key replaces the earlier one.
   */
  function PlayerMap(players: seq<Player>): (d: map<string, Player>)
    ensures forall k :: k in d ==> Lower(d[k].name) == k
    ensures forall i :: 0 <= i < |players| ==> Lower(players[i].name) in d
    decreases |players|
  {
    if |players| == 0 then map[]
    else
      var n := |players| - 1;
      var d := PlayerMap(players[..n]);
      assert forall i :: 0 <= i < n ==> players[..n][i] == players[i];
      d[Lower(players[n].name) := players[n]]
  }

  /** Every value of the map is one of the players. */
  lemma {:induction false} PlayerMapValues(players: seq<Player>)
    ensures forall k :: k in PlayerMap(players) ==> PlayerMap(players)[k] in players
    decreases |players|
  {
    if |players| > 0 {
      var n := |players| - 1;
      PlayerMapValues(players[..n]);
      assert players == players[..n] + [players[n]];
    }
  }

  /** The value under a player's key is the last player listed with that lowercased name. */
  lemma {:induction false} PlayerMapLaterWins(players: seq<Player>, i: nat)
    requires i < |players|
    requires forall j :: i < j < |players| ==> Lower(players[j].name) != Lower(players[i].name)
    ensures PlayerMap(players)[Lower(players[i].name)] == players[i]
    decreases |players|
  {
    var n := |players| - 1;
    var init := players[..n];
    assert PlayerMap(players) == PlayerMap(init)[Lower(players[n].name) := players[n]];
    if i < n {
      assert init[i] == players[i];
      assert forall j :: i < j < n ==> init[j] == players[j];
      PlayerMapLaterWins(init, i);
    }
  }

  // ---------------------------------------------------------------- resolving a name

  /** The partial-match rule: the typed name occurs in the key, or the key in the typed name. */
  predicate PartialMatch(key: string, typed: string) {
    Contains(key, typed) || Contains(typed, key)
  }

  /** The keys the partial-match rule accepts for the lowercased typed name. */
  function PartialKeys(d: map<string, Player>, typed: string): set<string> {
    set k | k in d && PartialMatch(k, typed)
  }

  lemma SingleElement<T>(s: set<T>)
    requires |s| == 1
    ensures forall a, b :: a in s && b in s ==> a == b
  {
    var x :| x in s;
    assert |s - {x}| == 0;
    assert s - {x} == {};
  }

  /**
   * Lines 95-112: the player stored under the lowercased name; failing that, the one
   * player whose key partially matches it; `None` when none or several do.
   */
  function Resolve(d: map<string, Player>, name: string): (r: Option<Player>)
    ensures Lower(name) in d ==> r == Some(d[Lower(name)])
    ensures Lower(name) !in d ==> (r.Some? <==> |PartialKeys(d, Lower(name))| == 1)
    ensures Lower(name) !in d && r.Some? ==>
              exists k :: k in d && PartialMatch(k, Lower(name)) && r.value == d[k]
  {
    var typed := Lower(name);
    if typed in d then Some(d[typed])
    else
      var ks := PartialKeys(d, typed);
      if |ks| == 1 then
        SingleElement(ks);
        var k :| k in ks;
        Some(d[k])
      else None
  }

  /** The lookup does not depend on the case of the typed name. */
  lemma ResolveIgnoresCase(d: map<string, Player>, name: string)
    ensures Resolve(d, Lower(name)) == Resolve(d, name)
  {
    LowerIdempotent(name);
  }

  /** Any player's own name, typed in any case, finds that player when no later player shares the lowercased name. */
  lemma ResolveFindsOwnName(players: seq<Player>, i: nat, typed: string)
    requires i < |players| && Lower(typed) == Lower(players[i].name)
    requires forall j :: i < j < |players| ==> Lower(players[j].name) != Lower(players[i].name)
    ensures Resolve(PlayerMap(players), typed) == Some(players[i])
  {
    PlayerMapLaterWins(players, i);
  }

  // ---------------------------------------------------------------- recording

  /** The rows of player `p` at match `m`. */
  function RowOf(m: MatchId, p: PlayerId): ThirdTimeAttendance -> bool {
    (a: ThirdTimeAttendance) => a.matchId == m && a.playerId == p
  }

  /** The UNIQUE (match, player) constraint of the third-time table. */
  predicate ThirdTimeUnique(rows: seq<ThirdTimeAttendance>) {
    forall i, j :: 0 <= i < j < |rows| ==> rows[i].matchId != rows[j].matchId || rows[i].playerId != rows[j].playerId
  }

  /** Under the UNIQUE constraint a (match, player) pair has at most one row. */
  lemma {:induction false} UniqueRowsCountAtMostOne(rows: seq<ThirdTimeAttendance>, m: MatchId, p: PlayerId)
    requires ThirdTimeUnique(rows)
    ensures CountIf(rows, RowOf(m, p)) <= 1
    decreases |rows|
  {
    if |rows| > 0 {
      var n := |rows| - 1;
      UniqueRowsCountAtMostOne(rows[..n], m, p);
      if RowOf(m, p)(rows[n]) {
        forall i | 0 <= i < n ensures !RowOf(m, p)(rows[..n][i]) {
          assert rows[..n][i] == rows[i];
        }
        CountIfZero(rows[..n], RowOf(m, p));
      }
    }
  }

  /** Adding a row for a pair with no row yet keeps the constraint. */
  lemma AddFreshRowKeepsUnique(rows: seq<ThirdTimeAttendance>, x: ThirdTimeAttendance)
    requires ThirdTimeUnique(rows)
    requires CountIf(rows, RowOf(x.matchId, x.playerId)) == 0
    ensures ThirdTimeUnique(rows + [x])
  {
    CountIfZero(rows, RowOf(x.matchId, x.playerId));
    var all := rows + [x];
    forall i, j | 0 <= i < j < |all| ensures all[i].matchId != all[j].matchId || all[i].playerId != all[j].playerId {
      assert all[i] == rows[i];
      if j < |rows| {
        assert all[j] == rows[j];
      }
    }
  }

  /** The rows so far and the three counters of the loop at lines 88-135. */
  datatype Tally = Tally(rows: seq<ThirdTimeAttendance>, created: nat, skipped: nat, notFound: nat)

  /** Why the script stops; nothing is written in any of these cases. */
  datatype ThirdTimeError =
    | NoMatchForWeek
    | SeveralMatchesForWeek
    | NoRegularPlayers
    | NothingEntered
    | NoValidNames
    | SeveralRowsForPlayer

  /**
   * One pass of the loop: a name that does not resolve is counted as not found; a
   * resolved player already recorded for the match is skipped (the rows added earlier
   * in the session are visible to the query); otherwise a row is added. Two stored rows
   * for the pair make `scalar_one_or_none` raise.
   */
  function RecordName(d: map<string, Player>, m: MatchId, name: string, t: Tally): (r: Result<Tally, ThirdTimeError>)
    ensures r.Ok? ==> r.value.created + r.value.skipped + r.value.notFound == t.created + t.skipped + t.notFound + 1
    ensures Resolve(d, name).None? ==> r == Ok(t.(notFound := t.notFound + 1))
    ensures Resolve(d, name).Some? && CountIf(t.rows, RowOf(m, Resolve(d, name).value.id)) == 1 ==>
              r == Ok(t.(skipped := t.skipped + 1))
    ensures Resolve(d, name).Some? && CountIf(t.rows, RowOf(m, Resolve(d, name).value.id)) == 0 ==>
              r == Ok(t.(rows := t.rows + [ThirdTimeAttendance(m, Resolve(d, name).value.id, true)], created := t.created + 1))
    ensures r.Err? <==> Resolve(d, name).Some? && CountIf(t.rows, RowOf(m, Resolve(d, name).value.id)) >= 2
  {
    match Resolve(d, name)
    case None => Ok(t.(notFound := t.notFound + 1))
    case Some(p) =>
      var c := CountIf(t.rows, RowOf(m, p.id));
      if c >= 2 then Err(SeveralRowsForPlayer)
      else if c == 1 then Ok(t.(skipped := t.skipped + 1))
      else Ok(t.(rows := t.rows + [ThirdTimeAttendance(m, p.id, true)], created := t.created + 1))
  }

  /** The loop over the parsed names, in order; an exception ends it. */
  function RecordNames(d: map<string, Player>, m: MatchId, names: seq<string>, t: Tally): (r: Result<Tally, ThirdTimeError>)
    decreases |names|
  {
    if |names| == 0 then Ok(t)
    else
      match RecordNames(d, m, names[..|names| - 1], t)
      case Err(e) => Err(e)
      case Ok(t') => RecordName(d, m, names[|names| - 1], t')
  }

  /** Every name is counted exactly once: as created, as skipped or as not found. */
  lemma {:induction false} RecordNamesCounts(d: map<string, Player>, m: MatchId, names: seq<string>, t: Tally)
    ensures RecordNames(d, m, names, t).Ok? ==>
              var u := RecordNames(d, m, names, t).value;
              u.created + u.skipped + u.notFound == t.created + t.skipped + t.notFound + |names|
    decreases |names|
  {
    if |names| > 0 {
      RecordNamesCounts(d, m, names[..|names| - 1], t);
    }
  }

  /**
   * Starting from rows that satisfy the UNIQUE constraint the loop never raises, never
   * duplicates a row, only appends rows `(m, p, attended)` for players `p` of the map,
   * and appends exactly one row per created record.
   */
  lemma {:induction false} RecordNamesKeepsUnique(d: map<string, Player>, m: MatchId, names: seq<string>, t: Tally)
    requires ThirdTimeUnique(t.rows)
    ensures RecordNames(d, m, names, t).Ok?
    ensures ThirdTimeUnique(RecordNames(d, m, names, t).value.rows)
    ensures |t.rows| <= |RecordNames(d, m, names, t).value.rows|
    ensures |RecordNames(d, m, names, t).value.rows| - |t.rows| == RecordNames(d, m, names, t).value.created - t.created
    ensures RecordNames(d, m, names, t).value.rows[..|t.rows|] == t.rows
    ensures forall i :: |t.rows| <= i < |RecordNames(d, m, names, t).value.rows| ==>
              var a := RecordNames(d, m, names, t).value.rows[i];
              a.matchId == m && a.attended && exists k :: k in d && d[k].id == a.playerId
    decreases |names|
  {
    if |names| > 0 {
      var init := names[..|names| - 1];
      RecordNamesKeepsUnique(d, m, init, t);
      var u := RecordNames(d, m, init, t).value;
      var name := names[|names| - 1];
      match Resolve(d, name)
      case None =>
      case Some(p) =>
        UniqueRowsCountAtMostOne(u.rows, m, p.id);
        if CountIf(u.rows, RowOf(m, p.id)) == 0 {
          var x := ThirdTimeAttendance(m, p.id, true);
          AddFreshRowKeepsUnique(u.rows, x);
          var v := RecordNames(d, m, names, t).value;
          assert v.rows == u.rows + [x];
          assert v.rows[..|t.rows|] == u.rows[..|t.rows|];
          assert exists k :: k in d && d[k] == p;
        }
    }
  }

  // ---------------------------------------------------------------- the script

  /** What the summary reports. */
  datatype Summary = Summary(created: nat, skipped: nat, notFound: nat)

  /** The match `m` with its third-time rows replaced, wherever it is stored. */
  function WithThirdTime(matches: seq<Match>, m: MatchId, rows: seq<ThirdTimeAttendance>): (r: seq<Match>)
    ensures |r| == |matches|
    ensures forall i :: 0 <= i < |matches| ==>
              r[i] == if matches[i].id == m then matches[i].(thirdTime := rows) else matches[i]
  {
    seq(|matches|, i requires 0 <= i < |matches| =>
      if matches[i].id == m then matches[i].(thirdTime := rows) else matches[i])
  }

  /**
   * Lines 70-135 for the found match `m` and the regular active players: the typed
   * line is parsed into names, an empty line or an empty list cancels, and the loop
   * runs over the stored rows of the match.
   */
  function RecordForMatch(m: Match, regular: seq<Player>, line: string): (r: Result<(seq<ThirdTimeAttendance>, Summary), ThirdTimeError>)
    ensures Strip(line) == "" ==> r == Err(NothingEntered)
    ensures Strip(line) != "" && |ParseNames(line)| == 0 ==> r == Err(NoValidNames)
    ensures r.Ok? ==> |ParseNames(line)| > 0
                      && r.value.1.created + r.value.1.skipped + r.value.1.notFound == |ParseNames(line)|
  {
    if Strip(line) == "" then Err(NothingEntered)
    else
      var names := ParseNames(line);
      if |names| == 0 then Err(NoValidNames)
      else
        var start := Tally(m.thirdTime, 0, 0, 0);
        RecordNamesCounts(PlayerMap(regular), m.id, names, start);
        match RecordNames(PlayerMap(regular), m.id, names, start)
        case Err(e) => Err(e)
        case Ok(u) => Ok((u.rows, Summary(u.created, u.skipped, u.notFound)))
  }

  /**
   * The whole script for the accepted `week` and the typed `line` of names. The session
   * commits the added rows when the loop finishes; only the week's match changes.
   */
  function RecordThirdTimeAttendance(week: int, line: string, db: Store): (r: Result<(Store, Summary), ThirdTimeError>)
    ensures MatchByWeek(db.matches, week) == Err(NotFound) ==> r == Err(NoMatchForWeek)
    ensures MatchByWeek(db.matches, week) == Err(SeveralFound) ==> r == Err(SeveralMatchesForWeek)
    ensures MatchByWeek(db.matches, week).Ok? && |RegularActivePlayers(db.players)| == 0 ==> r == Err(NoRegularPlayers)
    ensures MatchByWeek(db.matches, week).Ok? && |RegularActivePlayers(db.players)| > 0 ==>
              match RecordForMatch(MatchByWeek(db.matches, week).value, RegularActivePlayers(db.players), line)
              case Err(e) => r == Err(e)
              case Ok(done) =>
                r == Ok((db.(matches := WithThirdTime(db.matches, MatchByWeek(db.matches, week).value.id, done.0)), done.1))
  {
    match MatchByWeek(db.matches, week)
    case Err(NotFound) => Err(NoMatchForWeek)
    case Err(SeveralFound) => Err(SeveralMatchesForWeek)
    case Ok(m) =>
      var regular := RegularActivePlayers(db.players);
      if |regular| == 0 then Err(NoRegularPlayers)
      else
        match RecordForMatch(m, regular, line)
        case Err(e) => Err(e)
        case Ok(done) => Ok((db.(matches := WithThirdTime(db.matches, m.id, done.0)), done.1))
  }

  /**
   * When the match keeps the UNIQUE constraint and the line names someone, recording
   * succeeds; the match's rows afterwards still keep the constraint: the stored rows
   * first, then one new row per created record, each for a regular active player.
   */
  lemma RecordingNeverDuplicates(m: Match, players: seq<Player>, line: string)
    requires ThirdTimeUnique(m.thirdTime)
    requires |ParseNames(line)| > 0
    ensures RecordForMatch(m, RegularActivePlayers(players), line).Ok?
    ensures var done := RecordForMatch(m, RegularActivePlayers(players), line).value;
            && ThirdTimeUnique(done.0)
            && |m.thirdTime| <= |done.0|
            && done.0[..|m.thirdTime|] == m.thirdTime
            && |done.0| == |m.thirdTime| + done.1.created
            && forall j :: |m.thirdTime| <= j < |done.0| ==>
                 done.0[j].matchId == m.id && done.0[j].attended
                 && exists p :: p in players && p.kind == Regular && p.isActive && p.id == done.0[j].playerId
  {
    var regular := RegularActivePlayers(players);
    var d := PlayerMap(regular);
    var names := ParseNames(line);
    assert Strip(line) != "";
    var start := Tally(m.thirdTime, 0, 0, 0);
    PlayerMapValues(regular);
    RecordNamesKeepsUnique(d, m.id, names, start);
    var u := RecordNames(d, m.id, names, start).value;
    assert RecordForMatch(m, regular, line) == Ok((u.rows, Summary(u.created, u.skipped, u.notFound)));
    forall j | |m.thirdTime| <= j < |u.rows|
      ensures exists p :: p in players && p.kind == Regular && p.isActive && p.id == u.rows[j].playerId
    {
      var k :| k in d && d[k].id == u.rows[j].playerId;
      assert d[k] in regular;
    }
  }
}
