/**
 * `record_match`: the operator picks the attendees by number from the season's players,
 * every season player gets an attendance row, Team Black is picked by number among
 * the attendees and Team Pink is the rest, each team's average is stored, the result
 * is typed in, and the third-time attendees are picked by number.
 */
module RecordMatch {
  import opened Wrappers
  import opened Text
  import opened Entities
  import opened Config
  import opened Sorting
  import opened Prompts
  import opened RatingService
  import TeamService

  // ---------------------------------------------------------------- selections

  /** Why a selection prompt asks again. */
  datatype Refused = NothingTyped | InvalidSelection | TooFewSelected | AllSelected | RepeatedSelection

  /** The fewest attendees a match takes. */
  const LEAST_ATTENDEES := 2

  function Ids(ps: seq<Player>): (ids: seq<PlayerId>)
    ensures |ids| == |ps|
    ensures forall i :: 0 <= i < |ps| ==> ids[i] == ps[i].id
  {
    seq(|ps|, i requires 0 <= i < |ps| => ps[i].id)
  }

  /** The ids a list mentions. */
  function Members(s: seq<PlayerId>): set<PlayerId> {
    set x | x in s
  }

  /** No id is listed twice. */
  predicate NoRepeats(ids: seq<PlayerId>) {
    forall i, j :: 0 <= i < j < |ids| ==> ids[i] != ids[j]
  }

  /**
   * One answer to `select_attendees` (lines 70-86) over the season's players in display
   * order: the ids of the players numbered in the stripped line; the same number may be
   * typed twice.
   */
  function SelectAttendees(line: string, players: seq<Player>): (r: Result<seq<PlayerId>, Refused>)
    ensures Strip(line) == "" ==> r == Err(NothingTyped)
    ensures Strip(line) != "" ==> (r == Err(InvalidSelection) <==> SelectByNumbers(Strip(line), players).None?)
    ensures r.Ok? ==> SelectByNumbers(Strip(line), players).Some?
                      && r.value == Ids(SelectByNumbers(Strip(line), players).value)
                      && |r.value| >= LEAST_ATTENDEES
    ensures Strip(line) != "" && SelectByNumbers(Strip(line), players).Some? ==>
              (r.Ok? <==> |SelectByNumbers(Strip(line), players).value| >= LEAST_ATTENDEES)
  {
    var selection := Strip(line);
    if selection == "" then Err(NothingTyped)
    else
      match SelectByNumbers(selection, players)
      case None => Err(InvalidSelection)
      case Some(chosen) => if |chosen| < LEAST_ATTENDEES then Err(TooFewSelected) else Ok(Ids(chosen))
  }

  /** A line of typed numbers is not blank and has nothing to strip. */
  lemma NumbersLineIsStripped(positions: seq<nat>)
    requires |positions| > 0
    ensures Join(Numbers(positions), ' ') != "" && Strip(Join(Numbers(positions), ' ')) == Join(Numbers(positions), ' ')
  {
    var tokens := Numbers(positions);
    forall k | 0 <= k < |tokens| ensures |tokens[k]| > 0 && !IsSpace(tokens[k][0]) && !IsSpace(tokens[k][|tokens[k]| - 1]) {
      ShowIntIsWord(positions[k] + 1);
    }
    JoinEnds(tokens, ' ');
    StripOfTrimmed(Join(tokens, ' '));
  }

  /** Typing the numbers of at least two valid positions selects the players at those positions. */
  lemma SelectAttendeesByNumbers(players: seq<Player>, positions: seq<nat>)
    requires |positions| >= LEAST_ATTENDEES
    requires forall k :: 0 <= k < |positions| ==> positions[k] < |players|
    ensures var r := SelectAttendees(Join(Numbers(positions), ' '), players);
            r.Ok? && |r.value| == |positions| && forall k :: 0 <= k < |positions| ==> r.value[k] == players[positions[k]].id
  {
    var line := Join(Numbers(positions), ' ');
    NumbersLineIsStripped(positions);
    SelectShownNumbers(players, positions);
    var chosen := SelectByNumbers(line, players).value;
    ChosenAreAttendees(line, players, chosen);
    assert forall k :: 0 <= k < |positions| ==> chosen[k] == players[positions[k]];
  }

  lemma ChosenAreAttendees(line: string, players: seq<Player>, chosen: seq<Player>)
    requires line != "" && Strip(line) == line
    requires SelectByNumbers(line, players) == Some(chosen) && |chosen| >= LEAST_ATTENDEES
    ensures SelectAttendees(line, players) == Ok(Ids(chosen))
  {
  }

  // ---------------------------------------------------------------- attendance

  /** A `match_attendances` row. */
  datatype Attendance = Attendance(matchId: MatchId, playerId: PlayerId, attended: bool)

  /** Lines 123-135: one row per season player, attended exactly when the player was selected. */
  function MarkAttendance(m: MatchId, seasonPlayers: seq<PlayerId>, attendees: seq<PlayerId>): (rows: seq<Attendance>)
    ensures |rows| == |seasonPlayers|
    ensures forall i :: 0 <= i < |rows| ==> rows[i].matchId == m && rows[i].playerId == seasonPlayers[i]
  {
    seq(|seasonPlayers|, i requires 0 <= i < |seasonPlayers| => Attendance(m, seasonPlayers[i], seasonPlayers[i] in attendees))
  }

  /**
   * The players marked as attending are exactly the season players that were selected;
   * every other season player is marked absent.
   */
  lemma AttendedAreTheSelected(m: MatchId, seasonPlayers: seq<PlayerId>, attendees: seq<PlayerId>)
    ensures forall p :: (exists i :: 0 <= i < |seasonPlayers| && MarkAttendance(m, seasonPlayers, attendees)[i] == Attendance(m, p, true))
                        <==> p in seasonPlayers && p in attendees
    ensures forall i :: 0 <= i < |seasonPlayers| && seasonPlayers[i] !in attendees ==>
              !MarkAttendance(m, seasonPlayers, attendees)[i].attended
  {
    var rows := MarkAttendance(m, seasonPlayers, attendees);
    forall p | p in seasonPlayers && p in attendees
      ensures exists i :: 0 <= i < |seasonPlayers| && rows[i] == Attendance(m, p, true)
    {
      var i :| 0 <= i < |seasonPlayers| && seasonPlayers[i] == p;
      assert rows[i] == Attendance(m, p, true);
    }
  }

  // ---------------------------------------------------------------- teams

  function NotIn(black: seq<PlayerId>): PlayerId -> bool {
    x => x !in black
  }

  function IsIn(black: seq<PlayerId>): PlayerId -> bool {
    x => x in black
  }

  function Unequal(a: PlayerId, b: PlayerId): bool {
    a != b
  }

  /** `[pid for pid in attendees if pid not in black]`. */
  function Complement(attendees: seq<PlayerId>, black: seq<PlayerId>): (pink: seq<PlayerId>)
    ensures forall x :: x in pink <==> x in attendees && x !in black
  {
    FilterBy(attendees, NotIn(black))
  }

  /**
   * One answer to the Team Black prompt of `create_teams` (lines 169-192) as written: the
   * attendees numbered in the line, at least one and fewer entries than there are
   * attendees; Team Pink is the complement, in attendee order.
   */
  function PickTeams(line: string, attendees: seq<PlayerId>): (r: Result<(seq<PlayerId>, seq<PlayerId>), Refused>)
    ensures Strip(line) == "" ==> r == Err(NothingTyped)
    ensures r.Ok? ==> SelectByNumbers(Strip(line), attendees) == Some(r.value.0)
    ensures r.Ok? ==> 1 <= |r.value.0| < |attendees| && r.value.1 == Complement(attendees, r.value.0)
    ensures Strip(line) != "" && SelectByNumbers(Strip(line), attendees).Some? ==>
              (r.Ok? <==> 1 <= |SelectByNumbers(Strip(line), attendees).value| < |attendees|)
  {
    var selection := Strip(line);
    if selection == "" then Err(NothingTyped)
    else
      match SelectByNumbers(selection, attendees)
      case None => Err(InvalidSelection)
      case Some(black) =>
        if |black| < 1 then Err(TooFewSelected)
        else if |black| >= |attendees| then Err(AllSelected)
        else Ok((black, Complement(attendees, black)))
  }

  /** The number of distinct elements of a list is at most its length, and equal to it without repeats. */
  lemma {:induction false} DistinctCount(s: seq<PlayerId>)
    ensures |Members(s)| <= |s|
    ensures NoRepeats(s) ==> |Members(s)| == |s|
    decreases |s|
  {
    if |s| > 0 {
      var n := |s| - 1;
      var init := s[..n];
      DistinctCount(init);
      var before := Members(init);
      assert s == init + [s[n]];
      assert Members(s) == before + {s[n]};
      if NoRepeats(s) {
        assert NoRepeats(init) by {
          forall i, j | 0 <= i < j < n ensures init[i] != init[j] {
            assert init[i] == s[i] && init[j] == s[j];
          }
        }
        assert s[n] !in before by {
          forall i | 0 <= i < n ensures init[i] != s[n] {
            assert init[i] == s[i];
          }
        }
        assert |before + {s[n]}| == |before| + 1;
      } else {
        assert |before + {s[n]}| <= |before| + 1;
      }
    }
  }

  /** A list that keeps `Unequal` between every earlier and later entry has no repeats. */
  lemma UnequalIsNoRepeats(s: seq<PlayerId>)
    ensures SortedBy(s, Unequal) <==> NoRepeats(s)
  {
    assert forall i, j :: 0 <= i < j < |s| ==> (Unequal(s[i], s[j]) <==> s[i] != s[j]);
  }

  /** The Complement of a list without repeats has none either. */
  lemma ComplementNoRepeats(attendees: seq<PlayerId>, black: seq<PlayerId>)
    requires NoRepeats(attendees)
    ensures NoRepeats(Complement(attendees, black))
  {
    UnequalIsNoRepeats(attendees);
    FilterKeepsSortedBy(attendees, NotIn(black), Unequal);
    UnequalIsNoRepeats(Complement(attendees, black));
  }

  /** With distinct attendees, fewer Black entries than attendees always leave someone for Pink. */
  lemma DistinctAttendeesLeavePink(attendees: seq<PlayerId>, black: seq<PlayerId>)
    requires NoRepeats(attendees) && |black| < |attendees|
    ensures |Complement(attendees, black)| > 0
  {
    var shared := FilterBy(attendees, IsIn(black));
    CountIfComplement(attendees, IsIn(black), NotIn(black));
    UnequalIsNoRepeats(attendees);
    FilterKeepsSortedBy(attendees, IsIn(black), Unequal);
    UnequalIsNoRepeats(shared);
    DistinctCount(shared);
    DistinctCount(black);
    SubsetSize(Members(shared), Members(black));
  }

  /**
   * The corrected Team Black prompt: a number typed twice is refused, and so is a
   * selection that leaves Team Pink empty, so both teams get members and no member row
   * is inserted twice.
   */
  function PickTeamsChecked(line: string, attendees: seq<PlayerId>): (r: Result<(seq<PlayerId>, seq<PlayerId>), Refused>)
    ensures r.Ok? ==> PickTeams(line, attendees) == r
    ensures r.Ok? ==> |r.value.0| > 0 && |r.value.1| > 0 && NoRepeats(r.value.0)
  {
    match PickTeams(line, attendees)
    case Err(e) => Err(e)
    case Ok(teams) =>
      if !NoRepeats(teams.0) then Err(RepeatedSelection)
      else if |teams.1| == 0 then Err(AllSelected)
      else Ok(teams)
  }

  /** With distinct attendees and no number typed twice, the corrected prompt accepts what the original accepts. */
  lemma CheckedAgreesOnDistinct(line: string, attendees: seq<PlayerId>)
    requires NoRepeats(attendees)
    requires PickTeams(line, attendees).Ok? && NoRepeats(PickTeams(line, attendees).value.0)
    ensures PickTeamsChecked(line, attendees) == PickTeams(line, attendees)
  {
    DistinctAttendeesLeavePink(attendees, PickTeams(line, attendees).value.0);
  }

  /** The corrected attendee prompt: a number typed twice is refused as well. */
  function SelectAttendeesChecked(line: string, players: seq<Player>): (r: Result<seq<PlayerId>, Refused>)
    ensures r.Ok? ==> SelectAttendees(line, players) == r && NoRepeats(r.value)
  {
    match SelectAttendees(line, players)
    case Err(e) => Err(e)
    case Ok(ids) => if NoRepeats(ids) then Ok(ids) else Err(RepeatedSelection)
  }

  /**
   * Lines 203-217 and 228-242: the mean current rating of the listed members (the initial
   * rating for a member with no season row), or `None` for an empty team.
   */
  function AverageOrNone(members: seq<PlayerId>, t: SeasonTable, season: SeasonId): (r: Option<real>)
    ensures r.None? <==> |members| == 0
    ensures r.Some? ==> r.value * |members| as real == SumRatings(members, t, season)
    ensures r.Some? && SeasonTableValid(t) ==> InRatingRange(r.value)
  {
    if |members| == 0 then None else Some(AverageOf(members, t, season))
  }

  /** Why the session is rolled back after the teams were picked. */
  datatype TeamsFailure =
    | MemberInsertedTwice  // the UNIQUE (team, player) constraint refuses a flushed member row
    | NoAverageToShow      // formatting a null average with `:.2f` raises

  /** The two stored teams and their member rows, Black's first. */
  datatype CreatedTeams = CreatedTeams(black: Team, pink: Team, members: seq<TeamPlayer>)

  /**
   * Lines 194-258 for team ids `blackId` and `pinkId`: each member row is flushed on its
   * own, so a repeated member raises; both averages are printed, so a null one raises.
   */
  function CreateTeams(m: MatchId, blackId: TeamId, pinkId: TeamId, black: seq<PlayerId>, pink: seq<PlayerId>,
                       t: SeasonTable, season: SeasonId): (r: Result<CreatedTeams, TeamsFailure>)
    ensures r.Ok? <==> NoRepeats(black) && NoRepeats(pink) && |black| > 0 && |pink| > 0
    ensures NoRepeats(black) && NoRepeats(pink) && |pink| == 0 ==> r == Err(NoAverageToShow)
    ensures r.Ok? ==> r.value.black == Team(blackId, m, TeamA, AverageOrNone(black, t, season))
                      && r.value.pink == Team(pinkId, m, TeamB, AverageOrNone(pink, t, season))
                      && r.value.members == TeamService.MemberRows(blackId, black) + TeamService.MemberRows(pinkId, pink)
  {
    if !NoRepeats(black) || !NoRepeats(pink) then Err(MemberInsertedTwice)
    else
      var avgBlack := AverageOrNone(black, t, season);
      var avgPink := AverageOrNone(pink, t, season);
      if avgBlack.None? || avgPink.None? then Err(NoAverageToShow)
      else
        Ok(CreatedTeams(Team(blackId, m, TeamA, avgBlack), Team(pinkId, m, TeamB, avgPink),
                        TeamService.MemberRows(blackId, black) + TeamService.MemberRows(pinkId, pink)))
  }

  lemma OneOneLine()
    ensures Join(Numbers([0, 0]), ' ') == "1 1"
  {
    assert ShowInt(1) == "1";
    assert Numbers([0, 0]) == ["1", "1"];
    assert Join(["1", "1"][1..], ' ') == "1";
  }

  /** Typing "1 1" at the attendee prompt selects the first player twice. */
  lemma TypedTwiceSelectsTwice(players: seq<Player>)
    requires |players| > 0
    ensures SelectAttendees("1 1", players) == Ok([players[0].id, players[0].id])
  {
    OneOneLine();
    SelectAttendeesByNumbers(players, [0, 0]);
    PairOfSame(SelectAttendees("1 1", players), players[0].id);
  }

  lemma PairOfSame(r: Result<seq<PlayerId>, Refused>, x: PlayerId)
    requires r.Ok? && |r.value| == 2 && r.value[0] == x && r.value[1] == x
    ensures r == Ok([x, x])
  {
    assert r.value == [x, x];
  }

  lemma SelectFirstOfTwo(x: PlayerId)
    ensures SelectByNumbers("1", [x, x]) == Some([x])
  {
    assert ShowInt(1) == "1";
    ShowIntIsWord(1);
    ParseShowInt(1);
    SelectOne("1", [x, x], 0);
  }

  /** With that player listed twice among the attendees, Team Black "1" takes every attendee. */
  lemma BlackTakesBoth(x: PlayerId)
    ensures PickTeams("1", [x, x]) == Ok(([x], []))
  {
    SelectFirstOfTwo(x);
    CountIfZero([x, x], NotIn([x]));
    assert |Complement([x, x], [x])| == 0;
  }

  /**
   * As written, a repeated attendee lets Team Black take every player: attendees
   * "1 1" and Team Black "1" pass both prompts, Team Pink is empty, and printing its
   * average raises.
   */
  lemma RepeatedAttendeeEmptiesPink(players: seq<Player>, blackId: TeamId, pinkId: TeamId, m: MatchId,
                                    t: SeasonTable, season: SeasonId)
    requires |players| > 0
    ensures SelectAttendees("1 1", players) == Ok([players[0].id, players[0].id])
    ensures PickTeams("1", [players[0].id, players[0].id]) == Ok(([players[0].id], []))
    ensures CreateTeams(m, blackId, pinkId, [players[0].id], [], t, season) == Err(NoAverageToShow)
  {
    TypedTwiceSelectsTwice(players);
    BlackTakesBoth(players[0].id);
  }

  /**
   * With the corrected prompts the teams are always created: both have members, neither
   * lists a player twice, and both averages are present and within the rating bounds.
   */
  lemma CheckedTeamsAreCreated(attendeeLine: string, blackLine: string, players: seq<Player>,
                               m: MatchId, blackId: TeamId, pinkId: TeamId, t: SeasonTable, season: SeasonId)
    requires SelectAttendeesChecked(attendeeLine, players).Ok?
    requires PickTeamsChecked(blackLine, SelectAttendeesChecked(attendeeLine, players).value).Ok?
    requires SeasonTableValid(t)
    ensures var teams := PickTeamsChecked(blackLine, SelectAttendeesChecked(attendeeLine, players).value).value;
            var r := CreateTeams(m, blackId, pinkId, teams.0, teams.1, t, season);
            && r.Ok?
            && r.value.black.averageSkillRating.Some? && InRatingRange(r.value.black.averageSkillRating.value)
            && r.value.pink.averageSkillRating.Some? && InRatingRange(r.value.pink.averageSkillRating.value)
  {
    var attendees := SelectAttendeesChecked(attendeeLine, players).value;
    var teams := PickTeamsChecked(blackLine, attendees).value;
    ComplementNoRepeats(attendees, teams.0);
  }

  // ---------------------------------------------------------------- result and third time

  /**
   * `record_result` (lines 263-292): `int()` of each typed score with no lower bound;
   * a line that is not a number raises.
   */
  function RecordResult(m: MatchId, black: TeamId, pink: TeamId, blackLine: string, pinkLine: string): (r: Option<MatchResult>)
    ensures r.Some? <==> ParseInt(Strip(blackLine)).Some? && ParseInt(Strip(pinkLine)).Some?
    ensures r.Some? ==> r.value == ResultFromScores(m, black, pink, ParseInt(Strip(blackLine)).value, ParseInt(Strip(pinkLine)).value)
  {
    match (ParseInt(Strip(blackLine)), ParseInt(Strip(pinkLine)))
    case (Some(a), Some(b)) => Some(ResultFromScores(m, black, pink, a, b))
    case _ => None
  }

  /** Why `record_third_time` fails. */
  datatype ThirdTimeFailure = RowInsertedTwice

  /**
   * `record_third_time` (lines 318-343): an empty line or an invalid selection records
   * nothing; otherwise one attended row per selected player, each flushed on its own so
   * a player selected twice violates the UNIQUE (match, player) constraint.
   */
  function RecordThirdTimeByNumbers(m: MatchId, line: string, players: seq<Player>): (r: Result<seq<ThirdTimeAttendance>, ThirdTimeFailure>)
    ensures Strip(line) == "" ==> r == Ok([])
    ensures Strip(line) != "" && SelectByNumbers(Strip(line), players).None? ==> r == Ok([])
    ensures Strip(line) != "" && SelectByNumbers(Strip(line), players).Some? ==>
              var ids := Ids(SelectByNumbers(Strip(line), players).value);
              (r.Ok? <==> NoRepeats(ids))
              && (r.Ok? ==> |r.value| == |ids| && forall i :: 0 <= i < |ids| ==> r.value[i] == ThirdTimeAttendance(m, ids[i], true))
  {
    var selection := Strip(line);
    if selection == "" then Ok([])
    else
      match SelectByNumbers(selection, players)
      case None => Ok([])
      case Some(chosen) =>
        ThirdTimeRows(m, Ids(chosen))
  }

  /** One attended `third_time_attendances` row per selected player; a player selected twice breaks the key. */
  function ThirdTimeRows(m: MatchId, ids: seq<PlayerId>): (r: Result<seq<ThirdTimeAttendance>, ThirdTimeFailure>)
    ensures r.Ok? <==> NoRepeats(ids)
    ensures r.Ok? ==> |r.value| == |ids| && forall i :: 0 <= i < |ids| ==> r.value[i] == ThirdTimeAttendance(m, ids[i], true)
  {
    if !NoRepeats(ids) then Err(RowInsertedTwice)
    else Ok(seq(|ids|, i requires 0 <= i < |ids| => ThirdTimeAttendance(m, ids[i], true)))
  }
}
