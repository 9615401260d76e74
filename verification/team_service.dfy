/**
 * `TeamService`: the greedy balancer (players by rating, highest first, each to the team
 * with the lower running total, ties to team A), the shuffle balancer (split each
 * candidate order at the middle and keep the first split with the smallest gap between
 * averages) and the rating gap between two stored teams. The candidate orders that
 * `random.shuffle` would produce are an input.
 */
module TeamService {
  import opened Wrappers
  import opened Config
  import opened Entities
  import opened Sorting
  import opened Queries
  import opened RatingService

  /** Why no teams are created. */
  datatype TeamError = TooFewPlayers | NoAttempts

  /** Two teams: members of A and B in the order they were assigned, and their average ratings. */
  datatype Balanced = Balanced(a: seq<PlayerId>, b: seq<PlayerId>, avgA: real, avgB: real)

  /** A player's current season rating, or the initial rating when the player has no row. */
  function RatingIn(t: SeasonTable, season: SeasonId): PlayerId -> real {
    (p: PlayerId) => RowOrDefault(t, p, season).currentRating
  }

  lemma RatingInRange(t: SeasonTable, season: SeasonId, p: PlayerId)
    requires SeasonTableValid(t)
    ensures InRatingRange(RatingIn(t, season)(p))
  {
  }

  function SumOf(ids: seq<PlayerId>, rating: PlayerId -> real): real
    decreases |ids|
  {
    if |ids| == 0 then 0.0 else SumOf(ids[..|ids| - 1], rating) + rating(ids[|ids| - 1])
  }

  /** `total / len(team) if team else 0.0`. */
  function Average(total: real, n: nat): (avg: real)
    ensures n == 0 ==> avg == 0.0
    ensures n > 0 ==> avg * n as real == total
  {
    if n == 0 then 0.0 else Mean(total, n)
  }

  // ---------------------------------------------------------------- greedy split

  /** `sort(key=rating, reverse=True)`: `p` may come before `q` when its rating is at least as high. */
  function ByRating(rating: PlayerId -> real): (PlayerId, PlayerId) -> bool {
    (p: PlayerId, q: PlayerId) => rating(p) >= rating(q)
  }

  lemma ByRatingIsPreorder(rating: PlayerId -> real)
    ensures TotalPreorder(ByRating(rating))
  {
  }

  /** The state of the greedy loop: both teams so far and their running totals. */
  datatype Split = Split(a: seq<PlayerId>, b: seq<PlayerId>, sumA: real, sumB: real)

  /** One pass of the greedy loop: `p` goes to A when A's total is not above B's, else to B. */
  function Assign(d: Split, p: PlayerId, rating: PlayerId -> real): Split {
    if d.sumA <= d.sumB then Split(d.a + [p], d.b, d.sumA + rating(p), d.sumB)
    else Split(d.a, d.b + [p], d.sumA, d.sumB + rating(p))
  }

  /** The greedy loop over `s`, in order. */
  function Deal(s: seq<PlayerId>, rating: PlayerId -> real): Split
    decreases |s|
  {
    if |s| == 0 then Split([], [], 0.0, 0.0)
    else Assign(Deal(s[..|s| - 1], rating), s[|s| - 1], rating)
  }

  lemma DealSnoc(s: seq<PlayerId>, p: PlayerId, rating: PlayerId -> real)
    ensures Deal(s + [p], rating) == Assign(Deal(s, rating), p, rating)
  {
    assert (s + [p])[..|s|] == s;
  }

  /** Every visited player lands in exactly one team. */
  lemma {:induction false} DealPartition(s: seq<PlayerId>, rating: PlayerId -> real)
    ensures multiset(Deal(s, rating).a) + multiset(Deal(s, rating).b) == multiset(s)
    decreases |s|
  {
    if |s| > 0 {
      var n := |s| - 1;
      DealPartition(s[..n], rating);
      assert s == s[..n] + [s[n]];
    }
  }

  /** The running totals are the rating sums of the teams. */
  lemma {:induction false} DealSums(s: seq<PlayerId>, rating: PlayerId -> real)
    ensures SumsMatch(Deal(s, rating), rating)
    decreases |s|
  {
    if |s| > 0 {
      var n := |s| - 1;
      DealSums(s[..n], rating);
      DealStep(Deal(s[..n], rating), s[n], rating);
    }
  }

  predicate SumsMatch(d: Split, rating: PlayerId -> real) {
    d.sumA == SumOf(d.a, rating) && d.sumB == SumOf(d.b, rating)
  }

  /** One step of the greedy loop keeps the totals equal to the sums. */
  lemma DealStep(d: Split, p: PlayerId, rating: PlayerId -> real)
    requires SumsMatch(d, rating)
    ensures d.sumA <= d.sumB ==> SumsMatch(Split(d.a + [p], d.b, d.sumA + rating(p), d.sumB), rating)
    ensures d.sumA > d.sumB ==> SumsMatch(Split(d.a, d.b + [p], d.sumA, d.sumB + rating(p)), rating)
  {
    SumOfSnoc(d.a, p, rating);
    SumOfSnoc(d.b, p, rating);
  }

  lemma SumOfSnoc(ids: seq<PlayerId>, p: PlayerId, rating: PlayerId -> real)
    ensures SumOf(ids + [p], rating) == SumOf(ids, rating) + rating(p)
  {
    assert (ids + [p])[..|ids|] == ids;
  }

  /** With ratings in [0, m], the two totals never drift apart by more than `m`. */
  lemma {:induction false} DealBalanced(s: seq<PlayerId>, rating: PlayerId -> real, m: real)
    requires m >= 0.0
    requires forall p :: p in s ==> 0.0 <= rating(p) <= m
    ensures -m <= Deal(s, rating).sumA - Deal(s, rating).sumB <= m
    decreases |s|
  {
    if |s| > 0 {
      var n := |s| - 1;
      assert forall p :: p in s[..n] ==> p in s;
      assert s[n] in s;
      DealBalanced(s[..n], rating, m);
    }
  }

  /** With at least two players of positive rating, the first goes to A and the second to B, so neither team is empty. */
  lemma {:induction false} DealFillsBothTeams(s: seq<PlayerId>, rating: PlayerId -> real)
    requires |s| >= 2
    requires forall p :: p in s ==> rating(p) > 0.0
    ensures |Deal(s, rating).a| > 0 && |Deal(s, rating).b| > 0
    decreases |s|
  {
    var n := |s| - 1;
    assert forall p :: p in s[..n] ==> p in s;
    if n >= 2 {
      DealFillsBothTeams(s[..n], rating);
    } else {
      assert s[..1][..0] == [];
      assert Deal(s[..1][..0], rating) == Split([], [], 0.0, 0.0);
      assert Deal(s[..1], rating) == Split([s[0]], [], rating(s[0]), 0.0);
      assert s[0] in s;
      assert s[..n] == s[..1];
    }
  }

  /** Each team lists its members in the order they were visited. */
  lemma {:induction false} DealKeepsOrder(s: seq<PlayerId>, rating: PlayerId -> real, before: (PlayerId, PlayerId) -> bool)
    requires SortedBy(s, before)
    ensures SortedBy(Deal(s, rating).a, before) && SortedBy(Deal(s, rating).b, before)
    decreases |s|
  {
    if |s| > 0 {
      var n := |s| - 1;
      var init := s[..n];
      SortedPrefix(s, n, before);
      DealKeepsOrder(init, rating, before);
      DealPartition(init, rating);
      var d := Deal(init, rating);
      AllBeforeLast(s, n, d, before);
      DealStepKeepsOrder(d, s[n], rating, before);
    }
  }

  lemma SortedPrefix(s: seq<PlayerId>, n: nat, before: (PlayerId, PlayerId) -> bool)
    requires SortedBy(s, before) && n <= |s|
    ensures SortedBy(s[..n], before)
  {
    var init := s[..n];
    forall i, j | 0 <= i < j < |init| ensures before(init[i], init[j]) {
      assert init[i] == s[i] && init[j] == s[j];
    }
  }

  /** Every player dealt before the last one of a sorted list may precede it. */
  lemma AllBeforeLast(s: seq<PlayerId>, n: nat, d: Split, before: (PlayerId, PlayerId) -> bool)
    requires SortedBy(s, before) && n < |s|
    requires multiset(d.a) + multiset(d.b) == multiset(s[..n])
    ensures forall x :: x in d.a || x in d.b ==> before(x, s[n])
  {
    forall x | x in d.a || x in d.b ensures before(x, s[n]) {
      assert x in multiset(d.a) + multiset(d.b);
      assert x in s[..n];
      var k :| 0 <= k < n && s[..n][k] == x;
      assert s[k] == x;
    }
  }

  /** One step of the greedy loop keeps both teams in visiting order. */
  lemma DealStepKeepsOrder(d: Split, p: PlayerId, rating: PlayerId -> real, before: (PlayerId, PlayerId) -> bool)
    requires SortedBy(d.a, before) && SortedBy(d.b, before)
    requires forall x :: x in d.a || x in d.b ==> before(x, p)
    ensures SortedBy(Assign(d, p, rating).a, before) && SortedBy(Assign(d, p, rating).b, before)
  {
    SnocKeepsSorted(d.a, p, before);
    SnocKeepsSorted(d.b, p, before);
  }

  lemma SnocKeepsSorted(xs: seq<PlayerId>, p: PlayerId, before: (PlayerId, PlayerId) -> bool)
    requires SortedBy(xs, before)
    requires forall x :: x in xs ==> before(x, p)
    ensures SortedBy(xs + [p], before)
  {
    var ys := xs + [p];
    forall i, j | 0 <= i < j < |ys| ensures before(ys[i], ys[j]) {
      if j < |xs| { assert ys[i] == xs[i] && ys[j] == xs[j]; } else { assert ys[i] in xs; }
    }
  }

  /** `create_balanced_teams` without the inserts: the members of each team and their averages. */
  function GreedyTeams(ids: seq<PlayerId>, t: SeasonTable, season: SeasonId): (r: Result<Balanced, TeamError>)
    ensures r.Err? <==> |ids| < 2
    ensures r.Err? ==> r.error == TooFewPlayers
    ensures r.Ok? ==> multiset(r.value.a) + multiset(r.value.b) == multiset(ids)
    ensures r.Ok? ==> r.value.avgA == Average(SumOf(r.value.a, RatingIn(t, season)), |r.value.a|)
                      && r.value.avgB == Average(SumOf(r.value.b, RatingIn(t, season)), |r.value.b|)
  {
    if |ids| < 2 then Err(TooFewPlayers)
    else
      var rating := RatingIn(t, season);
      ByRatingIsPreorder(rating);
      var sorted := Sort(ids, ByRating(rating));
      var d := Deal(sorted, rating);
      DealSums(sorted, rating);
      DealPartition(sorted, rating);
      assert SumsMatch(d, rating);
      Ok(Balanced(d.a, d.b, Average(d.sumA, |d.a|), Average(d.sumB, |d.b|)))
  }

  /**
   * From a valid season table: both teams are non-empty, each lists its members from the
   * highest rating down, and the two rating totals differ by at most the rating of the
   * top-rated player `top`.
   */
  lemma GreedyTeamsBalanced(ids: seq<PlayerId>, t: SeasonTable, season: SeasonId, top: PlayerId)
    requires SeasonTableValid(t) && |ids| >= 2
    requires top in ids && forall p :: p in ids ==> RatingIn(t, season)(p) <= RatingIn(t, season)(top)
    ensures var r := GreedyTeams(ids, t, season).value;
            var rating := RatingIn(t, season);
            && |r.a| > 0 && |r.b| > 0
            && (forall i, j :: 0 <= i < j < |r.a| ==> rating(r.a[i]) >= rating(r.a[j]))
            && (forall i, j :: 0 <= i < j < |r.b| ==> rating(r.b[i]) >= rating(r.b[j]))
            && -rating(top) <= SumOf(r.a, rating) - SumOf(r.b, rating) <= rating(top)
  {
    var rating := RatingIn(t, season);
    ByRatingIsPreorder(rating);
    var sorted := Sort(ids, ByRating(rating));
    RatingInRange(t, season, top);
    forall p | p in sorted ensures 0.0 < rating(p) <= rating(top) {
      assert p in multiset(sorted);
      assert p in ids;
      RatingInRange(t, season, p);
    }
    DealSums(sorted, rating);
    DealBalanced(sorted, rating, rating(top));
    DealFillsBothTeams(sorted, rating);
    DealKeepsOrder(sorted, rating, ByRating(rating));
  }

  /**
   * Four players rated 4.0, 3.5, 3.0 and 2.0: team A gets 4.0 and 2.0 (total 6.0, average
   * 3.0), team B gets 3.5 and 3.0 (total 6.5, average 3.25).
   */
  lemma GreedyFourPlayers(t: SeasonTable, season: SeasonId, p1: PlayerId, p2: PlayerId, p3: PlayerId, p4: PlayerId)
    requires RatingIn(t, season)(p1) == 4.0 && RatingIn(t, season)(p2) == 3.5
    requires RatingIn(t, season)(p3) == 3.0 && RatingIn(t, season)(p4) == 2.0
    ensures GreedyTeams([p1, p2, p3, p4], t, season) == Ok(Balanced([p1, p4], [p2, p3], 3.0, 3.25))
  {
    var rating := RatingIn(t, season);
    ByRatingIsPreorder(rating);
    FourAlreadyInOrder(ByRating(rating), p1, p2, p3, p4);
    DealFour(rating, p1, p2, p3, p4);
  }

  /** Four players already listed in sorting order are left in place by the sort. */
  lemma FourAlreadyInOrder(before: (PlayerId, PlayerId) -> bool, p1: PlayerId, p2: PlayerId, p3: PlayerId, p4: PlayerId)
    requires TotalPreorder(before)
    requires before(p1, p2) && before(p1, p3) && before(p1, p4)
    requires before(p2, p3) && before(p2, p4) && before(p3, p4)
    ensures Sort([p1, p2, p3, p4], before) == [p1, p2, p3, p4]
  {
    assert [p1][..0] == [];
    assert Sort([p1], before) == [p1];
    assert [p1] + [p2] == [p1, p2];
    SortSnocInOrder([p1], p2, before);
    assert [p1, p2] + [p3] == [p1, p2, p3];
    SortSnocInOrder([p1, p2], p3, before);
    assert [p1, p2, p3] + [p4] == [p1, p2, p3, p4];
    SortSnocInOrder([p1, p2, p3], p4, before);
  }

  /**
   * The greedy loop over ratings 4.0, 3.5, 3.0, 2.0 deals A, B, B, A: a worked case of
   * `DealSums` and `DealBalanced`, used by `GreedyFourPlayers`.
   */
  lemma DealFour(rating: PlayerId -> real, p1: PlayerId, p2: PlayerId, p3: PlayerId, p4: PlayerId)
    requires rating(p1) == 4.0 && rating(p2) == 3.5 && rating(p3) == 3.0 && rating(p4) == 2.0
    ensures Deal([p1, p2, p3, p4], rating) == Split([p1, p4], [p2, p3], 6.0, 6.5)
  {
    DealThree(rating, p1, p2, p3);
    assert [p1, p2, p3] + [p4] == [p1, p2, p3, p4];
    DealSnoc([p1, p2, p3], p4, rating);
  }

  lemma DealThree(rating: PlayerId -> real, p1: PlayerId, p2: PlayerId, p3: PlayerId)
    requires rating(p1) == 4.0 && rating(p2) == 3.5 && rating(p3) == 3.0
    ensures Deal([p1, p2, p3], rating) == Split([p1], [p2, p3], 4.0, 6.5)
  {
    DealTwo(rating, p1, p2);
    assert [p1, p2] + [p3] == [p1, p2, p3];
    DealSnoc([p1, p2], p3, rating);
  }

  lemma DealTwo(rating: PlayerId -> real, p1: PlayerId, p2: PlayerId)
    requires rating(p1) == 4.0 && rating(p2) == 3.5
    ensures Deal([p1, p2], rating) == Split([p1], [p2], 4.0, 3.5)
  {
    assert [p1][..0] == [];
    assert Deal([p1], rating) == Split([p1], [], 4.0, 0.0);
    assert [p1] + [p2] == [p1, p2];
    DealSnoc([p1], p2, rating);
  }

  // ---------------------------------------------------------------- shuffled splits

  /** One attempt of `shuffle_teams`: the first `n // 2` of the order form A, the rest B. */
  function HalfSplit(order: seq<PlayerId>, rating: PlayerId -> real): (r: Balanced)
    requires |order| >= 2
    ensures r.a + r.b == order
    ensures |r.a| == |order| / 2 && |r.b| == |order| - |order| / 2
    ensures |r.a| > 0 && |r.b| > 0
    ensures r.avgA * |r.a| as real == SumOf(r.a, rating) && r.avgB * |r.b| as real == SumOf(r.b, rating)
  {
    var mid := |order| / 2;
    var a, b := order[..mid], order[mid..];
    assert a + b == order;
    Balanced(a, b, Mean(SumOf(a, rating), |a|), Mean(SumOf(b, rating), |b|))
  }

  function Abs(x: real): (r: real)
    ensures r >= 0.0 && (r == x || r == -x)
  {
    if x < 0.0 then -x else x
  }

  /** `abs(team_a_avg - team_b_avg)`. */
  function Gap(s: Balanced): real {
    Abs(s.avgA - s.avgB)
  }

  /**
   * The selection loop of `shuffle_teams`: a split replaces the best so far only when its
   * gap is strictly smaller, so the first of the smallest gaps is kept.
   */
  method SelectBest(splits: seq<Balanced>) returns (best: nat)
    requires |splits| > 0
    ensures best < |splits|
    ensures forall j :: 0 <= j < |splits| ==> Gap(splits[best]) <= Gap(splits[j])
    ensures forall j :: 0 <= j < best ==> Gap(splits[j]) > Gap(splits[best])
  {
    best := 0;
    var i := 1;
    while i < |splits|
      invariant 1 <= i <= |splits| && best < i
      invariant forall j :: 0 <= j < i ==> Gap(splits[best]) <= Gap(splits[j])
      invariant forall j :: 0 <= j < best ==> Gap(splits[j]) > Gap(splits[best])
    {
      if Gap(splits[i]) < Gap(splits[best]) {
        best := i;
      }
      i := i + 1;
    }
  }

  /** The split of every attempted order. */
  function Attempts(orders: seq<seq<PlayerId>>, rating: PlayerId -> real): (r: seq<Balanced>)
    requires forall k :: 0 <= k < |orders| ==> |orders[k]| >= 2
    ensures |r| == |orders|
    ensures forall k :: 0 <= k < |orders| ==> r[k] == HalfSplit(orders[k], rating)
  {
    seq(|orders|, k requires 0 <= k < |orders| => HalfSplit(orders[k], rating))
  }

  /**
   * `shuffle_teams` without the inserts, given the orders the shuffles produced (each a
   * permutation of the requested ids). With no attempt at all the unpacking of the
   * missing best split fails.
   */
  method ShuffleTeams(ids: seq<PlayerId>, orders: seq<seq<PlayerId>>, t: SeasonTable, season: SeasonId)
    returns (r: Result<Balanced, TeamError>)
    requires forall k :: 0 <= k < |orders| ==> multiset(orders[k]) == multiset(ids) && |orders[k]| == |ids|
    ensures |ids| < 2 ==> r == Err(TooFewPlayers)
    ensures |ids| >= 2 && |orders| == 0 ==> r == Err(NoAttempts)
    ensures |ids| >= 2 && |orders| > 0 ==> r.Ok?
    ensures r.Ok? ==> multiset(r.value.a) + multiset(r.value.b) == multiset(ids)
    ensures r.Ok? ==> |r.value.a| == |ids| / 2 && |r.value.b| == |ids| - |ids| / 2
    ensures r.Ok? ==> |ids| >= 2
    ensures r.Ok? && |ids| >= 2 ==>
              var splits := Attempts(orders, RatingIn(t, season));
              exists k :: 0 <= k < |splits| && r.value == splits[k]
                && (forall j :: 0 <= j < |splits| ==> Gap(r.value) <= Gap(splits[j]))
                && (forall j :: 0 <= j < k ==> Gap(splits[j]) > Gap(r.value))
  {
    if |ids| < 2 {
      return Err(TooFewPlayers);
    }
    if |orders| == 0 {
      return Err(NoAttempts);
    }
    var splits := Attempts(orders, RatingIn(t, season));
    var best := SelectBest(splits);
    var chosen := splits[best];
    assert chosen.a + chosen.b == orders[best];
    assert multiset(chosen.a + chosen.b) == multiset(ids);
    r := Ok(chosen);
  }

  // ---------------------------------------------------------------- stored teams

  /** `get_team_rating_difference`: the gap between the stored averages, a missing one counting as 0. */
  function RatingDifference(a: Team, b: Team): (d: real)
    ensures d >= 0.0
    ensures d == 0.0 <==> a.averageSkillRating.GetOr(0.0) == b.averageSkillRating.GetOr(0.0)
  {
    Abs(a.averageSkillRating.GetOr(0.0) - b.averageSkillRating.GetOr(0.0))
  }

  lemma RatingDifferenceSymmetric(a: Team, b: Team)
    ensures RatingDifference(a, b) == RatingDifference(b, a)
  {
  }

  /** The membership rows the balancers insert for team `id`. */
  function MemberRows(id: TeamId, members: seq<PlayerId>): (rows: seq<TeamPlayer>)
    ensures |rows| == |members|
    ensures forall i :: 0 <= i < |members| ==> rows[i] == TeamPlayer(id, members[i])
  {
    seq(|members|, i requires 0 <= i < |members| => TeamPlayer(id, members[i]))
  }

  /** The rows both balancers insert: team A's members, then team B's. */
  function CreateTeamRows(ta: TeamId, tb: TeamId, s: Balanced): seq<TeamPlayer> {
    MemberRows(ta, s.a) + MemberRows(tb, s.b)
  }

  /** Reading the rosters back from the inserted rows gives each team's members, in order. */
  lemma {:induction false} CreatedRostersReadBack(ta: TeamId, tb: TeamId, s: Balanced)
    requires ta != tb
    ensures Roster(CreateTeamRows(ta, tb, s), ta) == s.a
    ensures Roster(CreateTeamRows(ta, tb, s), tb) == s.b
  {
    RosterAppend(MemberRows(ta, s.a), MemberRows(tb, s.b), ta);
    RosterAppend(MemberRows(ta, s.a), MemberRows(tb, s.b), tb);
    RosterOfMembers(ta, s.a, ta);
    RosterOfMembers(ta, s.a, tb);
    RosterOfMembers(tb, s.b, ta);
    RosterOfMembers(tb, s.b, tb);
  }

  lemma {:induction false} RosterOfMembers(id: TeamId, members: seq<PlayerId>, team: TeamId)
    ensures Roster(MemberRows(id, members), team) == if id == team then members else []
    decreases |members|
  {
    if |members| > 0 {
      var n := |members| - 1;
      var rows := MemberRows(id, members);
      RosterOfMembers(id, members[..n], team);
      assert rows[..n] == MemberRows(id, members[..n]);
      assert rows[n] == TeamPlayer(id, members[n]);
      assert members == members[..n] + [members[n]];
    }
  }

  lemma {:induction false} RosterAppend(x: seq<TeamPlayer>, y: seq<TeamPlayer>, team: TeamId)
    ensures Roster(x + y, team) == Roster(x, team) + Roster(y, team)
    decreases |y|
  {
    if |y| == 0 {
      assert x + y == x;
    } else {
      var n := |y| - 1;
      assert (x + y)[..|x + y| - 1] == x + y[..n];
      RosterAppend(x, y[..n], team);
    }
  }
}
