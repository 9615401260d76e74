/**
 * The read queries of `RatingRepository` over the match-rating table, as pure
 * filter / sort / slice operations on a sequence of rows. Rows that tie on the
 * sort column keep table order (the database leaves that order unspecified).
 */
module RatingRepository {
  import opened Entities
  import opened Sorting

  predicate BelongsTo(r: MatchRating, p: PlayerId, s: SeasonId) {
    r.playerId == p && r.seasonId == s
  }

  function InPlayerSeason(p: PlayerId, s: SeasonId): MatchRating -> bool {
    (x: MatchRating) => BelongsTo(x, p, s)
  }

  /** `WHERE player_id = p AND season_id = s`, in table order. */
  function PlayerSeasonRecords(records: seq<MatchRating>, p: PlayerId, s: SeasonId): (r: seq<MatchRating>)
    ensures forall x :: x in r <==> x in records && BelongsTo(x, p, s)
    ensures multiset(r) <= multiset(records)
    ensures |r| == CountIf(records, InPlayerSeason(p, s))
  {
    FilterBy(records, InPlayerSeason(p, s))
  }

  /** Order for `ORDER BY match_date DESC`. */
  predicate LaterOrSame(a: MatchRating, b: MatchRating) {
    a.matchDate >= b.matchDate
  }

  /** Order for `ORDER BY match_date ASC`. */
  predicate EarlierOrSame(a: MatchRating, b: MatchRating) {
    a.matchDate <= b.matchDate
  }

  lemma DateOrdersArePreorders()
    ensures TotalPreorder(LaterOrSame)
    ensures TotalPreorder(EarlierOrSame)
  {
  }

  /** The player's season rows, newest first. */
  function NewestFirst(records: seq<MatchRating>, p: PlayerId, s: SeasonId): (r: seq<MatchRating>)
    ensures multiset(r) == multiset(PlayerSeasonRecords(records, p, s))
    ensures SortedBy(r, LaterOrSame)
  {
    DateOrdersArePreorders();
    Sort(PlayerSeasonRecords(records, p, s), LaterOrSame)
  }

  /**
   * `get_last_n_ratings`: the `n` newest rows of the player in the season,
   * returned oldest first.
   */
  function GetLastNRatings(records: seq<MatchRating>, p: PlayerId, s: SeasonId, n: nat): (r: seq<MatchRating>)
    ensures |r| <= n
    ensures |r| == if n < |PlayerSeasonRecords(records, p, s)| then n else |PlayerSeasonRecords(records, p, s)|
    ensures forall x :: x in r ==> x in records && BelongsTo(x, p, s)
    ensures forall i, j :: 0 <= i < j < |r| ==> r[i].matchDate <= r[j].matchDate
  {
    var newest := NewestFirst(records, p, s);
    ReversedTopFacts(newest, n, LaterOrSame);
    assert forall x :: x in newest ==> x in multiset(PlayerSeasonRecords(records, p, s));
    Reverse(Take(newest, n))
  }

  /**
   * The rows `get_last_n_ratings` leaves out are never newer than the rows it returns:
   * it returns the `n` latest by `match_date`, and nothing else.
   */
  lemma {:induction false} LastNAreLatest(records: seq<MatchRating>, p: PlayerId, s: SeasonId, n: nat)
    ensures var r := GetLastNRatings(records, p, s, n);
            && multiset(r) <= multiset(PlayerSeasonRecords(records, p, s))
            && forall x, y :: x in multiset(PlayerSeasonRecords(records, p, s)) - multiset(r) && y in r ==>
                 x.matchDate <= y.matchDate
  {
    var newest := NewestFirst(records, p, s);
    var r := GetLastNRatings(records, p, s, n);
    ReversedTopFacts(newest, n, LaterOrSame);
    var rest := Drop(newest, n);
    assert multiset(PlayerSeasonRecords(records, p, s)) - multiset(r) == multiset(rest);
    forall x: MatchRating, y: MatchRating | x in multiset(rest) && y in r ensures x.matchDate <= y.matchDate {
      assert x in rest;
      assert LaterOrSame(y, x);
    }
  }

  /** `get_season_match_count`: the number of the player's rows in the season. */
  function GetSeasonMatchCount(records: seq<MatchRating>, p: PlayerId, s: SeasonId): (c: nat)
    ensures c == |set i | 0 <= i < |records| && BelongsTo(records[i], p, s)|
  {
    var belongs := InPlayerSeason(p, s);
    CountIfIsCardinality(records, belongs);
    assert Positions(records, belongs) == set i | 0 <= i < |records| && BelongsTo(records[i], p, s);
    |PlayerSeasonRecords(records, p, s)|
  }

  /** `get_player_season_ratings`: the player's season rows by ascending date, after `skip`, at most `limit`. */
  function GetPlayerSeasonRatings(records: seq<MatchRating>, p: PlayerId, s: SeasonId, skip: nat, limit: nat)
    : (r: seq<MatchRating>)
    ensures |r| <= limit
    ensures var total := |PlayerSeasonRecords(records, p, s)|;
            |r| == if total <= skip then 0 else if total - skip < limit then total - skip else limit
    ensures forall x :: x in r ==> x in records && BelongsTo(x, p, s)
    ensures forall i, j :: 0 <= i < j < |r| ==> r[i].matchDate <= r[j].matchDate
  {
    DateOrdersArePreorders();
    var ordered := Sort(PlayerSeasonRecords(records, p, s), EarlierOrSame);
    WindowFacts(ordered, skip, limit, EarlierOrSame);
    assert forall x :: x in ordered ==> x in multiset(PlayerSeasonRecords(records, p, s));
    Take(Drop(ordered, skip), limit)
  }
}
