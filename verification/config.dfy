/** League policy constants: `RatingConfig` and `PointsConfig` of backend/app/constants.py. */
module Config {

  // Rating scale
  const INITIAL_RATING: real := 3.0
  const MIN_RATING: real := 1.0
  const MAX_RATING: real := 5.0

  // ELO parameters
  const ELO_K_FACTOR: real := 0.5
  const RATING_SCALING_FACTOR: real := 2.0

  // Bonuses and penalties
  const ATTENDANCE_BONUS: real := 0.1
  const THIRD_TIME_BONUS: real := 0.05
  const NON_ATTENDANCE_PENALTY: real := -0.2

  // Warm-up threshold and window
  const MIN_MATCHES_FOR_RATING: int := 3
  const RATING_WINDOW_SIZE: int := 3

  // Leaderboard points
  const POINTS_MATCH_ATTENDANCE: int := 1
  const POINTS_WIN: int := 3
  const POINTS_DRAW: int := 1
  const POINTS_LOSS: int := 0
  const POINTS_THIRD_TIME: int := 1

  /** Number of earlier deltas that the rolling rebase re-sums. */
  function PriorWindow(): (k: nat)
    ensures k == 2
    ensures k + 1 == RATING_WINDOW_SIZE
  {
    RATING_WINDOW_SIZE - 1
  }

  /**
   * The policy constants are mutually consistent. A check on the literals; the general
   * bounds that rest on them are `RatingService.RatingChange` and `RatingService.Clamp`.
   */
  lemma PolicyConsistent()
    ensures MIN_RATING <= INITIAL_RATING <= MAX_RATING
    ensures ELO_K_FACTOR == 0.5 && RATING_SCALING_FACTOR > 0.0
    ensures ATTENDANCE_BONUS > 0.0 && THIRD_TIME_BONUS > 0.0 && NON_ATTENDANCE_PENALTY < 0.0
    ensures MIN_MATCHES_FOR_RATING == 3 && RATING_WINDOW_SIZE == 3
    ensures POINTS_MATCH_ATTENDANCE >= 0 && POINTS_WIN >= 0 && POINTS_DRAW >= 0
    ensures POINTS_LOSS >= 0 && POINTS_THIRD_TIME >= 0
    ensures POINTS_WIN > POINTS_DRAW > POINTS_LOSS
  {
  }
}
