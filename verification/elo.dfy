/**
 * The ELO term of the rating engine. The power `10^x` is not computed: it is a
 * parameter `pow10` constrained by `Pow10Law`, and the expected score is then
 * `1 / (1 + pow10((opponent - team) / RATING_SCALING_FACTOR))` as in the engine.
 */
module Elo {
  import opened Config
  import opened Entities

  ghost predicate Positive(pow10: real -> real) {
    forall x :: pow10(x) > 0.0
  }

  ghost predicate Reciprocal(pow10: real -> real) {
    forall x, y :: x + y == 0.0 ==> pow10(x) * pow10(y) == 1.0
  }

  ghost predicate Increasing(pow10: real -> real) {
    forall x, y :: x < y ==> pow10(x) < pow10(y)
  }

  /** What the engine relies on about `10^x`: positive, 1 at 0, `10^-x = 1/10^x`, increasing. */
  ghost predicate Pow10Law(pow10: real -> real) {
    Positive(pow10) && pow10(0.0) == 1.0 && Reciprocal(pow10) && Increasing(pow10)
  }

  /** A stand-in for `10^x` with the same shape, showing that `Pow10Law` can be met. */
  function Pow10Stand(x: real): real {
    if x >= 0.0 then 1.0 + x else 1.0 / (1.0 - x)
  }

  lemma InverseAntitone(a: real, b: real)
    requires 0.0 < a < b
    ensures 1.0 / b < 1.0 / a
  {
    var ia := 1.0 / a;
    var ib := 1.0 / b;
    assert ia * a == 1.0 && ib * b == 1.0;
    assert ib > 0.0;
    assert ib * a < ib * b;
  }

  lemma InverseBelowOne(d: real)
    requires d > 1.0
    ensures 1.0 / d < 1.0
  {
    InverseAntitone(1.0, d);
  }

  lemma Pow10StandPositive(x: real)
    ensures Pow10Stand(x) > 0.0
  {
  }

  lemma Pow10StandInverse(x: real, y: real)
    requires x + y == 0.0
    ensures Pow10Stand(x) * Pow10Stand(y) == 1.0
  {
    if x >= 0.0 && y >= 0.0 {
      assert x == 0.0 && y == 0.0;
    } else if x >= 0.0 {
      assert 1.0 - y == 1.0 + x;
      assert Pow10Stand(y) == 1.0 / (1.0 + x);
    } else {
      assert 1.0 - x == 1.0 + y;
      assert Pow10Stand(x) == 1.0 / (1.0 + y);
    }
  }

  lemma Pow10StandIncreasing(x: real, y: real)
    requires x < y
    ensures Pow10Stand(x) < Pow10Stand(y)
  {
    if x >= 0.0 {
    } else if y >= 0.0 {
      InverseBelowOne(1.0 - x);
    } else {
      InverseAntitone(1.0 - y, 1.0 - x);
    }
  }

  lemma Pow10StandReciprocal()
    ensures Reciprocal(Pow10Stand)
  {
    forall x: real, y: real | x + y == 0.0 ensures Pow10Stand(x) * Pow10Stand(y) == 1.0 {
      Pow10StandInverse(x, y);
    }
  }

  lemma Pow10StandIncreases()
    ensures Increasing(Pow10Stand)
  {
    forall x: real, y: real | x < y ensures Pow10Stand(x) < Pow10Stand(y) {
      Pow10StandIncreasing(x, y);
    }
  }

  lemma Pow10LawSatisfiable()
    ensures Pow10Law(Pow10Stand)
  {
    Pow10StandReciprocal();
    Pow10StandIncreases();
  }

  /** Expected score of a team against an opponent (engine lines 287-290). */
  function Expected(team: real, opponent: real, pow10: real -> real): (e: real)
    requires Pow10Law(pow10)
    ensures 0.0 < e < 1.0
  {
    var p := pow10((opponent - team) / RATING_SCALING_FACTOR);
    assert p > 0.0;
    1.0 / (1.0 + p)
  }

  /** Actual score: 1 for a win, 0.5 for a draw, 0 for anything else. */
  function ActualScore(o: Outcome): (a: real)
    ensures a == 1.0 <==> o == Win
    ensures a == 0.5 <==> o == Draw
    ensures a == 0.0 <==> o != Win && o != Draw
  {
    match o
    case Win => 1.0
    case Draw => 0.5
    case _ => 0.0
  }

  /** `ELO_K_FACTOR * (actual - expected)`. */
  function EloDelta(o: Outcome, team: real, opponent: real, pow10: real -> real): (d: real)
    requires Pow10Law(pow10)
    ensures -ELO_K_FACTOR < d < ELO_K_FACTOR
    ensures o == Win ==> d > 0.0
    ensures o != Win && o != Draw ==> d < 0.0
  {
    ELO_K_FACTOR * (ActualScore(o) - Expected(team, opponent, pow10))
  }

  /** Equal strengths give an expected score of one half. */
  lemma ExpectedEven(x: real, pow10: real -> real)
    requires Pow10Law(pow10)
    ensures Expected(x, x, pow10) == 0.5
  {
    assert (x - x) / RATING_SCALING_FACTOR == 0.0;
  }

  /** The two sides' expected scores add up to one. */
  lemma ExpectedComplement(a: real, b: real, pow10: real -> real)
    requires Pow10Law(pow10)
    ensures Expected(a, b, pow10) + Expected(b, a, pow10) == 1.0
  {
    var x := (b - a) / RATING_SCALING_FACTOR;
    var y := (a - b) / RATING_SCALING_FACTOR;
    assert x + y == 0.0;
    var p := pow10(x);
    var q := pow10(y);
    assert p * q == 1.0;
    assert p > 0.0 && q > 0.0;
    calc {
      1.0 / (1.0 + p) + 1.0 / (1.0 + q);
      == { assert 1.0 / (1.0 + q) == p / (p + 1.0) by {
             assert (1.0 + q) * p == p + 1.0;
           } }
      1.0 / (1.0 + p) + p / (p + 1.0);
      ==
      1.0;
    }
  }

  /** A stronger team expects more. */
  lemma ExpectedMonotone(a: real, a': real, b: real, pow10: real -> real)
    requires Pow10Law(pow10)
    requires a < a'
    ensures Expected(a, b, pow10) < Expected(a', b, pow10)
  {
    var x := (b - a) / RATING_SCALING_FACTOR;
    var x' := (b - a') / RATING_SCALING_FACTOR;
    assert x' < x;
    assert pow10(x') < pow10(x);
    assert pow10(x') > 0.0;
    InverseAntitone(1.0 + pow10(x'), 1.0 + pow10(x));
  }

  /** In a decided match the ELO terms of the two sides cancel out. */
  lemma EloZeroSum(a: real, b: real, pow10: real -> real)
    requires Pow10Law(pow10)
    ensures EloDelta(Win, a, b, pow10) + EloDelta(Loss, b, a, pow10) == 0.0
    ensures EloDelta(Draw, a, b, pow10) + EloDelta(Draw, b, a, pow10) == 0.0
  {
    ExpectedComplement(a, b, pow10);
  }

  /** A win between equal teams is worth K/2: a worked case of `ExpectedEven` and `EloDelta`. */
  lemma EvenWinIsQuarter(x: real, pow10: real -> real)
    requires Pow10Law(pow10)
    ensures EloDelta(Win, x, x, pow10) == 0.25
    ensures EloDelta(Draw, x, x, pow10) == 0.0
    ensures EloDelta(Loss, x, x, pow10) == -0.25
  {
    ExpectedEven(x, pow10);
  }
}
