/**
 * The Elo arithmetic inside `EloBot.confirm` (elobot.py): the expected
 * scores of the two players, the tiered step, and Python 2's `round`.
 *
 * The code computes each player's transformed rating `10**(rating/400.0)` in
 * floating point. Here that transform is a parameter `t`, any function that
 * is positive everywhere; the expected scores are then formed from it exactly
 * as the code forms them, over the reals.
 */
module Rating {
  import Models

  /** The transform is non-decreasing, as `10**(r/400.0)` is. */
  ghost predicate MonotoneTransform(t: int -> real)
  {
    forall a, b :: a <= b ==> t(a) <= t(b)
  }

  /** Python 2's `round` to an integer: to the nearest integer, halves away from zero. */
  function Round(x: real): (r: int)
    ensures x - 0.5 <= r as real <= x + 0.5
    ensures r as real == x + 0.5 ==> x > 0.0
    ensures r as real == x - 0.5 ==> x < 0.0
  {
    if x >= 0.0 then (x + 0.5).Floor else -((-x + 0.5).Floor)
  }

  /** Rounding never moves past an integer bound of its argument. */
  lemma RoundWithin(x: real, lo: int, hi: int)
    requires lo as real <= x <= hi as real
    ensures lo <= Round(x) <= hi
  {
    if x >= 0.0 {
      assert (lo as real + 0.5).Floor == lo;
      assert (hi as real + 0.5).Floor == hi;
    } else {
      assert (-(hi as real) + 0.5).Floor == -hi;
      assert (-(lo as real) + 0.5).Floor == -lo;
    }
  }

  /**
   * A player's expected score against an opponent:
   * own transform over the sum of both transforms.
   */
  function Expected(t: int -> real, own: int, other: int): (e: real)
    requires forall r :: t(r) > 0.0
    ensures 0.0 < e < 1.0
  {
    assert t(own) > 0.0 && t(other) > 0.0;
    t(own) / (t(own) + t(other))
  }

  /** The two expected scores of a game add up to one. */
  lemma ExpectedSum(t: int -> real, a: int, b: int)
    requires forall r :: t(r) > 0.0
    ensures Expected(t, a, b) + Expected(t, b, a) == 1.0
  {
    var ta, tb := t(a), t(b);
    assert ta > 0.0 && tb > 0.0;
    calc {
      Expected(t, a, b) + Expected(t, b, a);
      ta / (ta + tb) + tb / (tb + ta);
      (ta + tb) / (ta + tb);
      1.0;
    }
  }

  /** Equally rated players both expect exactly one half. */
  lemma ExpectedEven(t: int -> real, r: int)
    requires forall r :: t(r) > 0.0
    ensures Expected(t, r, r) == 0.5
  {
    var x := t(r);
    assert x > 0.0;
    assert x / (x + x) == 0.5;
  }

  /** With a non-decreasing transform the higher-rated player expects at least one half. */
  lemma ExpectedFavourite(t: int -> real, own: int, other: int)
    requires forall r :: t(r) > 0.0
    requires MonotoneTransform(t)
    requires other <= own
    ensures Expected(t, own, other) >= 0.5
  {
    var a, b := t(own), t(other);
    assert a > 0.0 && b > 0.0 && b <= a;
    assert a / (a + b) >= 0.5 by {
      assert a + a >= a + b;
      assert a * 2.0 >= a + b;
    }
  }

  /** The winner's new rating: `round(Rw + K(Rw) * (1 - E_w))`. */
  function WinnerRating(t: int -> real, winner: int, loser: int): (r: int)
    requires forall r :: t(r) > 0.0
    ensures winner <= r <= winner + Models.KFactor(winner as real)
  {
    var k := Models.KFactor(winner as real);
    var x := winner as real + k as real * (1.0 - Expected(t, winner, loser));
    RoundWithin(x, winner, winner + k);
    Round(x)
  }

  /** The loser's new rating: `round(Rl + K(Rl) * (0 - E_l))`. */
  function LoserRating(t: int -> real, winner: int, loser: int): (r: int)
    requires forall r :: t(r) > 0.0
    ensures loser - Models.KFactor(loser as real) <= r <= loser
  {
    var k := Models.KFactor(loser as real);
    var x := loser as real + k as real * (0.0 - Expected(t, loser, winner));
    RoundWithin(x, loser - k, loser);
    Round(x)
  }

  /** Two new players (1500 each, step 32) move to 1516 and 1484, whatever the transform. */
  lemma {:induction false} FreshPlayersGame(t: int -> real)
    requires forall r :: t(r) > 0.0
    ensures WinnerRating(t, 1500, 1500) == 1516
    ensures LoserRating(t, 1500, 1500) == 1484
  {
    ExpectedEven(t, 1500);
    assert Models.KFactor(1500.0) == 32;
    assert Round(1516.0) == 1516;
    assert Round(1484.0) == 1484;
  }

  /**
   * With a non-decreasing transform a winner who was not the lower-rated
   * player gains at most half a step, rounded.
   */
  lemma FavouriteGainsAtMostHalf(t: int -> real, winner: int, loser: int)
    requires forall r :: t(r) > 0.0
    requires MonotoneTransform(t)
    requires loser <= winner
    ensures 2 * (WinnerRating(t, winner, loser) - winner) <= Models.KFactor(winner as real) + 1
  {
    ExpectedFavourite(t, winner, loser);
    var k := Models.KFactor(winner as real);
    var x := winner as real + k as real * (1.0 - Expected(t, winner, loser));
    assert x <= winner as real + k as real * 0.5;
  }

  /**
   * The mirror for the loser: a loser who was not the higher-rated player
   * loses at most half its step. This fixes which way round the loser's
   * expected score is taken.
   */
  lemma UnderdogLosesAtMostHalf(t: int -> real, winner: int, loser: int)
    requires forall r :: t(r) > 0.0
    requires MonotoneTransform(t)
    requires loser <= winner
    ensures 2 * (loser - LoserRating(t, winner, loser)) <= Models.KFactor(loser as real)
  {
    ExpectedFavourite(t, winner, loser);
    ExpectedSum(t, winner, loser);
    var k := Models.KFactor(loser as real);
    var x := loser as real + k as real * (0.0 - Expected(t, loser, winner));
    assert x >= loser as real - k as real * 0.5;
    RoundWithin(x, loser - k / 2, loser);
  }
}
