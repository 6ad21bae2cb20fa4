/** Combo scoring (aim_trainer.py, get_combo_threshold, get_combo_bonus,
    calculate_current_ball_score): the value of a hit as a function of the
    number of live targets and the current streak. `n` is the configured
    number of simultaneous targets and `base` the value of a plain hit. */
module Scoring {
  import opened Util

  /** Every `Threshold` consecutive hits the value rises by one bonus tier. */
  function Threshold(n: int, live: int): (t: int)
    ensures t >= 2
  {
    Max(2, 2 * n - live + 1)
  }

  /** Python `int(2 * (1.0 + (n - live) * 0.1))` with 0.1 read as the exact
      fraction: 2 * (1 + k/10) == (10 + k) / 5, truncated toward zero. */
  function Bonus(n: int, live: int): (b: int)
    ensures 0 <= 10 + n - live ==> 5 * b <= 10 + n - live < 5 * b + 5
    ensures 10 + n - live < 0 ==> 5 * b - 5 < 10 + n - live <= 5 * b
  {
    TruncDiv(10 + n - live, 5)
  }

  /** Value of the next hit, with `combo` hits in the current streak. */
  function BallValue(n: int, base: int, live: int, combo: nat): (v: int)
    ensures combo < Threshold(n, live) ==> v == base
    ensures combo == Threshold(n, live) ==> v == base + Bonus(n, live)
  {
    var tiers := combo / Threshold(n, live);
    assert combo < Threshold(n, live) ==> tiers == 0;
    assert combo == Threshold(n, live) ==> tiers == 1;
    base + tiers * Bonus(n, live)
  }

  /** More live targets never raise the threshold. */
  lemma ThresholdNonIncreasing(n: int, fewer: int, more: int)
    requires fewer <= more
    ensures Threshold(n, more) <= Threshold(n, fewer)
    ensures Threshold(n, more) == 2 || Threshold(n, more) == Threshold(n, fewer) - (more - fewer)
  {
  }

  /** More live targets never raise the bonus, whatever the sign of n - live. */
  lemma {:induction false} BonusNonIncreasing(n: int, fewer: int, more: int)
    requires fewer <= more
    ensures Bonus(n, more) <= Bonus(n, fewer)
  {
    var a, b := 10 + n - more, 10 + n - fewer;
    assert a <= b;
    if 0 <= a {
      DivMonotone(a, b, 5);
    } else if b < 0 {
      DivMonotone(-b, -a, 5);
    } else {
      assert -((-a) / 5) <= 0 <= b / 5;
    }
  }

  /** While no more than `n` targets are live the bonus is at least 2;
      with three targets (the shipped setting) it is exactly 2. */
  lemma BonusWhileLiveAtMostN(n: int, live: int)
    requires 0 <= live <= n
    ensures Bonus(n, live) >= 2
    ensures n == 3 ==> Bonus(n, live) == 2
  {
  }

  /** A hit is worth at least the base value while no more than `n` targets are live. */
  lemma {:induction false} BallValueAtLeastBase(n: int, base: int, live: int, combo: nat)
    requires live <= n
    ensures BallValue(n, base, live, combo) >= base
  {
    var t := Threshold(n, live);
    assert combo / t >= 0;
    assert Bonus(n, live) >= 2;
    assert (combo / t) * Bonus(n, live) >= 0;
  }

  /** For a fixed live count, a longer streak is never worth less. */
  lemma {:induction false} BallValueMonotoneInCombo(n: int, base: int, live: int, shorter: nat, longer: nat)
    requires live <= n && shorter <= longer
    ensures BallValue(n, base, live, shorter) <= BallValue(n, base, live, longer)
  {
    var t := Threshold(n, live);
    var bonus := Bonus(n, live);
    DivMonotone(shorter, longer, t);
    assert bonus >= 0;
    assert (longer / t - shorter / t) * bonus >= 0;
  }

  /** Every further `Threshold` hits in a streak add exactly one bonus. */
  lemma {:induction false} BallValueNextTier(n: int, base: int, live: int, combo: nat)
    ensures var t := Threshold(n, live);
      BallValue(n, base, live, combo + t) == BallValue(n, base, live, combo) + Bonus(n, live)
  {
    var t := Threshold(n, live);
    var q, r := combo / t, combo % t;
    assert combo == q * t + r && 0 <= r < t;
    assert combo + t == (q + 1) * t + r;
    DivUnique(combo + t, t, q + 1, r);
  }

  /** The figures for three targets and base value 100 as a hit on a full
      board computes them: the target is removed first, so two are live.
      The threshold is then 5, not 4, and the first bonus comes with the
      sixth hit of a streak (combo 5), not the fifth. */
  lemma ShippedExamples()
    ensures Threshold(3, 2) == 5 && Bonus(3, 2) == 2
    ensures BallValue(3, 100, 2, 0) == 100
    ensures BallValue(3, 100, 2, 4) == 100
    ensures BallValue(3, 100, 2, 5) == 102
    ensures Threshold(3, 3) == 4 && BallValue(3, 100, 3, 4) == 102
  {
  }

  lemma DivMonotone(a: int, b: int, d: int)
    requires 0 <= a <= b && 0 < d
    ensures a / d <= b / d
  {
    assert (a / d) * d <= a && b < (b / d + 1) * d;
    MulCancel(a / d, b / d + 1, d);
  }

  lemma DivUnique(a: int, d: int, q: int, r: int)
    requires 0 < d && a == q * d + r && 0 <= r < d
    ensures a / d == q
  {
    assert a == (a / d) * d + a % d && 0 <= a % d < d;
    assert q * d <= a < (a / d + 1) * d;
    MulCancel(q, a / d + 1, d);
    assert (a / d) * d <= a < (q + 1) * d;
    MulCancel(a / d, q + 1, d);
  }

  lemma MulCancel(x: int, y: int, d: int)
    requires 0 < d && x * d < y * d
    ensures x < y
  {
    assert (y - x) * d == y * d - x * d;
  }
}
