/** The membrane-resistance adaptation of APqr7, APqr8 and APqr13.

    Once the residual of the tick is above the noise threshold, the residual of the previous
    tick is compared with it through their quotient.  Opposite signs mean the correction
    overshot: `Rm` is multiplied by `Rm_corr_up`, so less current is applied.  The same sign
    with a growing magnitude means the correction is too weak: `Rm` is divided by
    `Rm_corr_down`.  APqr8 and APqr13 only take the second step while
    `Rm >= 0.01 * Rm_corr_down`; APqr7 has no such floor. */
module Adaptation {
  import opened Common

  /** `Rm_corr_up`, `Rm_corr_down` and `noise_tresh`. */
  datatype AdaptConfig = AdaptConfig(up: real, down: real, noise: real)
  {
    predicate Valid()
    {
      up > 0.0 && down > 0.0 && noise >= 0.0
    }
  }

  /** The gate shared by every variant: `abs(residual) > noise_tresh`.  With a
      non-negative threshold it also keeps the quotient below defined. */
  predicate AboveNoise(c: AdaptConfig, cur: real)
  {
    Abs(cur) > c.noise
  }

  /** The two `if`s of the adaptation, in source order: the second test sees the
      resistance the first one left. */
  function Adapt(rm: real, prev: real, cur: real, c: AdaptConfig, floored: bool): (r: real)
    requires c.Valid() && AboveNoise(c, cur)
    ensures r == rm || r == rm * c.up || r == rm / c.down
    ensures rm > 0.0 ==> r > 0.0
  {
    var rm1 := if prev / cur < 0.0 then rm * c.up else rm;
    if Abs(prev) < Abs(cur) && prev / cur > 0.0 && (!floored || rm1 >= 0.01 * c.down) then
      rm1 / c.down
    else
      rm1
  }

  /** Previous and current residual have opposite signs: the correction overshot. */
  predicate Overshoot(prev: real, cur: real)
  {
    prev * cur < 0.0
  }

  /** Same sign and growing magnitude: the correction falls behind. */
  predicate Growing(prev: real, cur: real)
  {
    prev * cur > 0.0 && Abs(prev) < Abs(cur)
  }

  /** The sign of a quotient is the sign of the product. */
  lemma QuotientSign(prev: real, cur: real)
    requires cur != 0.0
    ensures prev / cur < 0.0 <==> prev * cur < 0.0
    ensures prev / cur > 0.0 <==> prev * cur > 0.0
  {
    var q := prev / cur;
    assert prev == q * cur;
    assert prev * cur == q * (cur * cur);
    assert cur * cur > 0.0;
  }

  /** What the adaptation does, stated without the quotient: an overshoot scales `Rm` up;
      a growing residual scales it down unless the floor forbids; nothing else changes it,
      in particular not a zero previous residual.  The two cases never meet, so at most
      one change happens per tick. */
  lemma AdaptCases(rm: real, prev: real, cur: real, c: AdaptConfig, floored: bool)
    requires c.Valid() && AboveNoise(c, cur)
    ensures !(Overshoot(prev, cur) && Growing(prev, cur))
    ensures Overshoot(prev, cur) ==> Adapt(rm, prev, cur, c, floored) == rm * c.up
    ensures Growing(prev, cur) && (!floored || rm >= 0.01 * c.down) ==>
              Adapt(rm, prev, cur, c, floored) == rm / c.down
    ensures Growing(prev, cur) && floored && rm < 0.01 * c.down ==>
              Adapt(rm, prev, cur, c, floored) == rm
    ensures !Overshoot(prev, cur) && !Growing(prev, cur) ==> Adapt(rm, prev, cur, c, floored) == rm
  {
    QuotientSign(prev, cur);
  }

  /** With the floor, and a scale-up factor of at least one, a resistance of at least 0.01
      never drops below 0.01: a scale-down only happens from `Rm >= 0.01 * Rm_corr_down`. */
  lemma FloorHolds(rm: real, prev: real, cur: real, c: AdaptConfig)
    requires c.Valid() && AboveNoise(c, cur) && c.up >= 1.0 && rm >= 0.01
    ensures Adapt(rm, prev, cur, c, true) >= 0.01
  {
    AdaptCases(rm, prev, cur, c, true);
    if Overshoot(prev, cur) {
      assert rm * c.up >= rm * 1.0;
    } else if Growing(prev, cur) && rm >= 0.01 * c.down {
      QuotientAtLeast(rm, c.down, 0.01);
    }
  }

  lemma QuotientAtLeast(x: real, d: real, m: real)
    requires d > 0.0 && x >= m * d
    ensures x / d >= m
  {
    var q := x / d;
    assert q * d == x;
    assert (q - m) * d >= 0.0;
  }

  lemma QuotientBelow(x: real, d: real, m: real)
    requires d > 0.0 && x < m * d
    ensures x / d < m
  {
    var q := x / d;
    assert q * d == x;
    assert (m - q) * d > 0.0;
  }

  /** The floor is what keeps the resistance up: whenever a growing residual meets a
      resistance of at least 0.01 but below `0.01 * Rm_corr_down`, the unfloored rule of
      APqr7 takes it below 0.01 while the floored rule leaves it where it was. */
  lemma NoFloorGoesBelow(rm: real, prev: real, cur: real, c: AdaptConfig)
    requires c.Valid() && AboveNoise(c, cur) && Growing(prev, cur)
    requires 0.01 <= rm < 0.01 * c.down
    ensures Adapt(rm, prev, cur, c, false) < 0.01
    ensures Adapt(rm, prev, cur, c, true) == rm
  {
    AdaptCases(rm, prev, cur, c, false);
    AdaptCases(rm, prev, cur, c, true);
    QuotientBelow(rm, c.down, 0.01);
  }
}
