/** `Math.round(p / q * 100)` on exact rationals. `Math.round(x)` is
    `floor(x + 1/2)` (halves round up, towards positive infinity, for negative
    values too), so for `q > 0` the rounded percentage is
    `floor((200 * p + q) / (2 * q))`. */
module Rounding {

  /** `r` is the integer nearest to `100 * p / q`, halves rounding up. */
  ghost predicate IsRoundedPercent(r: int, p: int, q: int)
    requires q > 0
  {
    (2 * r - 1) * q <= 200 * p < (2 * r + 1) * q
  }

  function RoundPercent(p: int, q: int): (r: int)
    requires q > 0
    ensures IsRoundedPercent(r, p, q)
  {
    var n := 200 * p + q;
    var d := 2 * q;
    var r := n / d;
    assert n == r * d + n % d && 0 <= n % d < d;
    assert (2 * r - 1) * q == r * d - q;
    assert (2 * r + 1) * q == r * d + d - q;
    r
  }

  /** There is exactly one rounded percentage. */
  lemma {:induction false} RoundedPercentUnique(r: int, s: int, p: int, q: int)
    requires q > 0
    requires IsRoundedPercent(r, p, q) && IsRoundedPercent(s, p, q)
    ensures r == s
  {
    if r < s {
      assert (2 * r + 1) * q <= (2 * s - 1) * q by {
        assert 2 * r + 1 <= 2 * s - 1;
        MulMonotone(2 * r + 1, 2 * s - 1, q);
      }
    } else if s < r {
      assert (2 * s + 1) * q <= (2 * r - 1) * q by {
        assert 2 * s + 1 <= 2 * r - 1;
        MulMonotone(2 * s + 1, 2 * r - 1, q);
      }
    }
  }

  lemma MulMonotone(a: int, b: int, q: int)
    requires a <= b && q > 0
    ensures a * q <= b * q
  {
  }

  /** A larger numerator never rounds to a smaller percentage. */
  lemma {:induction false} RoundPercentMonotone(p1: int, p2: int, q: int)
    requires q > 0 && p1 <= p2
    ensures RoundPercent(p1, q) <= RoundPercent(p2, q)
  {
    var r1 := RoundPercent(p1, q);
    var r2 := RoundPercent(p2, q);
    if r2 < r1 {
      assert 2 * r2 + 1 <= 2 * r1 - 1;
      MulMonotone(2 * r2 + 1, 2 * r1 - 1, q);
    }
  }

  /** A ratio of 1 is 100 percent. */
  lemma RoundPercentWhole(q: int)
    requires q > 0
    ensures RoundPercent(q, q) == 100
  {
    RoundedPercentUnique(RoundPercent(q, q), 100, q, q);
  }

  /** A ratio between 0 and 1 gives a percentage between 0 and 100. */
  lemma {:induction false} RoundPercentBounds(p: int, q: int)
    requires q > 0 && 0 <= p <= q
    ensures 0 <= RoundPercent(p, q) <= 100
  {
    RoundPercentMonotone(0, p, q);
    RoundPercentMonotone(p, q, q);
    RoundedPercentUnique(RoundPercent(0, q), 0, 0, q);
    RoundPercentWhole(q);
  }
}
