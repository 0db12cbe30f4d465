/**
 * The feed score: `round(100 - missing / total * 100)`, clamped below at 0, and
 * 100 when there is nothing to check. Python's `round` rounds halves to the
 * even neighbour; the quotient is computed exactly here, over the integers.
 */
module Scoring {

  function Abs(x: int): nat {
    if x < 0 then -x else x
  }

  /**
   * `r` is `n / d` rounded to the nearest integer, halves to the even
   * neighbour: scaled by `d` it is within half of `d` of `n`, and on an exact
   * tie it is even.
   */
  predicate Nearest(n: int, d: int, r: int) {
    && 2 * Abs(n - r * d) <= d
    && (2 * Abs(n - r * d) == d ==> r % 2 == 0)
  }

  /** Python's `round(n / d)` on an exact quotient. */
  function RoundHalfEven(n: int, d: int): (r: int)
    requires d > 0
    ensures Nearest(n, d, r)
  {
    var q := n / d;
    var rem := n % d;
    assert n == q * d + rem;
    MulSucc(q, d);
    if 2 * rem < d then q
    else if 2 * rem > d then q + 1
    else if q % 2 == 0 then q
    else q + 1
  }

  lemma MulSucc(r: int, d: int)
    ensures (r + 1) * d == r * d + d
  {
  }

  /** Scaling by a positive `d` turns a gap of at least one into a gap of at least `d`. */
  lemma ScaledGap(r: int, s: int, d: int)
    requires d > 0 && r > s
    ensures r * d >= s * d + d
  {
    var k := r - s;
    assert r * d == s * d + k * d;
    assert (k - 1) * d >= 0;
  }

  /** Two nearest-even roundings of the same quotient are equal. */
  lemma NearestUnique(n: int, d: int, r: int, s: int)
    requires d > 0 && Nearest(n, d, r) && Nearest(n, d, s)
    ensures r == s
  {
    if r != s {
      var hi := if r > s then r else s;
      var lo := if r > s then s else r;
      if hi > lo + 1 {
        ScaledGap(hi, lo + 1, d);
        ScaledGap(lo + 1, lo, d);
        assert false;
      } else {
        MulSucc(lo, d);
        assert false;
      }
    }
  }

  /** The rounding spec has exactly one solution, so the contract of `RoundHalfEven` determines it. */
  lemma RoundHalfEvenUnique(n: int, d: int, r: int)
    requires d > 0 && Nearest(n, d, r)
    ensures r == RoundHalfEven(n, d)
  {
    NearestUnique(n, d, r, RoundHalfEven(n, d));
  }

  /** Rounding is monotone in the numerator. */
  lemma RoundHalfEvenMonotone(n1: int, n2: int, d: int)
    requires d > 0 && n1 <= n2
    ensures RoundHalfEven(n1, d) <= RoundHalfEven(n2, d)
  {
    var r1 := RoundHalfEven(n1, d);
    var r2 := RoundHalfEven(n2, d);
    if r1 > r2 {
      MulSucc(r2, d);
      if r1 > r2 + 1 {
        ScaledGap(r1, r2 + 1, d);
      }
      assert false;
    }
  }

  /** Rounding an exact multiple gives the quotient back. */
  lemma RoundExact(k: int, d: int)
    requires d > 0
    ensures RoundHalfEven(k * d, d) == k
  {
    RoundHalfEvenUnique(k * d, d, k);
  }

  /** `max(0, x)`. */
  function ClampLow(x: int): (r: int)
    ensures r >= 0 && r >= x
    ensures r == x || r == 0
  {
    if x < 0 then 0 else x
  }

  /** The rounded percentage of filled slots: `100·total − 100·missing` over `total`. */
  function Percent(total: nat, missing: nat): int
    requires total > 0
  {
    RoundHalfEven(100 * total - 100 * missing, total)
  }

  /**
   * The score for `missing` unfilled slots out of `total`: 100 when nothing is
   * checked, otherwise the clamped rounded percentage of filled slots.
   */
  function Score(total: nat, missing: nat): (s: int)
    ensures 0 <= s <= 100
    ensures total == 0 || missing == 0 ==> s == 100
    ensures 0 < total <= missing ==> s == 0
  {
    if total == 0 then 100
    else
      var p := Percent(total, missing);
      RoundHalfEvenMonotone(100 * total - 100 * missing, 100 * total, total);
      RoundExact(100, total);
      assert missing >= total ==> p <= 0 by {
        if missing >= total {
          RoundHalfEvenMonotone(100 * total - 100 * missing, 0 * total, total);
          RoundExact(0, total);
        }
      }
      ClampLow(p)
  }

  /**
   * When at most every slot is missing the clamp never applies, and the score is
   * `100 − penalty` rounded half to even: within half a point of the exact value,
   * even on a tie.
   */
  lemma ScoreIsRoundedPenalty(total: nat, missing: nat)
    requires 0 < total && missing <= total
    ensures Nearest(100 * total - 100 * missing, total, Score(total, missing))
  {
    RoundHalfEvenMonotone(0 * total, 100 * total - 100 * missing, total);
    RoundExact(0, total);
  }

  /** For a fixed number of slots, more missing slots never raise the score. */
  lemma ScoreMonotone(total: nat, m1: nat, m2: nat)
    requires m1 <= m2
    ensures Score(total, m2) <= Score(total, m1)
  {
    if total > 0 {
      RoundHalfEvenMonotone(100 * total - 100 * m2, 100 * total - 100 * m1, total);
    }
  }
}
