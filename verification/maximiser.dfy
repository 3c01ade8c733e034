/**
 * `maximiseValue` (src/service/quote.js:20-33): a recursive binary search for
 * how many units of size `increment` fit under `maxValue`, within [low, high].
 */
module Maximiser {

  import opened Book

  /**
   * `parseInt(low + (high - low) / 2)`: the midpoint of `low` and `high`,
   * truncated toward zero (parseInt drops the fractional digits).
   */
  function Mid(low: int, high: int): (mid: int)
    ensures low <= high ==> low <= mid <= high
    ensures 0 <= low + high ==> 0 <= (low + high) - 2 * mid <= 1
    ensures low + high < 0 ==> 0 <= 2 * mid - (low + high) <= 1
  {
    var sum := low + high;
    if 0 <= sum then sum / 2 else -((-sum) / 2)
  }

  /**
   * The search itself. When the range is empty it answers `high` if `high`
   * units stay strictly below `maxValue`, and otherwise the constant 1.
   */
  function MaximiseValue(maxValue: real, increment: real, low: int, high: int): (k: int)
    ensures k == 1 || Multiple(k, increment) <= maxValue
    ensures low <= high + 1 ==> k == 1 || low - 1 <= k <= high
    decreases if high < low then 0 else high - low + 1
  {
    if high < low then
      if Multiple(high, increment) < maxValue then high else 1
    else
      var mid := Mid(low, high);
      var midValue := Multiple(mid, increment);
      if midValue > maxValue then MaximiseValue(maxValue, increment, low, mid - 1)
      else if midValue < maxValue then MaximiseValue(maxValue, increment, mid + 1, high)
      else mid
  }

  /**
   * k is the largest number of whole units, 0 <= k <= n, whose total value
   * stays within maxValue: either all n units fit, or one more would not.
   */
  predicate IsLargestFit(k: int, maxValue: real, increment: real, n: nat) {
    && 0 <= k <= n
    && Multiple(k, increment) <= maxValue
    && (k == n || maxValue < Multiple(k + 1, increment))
  }

  /** Reference answer computed by division instead of search. */
  function LargestFit(maxValue: real, increment: real, n: nat): (k: nat)
    requires 0.0 < increment && 0.0 < maxValue
    ensures IsLargestFit(k, maxValue, increment, n)
  {
    var ratio := maxValue / increment;
    var whole := ratio.Floor;
    assert 0.0 < ratio;
    MultipleIsProduct(whole, increment);
    MultipleIsProduct(whole + 1, increment);
    assert Multiple(whole, increment) <= maxValue by {
      assert (whole as real) <= ratio;
      assert ratio * increment == maxValue;
    }
    assert maxValue < Multiple(whole + 1, increment) by {
      var gap := (whole + 1) as real - ratio;
      assert 0.0 < gap;
      assert 0.0 < gap * increment;
      assert (whole + 1) as real == ratio + gap;
      assert Multiple(whole + 1, increment) == (ratio + gap) * increment;
      assert (ratio + gap) * increment == ratio * increment + gap * increment;
      assert ratio * increment == maxValue;
    }
    if whole < n then whole
    else
      MultipleMonotone(n, whole, increment);
      n
  }

  /** Two counts that both satisfy the largest-fit characterisation are equal. */
  lemma LargestFitUnique(maxValue: real, increment: real, n: nat, k1: int, k2: int)
    requires 0.0 < increment
    requires IsLargestFit(k1, maxValue, increment, n)
    requires IsLargestFit(k2, maxValue, increment, n)
    ensures k1 == k2
  {
    if k1 < k2 {
      MultipleMonotone(k1 + 1, k2, increment);
    } else if k2 < k1 {
      MultipleMonotone(k2 + 1, k1, increment);
    }
  }

  /**
   * The search keeps every count below `low` strictly under `maxValue` and
   * every count above `high` (up to n) strictly over it, so it ends on the
   * largest fit.
   */
  lemma {:induction false} SearchFindsLargestFit(maxValue: real, increment: real, low: int, high: int, n: nat)
    requires 0.0 < increment && 0.0 < maxValue
    requires 1 <= low <= high + 1 <= n + 1
    requires low == 1 || Multiple(low - 1, increment) < maxValue
    requires high == n || maxValue < Multiple(high + 1, increment)
    ensures IsLargestFit(MaximiseValue(maxValue, increment, low, high), maxValue, increment, n)
    decreases high - low + 1
  {
    if high < low {
      assert high == low - 1;
      if low == 1 {
        assert Multiple(high, increment) == 0.0;
      }
    } else {
      var mid := Mid(low, high);
      assert low <= mid <= high;
      var midValue := Multiple(mid, increment);
      if midValue > maxValue {
        SearchFindsLargestFit(maxValue, increment, low, mid - 1, n);
        assert MaximiseValue(maxValue, increment, low, high) == MaximiseValue(maxValue, increment, low, mid - 1);
      } else if midValue < maxValue {
        SearchFindsLargestFit(maxValue, increment, mid + 1, high, n);
        assert MaximiseValue(maxValue, increment, low, high) == MaximiseValue(maxValue, increment, mid + 1, high);
      } else {
        assert MaximiseValue(maxValue, increment, low, high) == mid;
        MultipleStrictlyMonotone(mid, mid + 1, increment);
      }
    }
  }

  /** Called from 1 with a positive bound, the search returns the largest fit. */
  lemma MaximiseValueIsLargestFit(maxValue: real, increment: real, n: nat)
    requires 0.0 < increment && 0.0 < maxValue
    ensures MaximiseValue(maxValue, increment, 1, n) == LargestFit(maxValue, increment, n)
  {
    SearchFindsLargestFit(maxValue, increment, 1, n, n);
    var k := MaximiseValue(maxValue, increment, 1, n);
    LargestFitUnique(maxValue, increment, n, k, LargestFit(maxValue, increment, n));
  }

  /**
   * As both walkers call it (after their skip loops guarantee that one unit
   * fits), the search takes at least one and at most n units, stays within
   * the bound, and could not take one more.
   */
  lemma MaximiseValueAsWalkersCallIt(maxValue: real, increment: real, n: nat)
    requires 0.0 < increment <= maxValue
    requires 1 <= n
    ensures var k := MaximiseValue(maxValue, increment, 1, n);
      && 1 <= k <= n
      && Multiple(k, increment) <= maxValue
      && (k == n || maxValue < Multiple(k + 1, increment))
  {
    MaximiseValueIsLargestFit(maxValue, increment, n);
  }

  /**
   * When even a single unit exceeds a positive bound, the search answers 0,
   * not the fallback 1.
   */
  lemma MaximiseValueBelowOneUnit(maxValue: real, increment: real, n: nat)
    requires 0.0 < maxValue < increment
    ensures MaximiseValue(maxValue, increment, 1, n) == 0
  {
    MaximiseValueIsLargestFit(maxValue, increment, n);
    var k := LargestFit(maxValue, increment, n);
    if 1 <= k {
      assert Multiple(1, increment) == increment;
      MultipleMonotone(1, k, increment);
    }
  }

  /**
   * With a bound of zero or less, every probe overshoots and the empty-range
   * case answers the constant 1.
   */
  lemma {:induction false} MaximiseValueFallsBackToOne(maxValue: real, increment: real, low: int, high: int)
    requires 0.0 < increment && maxValue <= 0.0
    requires 1 <= low <= high + 1
    ensures MaximiseValue(maxValue, increment, low, high) == 1
    decreases high - low + 1
  {
    if high < low {
      MultipleNonNegative(high, increment);
    } else {
      var mid := Mid(low, high);
      MultipleStrictlyMonotone(0, mid, increment);
      MaximiseValueFallsBackToOne(maxValue, increment, low, mid - 1);
    }
  }

  /**
   * Started above 1, the search can answer the fallback 1 under a positive
   * bound: searching [10, 20] for a bound of 5 units probes only counts that
   * overshoot, and 1 is not in the range searched.
   */
  lemma FallbackOutsideRange()
    ensures MaximiseValue(5.0, 1.0, 10, 20) == 1
  {
    MultipleIsProduct(15, 1.0);
    MultipleIsProduct(12, 1.0);
    MultipleIsProduct(10, 1.0);
    MultipleIsProduct(9, 1.0);
    assert Mid(10, 20) == 15 && Mid(10, 14) == 12 && Mid(10, 11) == 10;
    assert MaximiseValue(5.0, 1.0, 10, 9) == 1;
    assert MaximiseValue(5.0, 1.0, 10, 11) == 1;
    assert MaximiseValue(5.0, 1.0, 10, 14) == 1;
  }
}
