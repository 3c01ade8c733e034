/**
 * The two order-book walkers, `calculateQuoteFromSortedOrders` and
 * `calculateInvertedQuoteFromSortedOrders` (src/service/quote.js:35-88).
 * They differ only in what one unit of a level takes off the remaining
 * target and what it adds to the result, so both are one walk over a Mode.
 */
module Walker {

  import opened Book
  import opened Maximiser

  /**
   * The skip loop (src/service/quote.js:45 and :72): from `cursor`, pass over
   * every level of which not even one unit fits in what remains.
   */
  function SkipTooLarge(orders: seq<Level>, mode: Mode, cursor: nat, remainer: real): (c: nat)
    requires cursor <= |orders|
    ensures cursor <= c <= |orders|
    ensures c < |orders| ==> Increment(orders[c], mode) <= remainer
    decreases |orders| - cursor
  {
    if cursor < |orders| && remainer < Increment(orders[cursor], mode) then
      SkipTooLarge(orders, mode, cursor + 1, remainer)
    else
      cursor
  }

  /** Every level the skip loop passes over is one of which not a single unit fits. */
  lemma {:induction false} SkipPassesOnlyTooLarge(orders: seq<Level>, mode: Mode, cursor: nat, remainer: real)
    requires cursor <= |orders|
    ensures forall i :: cursor <= i < SkipTooLarge(orders, mode, cursor, remainer) ==> remainer < Increment(orders[i], mode)
    decreases |orders| - cursor
  {
    if cursor < |orders| && remainer < Increment(orders[cursor], mode) {
      SkipPassesOnlyTooLarge(orders, mode, cursor + 1, remainer);
    }
  }

  /** Where the do-while leaves off: the accumulated result and what remains of the target. */
  datatype WalkEnd = WalkEnd(total: real, left: real)

  /**
   * The do-while loop, entered at `cursor` with `remainer` still to cover and
   * `total` accumulated: skip, take the largest number of units the search
   * allows from the level found, advance, and go round again while something
   * remains and levels are left.
   */
  function Walk(orders: seq<Level>, mode: Mode, cursor: nat, remainer: real, total: real): WalkEnd
    requires cursor <= |orders|
    decreases |orders| - cursor
  {
    var c := SkipTooLarge(orders, mode, cursor, remainer);
    if c < |orders| then
      var level := orders[c];
      var k := MaximiseValue(remainer, Increment(level, mode), 1, level.count);
      var total' := total + Multiple(k, UnitYield(level, mode));
      var remainer' := remainer - Multiple(k, Increment(level, mode));
      if 0.0 < remainer' && c + 1 < |orders| then Walk(orders, mode, c + 1, remainer', total')
      else WalkEnd(total', remainer')
    else
      WalkEnd(total, remainer)
  }

  /** Cost of buying (or proceeds of selling) `target` of the base currency. */
  function CalculateQuoteFromSortedOrders(orders: seq<Level>, target: real): real {
    Walk(orders, Direct, 0, target, 0.0).total
  }

  /** Base-currency volume obtainable for a budget of `target` in the quote currency. */
  function CalculateInvertedQuoteFromSortedOrders(orders: seq<Level>, target: real): real {
    Walk(orders, Inverted, 0, target, 0.0).total
  }

  // ---------------------------------------------------------------------
  // Reference: a greedy pass that visits every level exactly once, in order,
  // and takes from it the largest whole number of units that still fits.
  // No skip loop, no early exit, no binary search.
  // ---------------------------------------------------------------------

  /** The number of units the greedy pass takes from each level. */
  function Units(levels: seq<Level>, mode: Mode, remaining: real): (units: seq<nat>)
    requires WellFormedBook(levels)
    ensures |units| == |levels|
    decreases |levels|
  {
    if |levels| == 0 then []
    else
      var inc := Increment(levels[0], mode);
      WellFormedIncrement(levels[0], mode);
      var u := if inc <= remaining then LargestFit(remaining, inc, levels[0].count) else 0;
      [u] + Units(levels[1..], mode, remaining - Multiple(u, inc))
  }

  /** What the units taken add to the result. */
  function Gained(levels: seq<Level>, mode: Mode, units: seq<nat>): real
    requires |units| == |levels|
    decreases |levels|
  {
    if |levels| == 0 then 0.0
    else Multiple(units[0], UnitYield(levels[0], mode)) + Gained(levels[1..], mode, units[1..])
  }

  /** What the units taken consume of the target. */
  function Spent(levels: seq<Level>, mode: Mode, units: seq<nat>): real
    requires |units| == |levels|
    decreases |levels|
  {
    if |levels| == 0 then 0.0
    else Multiple(units[0], Increment(levels[0], mode)) + Spent(levels[1..], mode, units[1..])
  }

  function GreedyTotal(levels: seq<Level>, mode: Mode, remaining: real): real
    requires WellFormedBook(levels)
  {
    Gained(levels, mode, Units(levels, mode, remaining))
  }

  /** What is left of the target once the greedy pass is over. */
  function Leftover(levels: seq<Level>, mode: Mode, remaining: real): real
    requires WellFormedBook(levels)
  {
    remaining - Spent(levels, mode, Units(levels, mode, remaining))
  }

  /** One step of the greedy pass: the first level, then the rest with less remaining. */
  lemma GreedyStep(levels: seq<Level>, mode: Mode, remaining: real)
    requires WellFormedBook(levels) && 0 < |levels|
    ensures var u := Units(levels, mode, remaining)[0];
      var rest := remaining - Multiple(u, Increment(levels[0], mode));
      && Units(levels, mode, remaining)[1..] == Units(levels[1..], mode, rest)
      && GreedyTotal(levels, mode, remaining) == Multiple(u, UnitYield(levels[0], mode)) + GreedyTotal(levels[1..], mode, rest)
      && Leftover(levels, mode, remaining) == Leftover(levels[1..], mode, rest)
  {
  }

  lemma {:induction false} SpentNonNegative(levels: seq<Level>, mode: Mode, units: seq<nat>)
    requires WellFormedBook(levels) && |units| == |levels|
    ensures 0.0 <= Spent(levels, mode, units)
    ensures 0.0 <= Gained(levels, mode, units)
    decreases |levels|
  {
    if 0 < |levels| {
      WellFormedIncrement(levels[0], mode);
      MultipleNonNegative(units[0], Increment(levels[0], mode));
      MultipleNonNegative(units[0], UnitYield(levels[0], mode));
      SpentNonNegative(levels[1..], mode, units[1..]);
    }
  }

  /** With nothing left to cover, the greedy pass takes nothing at all. */
  lemma {:induction false} GreedyExhausted(levels: seq<Level>, mode: Mode, remaining: real)
    requires WellFormedBook(levels) && remaining <= 0.0
    ensures forall i :: 0 <= i < |levels| ==> Units(levels, mode, remaining)[i] == 0
    ensures GreedyTotal(levels, mode, remaining) == 0.0
    ensures Leftover(levels, mode, remaining) == remaining
    decreases |levels|
  {
    if 0 < |levels| {
      WellFormedIncrement(levels[0], mode);
      GreedyStep(levels, mode, remaining);
      GreedyExhausted(levels[1..], mode, remaining);
    }
  }

  /** Levels the skip loop passes over contribute nothing to the greedy pass either. */
  lemma {:induction false} SkipKeepsGreedy(orders: seq<Level>, mode: Mode, cursor: nat, c: nat, remaining: real)
    requires WellFormedBook(orders)
    requires cursor <= c <= |orders|
    requires forall i :: cursor <= i < c ==> remaining < Increment(orders[i], mode)
    ensures GreedyTotal(orders[cursor..], mode, remaining) == GreedyTotal(orders[c..], mode, remaining)
    ensures Leftover(orders[cursor..], mode, remaining) == Leftover(orders[c..], mode, remaining)
    decreases c - cursor
  {
    if cursor < c {
      GreedyStep(orders[cursor..], mode, remaining);
      assert orders[cursor..][1..] == orders[cursor + 1..];
      assert Units(orders[cursor..], mode, remaining)[0] == 0;
      SkipKeepsGreedy(orders, mode, cursor + 1, c, remaining);
    }
  }

  /** The greedy pass over a suffix whose first level fits. */
  lemma GreedyAt(orders: seq<Level>, mode: Mode, c: nat, remaining: real)
    requires WellFormedBook(orders) && c < |orders|
    requires Increment(orders[c], mode) <= remaining
    ensures var k := MaximiseValue(remaining, Increment(orders[c], mode), 1, orders[c].count);
      && GreedyTotal(orders[c..], mode, remaining)
        == Multiple(k, UnitYield(orders[c], mode)) + GreedyTotal(orders[c + 1..], mode, remaining - Multiple(k, Increment(orders[c], mode)))
      && Leftover(orders[c..], mode, remaining) == Leftover(orders[c + 1..], mode, remaining - Multiple(k, Increment(orders[c], mode)))
  {
    assert orders[c] in orders;
    WellFormedIncrement(orders[c], mode);
    MaximiseValueIsLargestFit(remaining, Increment(orders[c], mode), orders[c].count);
    GreedyStep(orders[c..], mode, remaining);
    assert orders[c..][0] == orders[c];
    assert orders[c..][1..] == orders[c + 1..];
  }

  /** The greedy pass from `cursor`, seen from the level the skip loop stops at. */
  lemma GreedyFromFit(orders: seq<Level>, mode: Mode, cursor: nat, remainer: real)
    requires WellFormedBook(orders)
    requires cursor <= |orders|
    requires SkipTooLarge(orders, mode, cursor, remainer) < |orders|
    ensures var c := SkipTooLarge(orders, mode, cursor, remainer);
      var k := MaximiseValue(remainer, Increment(orders[c], mode), 1, orders[c].count);
      && GreedyTotal(orders[cursor..], mode, remainer)
        == Multiple(k, UnitYield(orders[c], mode)) + GreedyTotal(orders[c + 1..], mode, remainer - Multiple(k, Increment(orders[c], mode)))
      && Leftover(orders[cursor..], mode, remainer) == Leftover(orders[c + 1..], mode, remainer - Multiple(k, Increment(orders[c], mode)))
  {
    var c := SkipTooLarge(orders, mode, cursor, remainer);
    GreedyAt(orders, mode, c, remainer);
    SkipPassesOnlyTooLarge(orders, mode, cursor, remainer);
    SkipKeepsGreedy(orders, mode, cursor, c, remainer);
  }

  /** The iteration at the level `c` the skip loop stops at, when the loop goes round again. */
  lemma WalkContinues(orders: seq<Level>, mode: Mode, cursor: nat, remainer: real, total: real)
    requires cursor <= |orders|
    requires SkipTooLarge(orders, mode, cursor, remainer) < |orders|
    ensures var c := SkipTooLarge(orders, mode, cursor, remainer);
      var k := MaximiseValue(remainer, Increment(orders[c], mode), 1, orders[c].count);
      var remainer' := remainer - Multiple(k, Increment(orders[c], mode));
      var total' := total + Multiple(k, UnitYield(orders[c], mode));
      0.0 < remainer' && c + 1 < |orders| ==> Walk(orders, mode, cursor, remainer, total) == Walk(orders, mode, c + 1, remainer', total')
  {
  }

  /** The iteration at the level `c` the skip loop stops at, when the loop ends after it. */
  lemma WalkStops(orders: seq<Level>, mode: Mode, cursor: nat, remainer: real, total: real)
    requires WellFormedBook(orders)
    requires cursor <= |orders|
    requires SkipTooLarge(orders, mode, cursor, remainer) < |orders|
    ensures var c := SkipTooLarge(orders, mode, cursor, remainer);
      var k := MaximiseValue(remainer, Increment(orders[c], mode), 1, orders[c].count);
      var remainer' := remainer - Multiple(k, Increment(orders[c], mode));
      var total' := total + Multiple(k, UnitYield(orders[c], mode));
      !(0.0 < remainer' && c + 1 < |orders|) ==>
        && Walk(orders, mode, cursor, remainer, total) == WalkEnd(total', remainer')
        && GreedyTotal(orders[c + 1..], mode, remainer') == 0.0
        && Leftover(orders[c + 1..], mode, remainer') == remainer'
  {
    var c := SkipTooLarge(orders, mode, cursor, remainer);
    var k := MaximiseValue(remainer, Increment(orders[c], mode), 1, orders[c].count);
    var remainer' := remainer - Multiple(k, Increment(orders[c], mode));
    if !(0.0 < remainer' && c + 1 < |orders|) {
      if c + 1 < |orders| {
        GreedyExhausted(orders[c + 1..], mode, remainer');
      } else {
        assert orders[c + 1..] == [];
      }
    }
  }

  /**
   * One iteration of the do-while loop, taken from the level at `c`, the
   * first level at or after `cursor` that the skip loop stops at.
   */
  lemma {:induction false} WalkFromFit(orders: seq<Level>, mode: Mode, cursor: nat, remainer: real, total: real)
    requires WellFormedBook(orders)
    requires cursor <= |orders|
    requires SkipTooLarge(orders, mode, cursor, remainer) < |orders|
    ensures Walk(orders, mode, cursor, remainer, total)
      == WalkEnd(total + GreedyTotal(orders[cursor..], mode, remainer), Leftover(orders[cursor..], mode, remainer))
    decreases |orders| - cursor, 0
  {
    var c := SkipTooLarge(orders, mode, cursor, remainer);
    var k := MaximiseValue(remainer, Increment(orders[c], mode), 1, orders[c].count);
    var remainer' := remainer - Multiple(k, Increment(orders[c], mode));
    var total' := total + Multiple(k, UnitYield(orders[c], mode));
    var rest := GreedyTotal(orders[c + 1..], mode, remainer');
    var left := Leftover(orders[c + 1..], mode, remainer');
    GreedyFromFit(orders, mode, cursor, remainer);
    assert GreedyTotal(orders[cursor..], mode, remainer) == Multiple(k, UnitYield(orders[c], mode)) + rest;
    WalkContinues(orders, mode, cursor, remainer, total);
    WalkStops(orders, mode, cursor, remainer, total);
    if 0.0 < remainer' && c + 1 < |orders| {
      WalkIsGreedy(orders, mode, c + 1, remainer', total');
    }
    assert Leftover(orders[cursor..], mode, remainer) == left;
    assert Walk(orders, mode, cursor, remainer, total) == WalkEnd(total' + rest, left);
  }

  /** The do-while walk computes exactly what the greedy pass over the remaining levels gains. */
  lemma {:induction false} WalkIsGreedy(orders: seq<Level>, mode: Mode, cursor: nat, remainer: real, total: real)
    requires WellFormedBook(orders)
    requires cursor <= |orders|
    ensures Walk(orders, mode, cursor, remainer, total)
      == WalkEnd(total + GreedyTotal(orders[cursor..], mode, remainer), Leftover(orders[cursor..], mode, remainer))
    decreases |orders| - cursor, 1
  {
    var c := SkipTooLarge(orders, mode, cursor, remainer);
    if c < |orders| {
      WalkFromFit(orders, mode, cursor, remainer, total);
    } else {
      SkipPassesOnlyTooLarge(orders, mode, cursor, remainer);
      SkipKeepsGreedy(orders, mode, cursor, c, remainer);
      assert orders[c..] == [];
    }
  }

  /** The direct walker returns the greedy cost of covering `target` level by level. */
  lemma DirectWalkIsGreedy(orders: seq<Level>, target: real)
    requires WellFormedBook(orders)
    ensures CalculateQuoteFromSortedOrders(orders, target) == GreedyTotal(orders, Direct, target)
  {
    WalkIsGreedy(orders, Direct, 0, target, 0.0);
    assert orders[0..] == orders;
  }

  /** The inverted walker returns the greedy volume bought with budget `target`. */
  lemma InvertedWalkIsGreedy(orders: seq<Level>, target: real)
    requires WellFormedBook(orders)
    ensures CalculateInvertedQuoteFromSortedOrders(orders, target) == GreedyTotal(orders, Inverted, target)
  {
    WalkIsGreedy(orders, Inverted, 0, target, 0.0);
    assert orders[0..] == orders;
  }

  /**
   * No overshoot: starting from a non-negative target, the greedy pass never
   * consumes more than the target, and what it gains is non-negative.
   */
  lemma {:induction false} GreedyNeverOvershoots(levels: seq<Level>, mode: Mode, remaining: real)
    requires WellFormedBook(levels) && 0.0 <= remaining
    ensures 0.0 <= Leftover(levels, mode, remaining) <= remaining
    ensures 0.0 <= GreedyTotal(levels, mode, remaining)
    decreases |levels|
  {
    SpentNonNegative(levels, mode, Units(levels, mode, remaining));
    if 0 < |levels| {
      GreedyStep(levels, mode, remaining);
      var u := Units(levels, mode, remaining)[0];
      GreedyNeverOvershoots(levels[1..], mode, remaining - Multiple(u, Increment(levels[0], mode)));
    }
  }

  /** The greedy pass never takes more units from a level than the level holds. */
  lemma {:induction false} GreedyWithinCounts(levels: seq<Level>, mode: Mode, remaining: real)
    requires WellFormedBook(levels)
    ensures forall i :: 0 <= i < |levels| ==> Units(levels, mode, remaining)[i] <= levels[i].count
    decreases |levels|
  {
    if 0 < |levels| {
      var units := Units(levels, mode, remaining);
      var rest := remaining - Multiple(units[0], Increment(levels[0], mode));
      GreedyStep(levels, mode, remaining);
      GreedyWithinCounts(levels[1..], mode, rest);
      forall i | 0 < i < |levels|
        ensures units[i] <= levels[i].count
      {
        assert units[i] == units[1..][i - 1] && levels[i] == levels[1..][i - 1];
      }
    }
  }

  /**
   * Maximality: once the pass is over, no level could give one more unit
   * within what is left; each level was either taken whole or what is left
   * is less than one of its units.
   */
  lemma {:induction false} GreedyIsMaximal(levels: seq<Level>, mode: Mode, remaining: real)
    requires WellFormedBook(levels)
    ensures forall i :: 0 <= i < |levels| ==>
      Units(levels, mode, remaining)[i] == levels[i].count || Leftover(levels, mode, remaining) < Increment(levels[i], mode)
    decreases |levels|
  {
    if 0 < |levels| {
      var units := Units(levels, mode, remaining);
      var inc := Increment(levels[0], mode);
      var rest := remaining - Multiple(units[0], inc);
      GreedyStep(levels, mode, remaining);
      GreedyIsMaximal(levels[1..], mode, rest);
      SpentNonNegative(levels[1..], mode, units[1..]);
      assert Leftover(levels, mode, remaining) <= rest;
      if inc <= remaining {
        MultipleNext(units[0], inc);
      }
      forall i | 0 < i < |levels|
        ensures units[i] == levels[i].count || Leftover(levels, mode, remaining) < Increment(levels[i], mode)
      {
        assert units[i] == units[1..][i - 1] && levels[i] == levels[1..][i - 1];
      }
    }
  }

  /**
   * What the do-while leaves of the target is what the greedy pass leaves:
   * for a non-negative target it never drops below zero and never exceeds
   * the target.
   */
  lemma WalkLeavesLeftover(orders: seq<Level>, mode: Mode, target: real)
    requires WellFormedBook(orders)
    ensures Walk(orders, mode, 0, target, 0.0).left == Leftover(orders, mode, target)
    ensures 0.0 <= target ==> 0.0 <= Walk(orders, mode, 0, target, 0.0).left <= target
  {
    WalkIsGreedy(orders, mode, 0, target, 0.0);
    assert orders[0..] == orders;
    if 0.0 <= target {
      GreedyNeverOvershoots(orders, mode, target);
    }
  }

  /**
   * When the do-while ends, no level could give one more unit within what it
   * leaves: each level was taken whole by the greedy pass, or what is left is
   * less than one of its units.
   */
  lemma WalkIsMaximal(orders: seq<Level>, mode: Mode, target: real)
    requires WellFormedBook(orders)
    ensures forall i :: 0 <= i < |orders| ==>
      Units(orders, mode, target)[i] == orders[i].count || Walk(orders, mode, 0, target, 0.0).left < Increment(orders[i], mode)
  {
    WalkLeavesLeftover(orders, mode, target);
    GreedyIsMaximal(orders, mode, target);
  }
}
