/**
 * Order-book data: one aggregated price level is a triple
 * (price, size of one unit, number of units), as the engine reads it
 * after parsing (src/service/quote.js:12-18).
 */
module Book {

  datatype Level = Level(price: real, size: real, count: nat)

  /**
   * The value of k whole units of `increment`, that is k * increment, built
   * up one unit at a time so that proofs reason about it by counting.
   */
  function Multiple(k: int, increment: real): real
    decreases if k < 0 then -k else k
  {
    if k == 0 then 0.0
    else if 0 < k then Multiple(k - 1, increment) + increment
    else Multiple(k + 1, increment) - increment
  }

  lemma MultipleNext(k: int, increment: real)
    ensures Multiple(k + 1, increment) == Multiple(k, increment) + increment
  {
  }

  lemma {:induction false} MultipleIsProduct(k: int, increment: real)
    ensures Multiple(k, increment) == (k as real) * increment
    decreases if k < 0 then -k else k
  {
    if 0 < k {
      MultipleIsProduct(k - 1, increment);
    } else if k < 0 {
      MultipleIsProduct(k + 1, increment);
    }
  }

  lemma {:induction false} MultipleNonNegative(k: nat, increment: real)
    requires 0.0 <= increment
    ensures 0.0 <= Multiple(k, increment)
  {
    if 0 < k {
      MultipleNonNegative(k - 1, increment);
    }
  }

  /** With a positive increment, more units are worth strictly more. */
  lemma {:induction false} MultipleStrictlyMonotone(a: int, b: int, increment: real)
    requires a < b && 0.0 < increment
    ensures Multiple(a, increment) < Multiple(b, increment)
    decreases b - a
  {
    MultipleNext(a, increment);
    if a + 1 < b {
      MultipleStrictlyMonotone(a + 1, b, increment);
    }
  }

  lemma MultipleMonotone(a: int, b: int, increment: real)
    requires a <= b && 0.0 < increment
    ensures Multiple(a, increment) <= Multiple(b, increment)
  {
    if a < b {
      MultipleStrictlyMonotone(a, b, increment);
    }
  }

  /**
   * The values the market-data provider is expected to deliver: a positive
   * price and a positive unit size. Levels are not validated by the source;
   * the properties of the walkers are stated for books of such levels.
   */
  predicate WellFormed(l: Level) {
    0.0 < l.price && 0.0 < l.size
  }

  predicate WellFormedBook(levels: seq<Level>) {
    forall l :: l in levels ==> WellFormed(l)
  }

  /**
   * Which quantity a walk consumes. `Direct`: the target is an amount of the
   * product's base currency and the walk accumulates what it costs.
   * `Inverted`: the target is a budget in the product's quote currency and the
   * walk accumulates the base-currency volume it buys.
   */
  datatype Mode = Direct | Inverted

  /** How much one unit of `l` takes off the remaining target. */
  function Increment(l: Level, mode: Mode): real {
    match mode
    case Direct => l.size
    case Inverted => l.size * l.price
  }

  /** How much one unit of `l` adds to the walk's result. */
  function UnitYield(l: Level, mode: Mode): real {
    match mode
    case Direct => l.price * l.size
    case Inverted => l.size
  }

  lemma WellFormedIncrement(l: Level, mode: Mode)
    requires WellFormed(l)
    ensures 0.0 < Increment(l, mode) && 0.0 < UnitYield(l, mode)
  {
    assert 0.0 < l.size * l.price;
  }
}
