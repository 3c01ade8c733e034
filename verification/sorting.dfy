/**
 * The sorts the handlers apply before walking (src/service/quote.js:91 and
 * :120): asks by ascending price, bids by descending price. JavaScript's
 * Array.prototype.sort is stable, so levels of equal price keep their order.
 */
module Sorting {

  import opened Book

  datatype Direction = Ascending | Descending

  /** `a` may come before `b`: the comparator does not put `b` strictly first. */
  predicate InOrder(a: Level, b: Level, dir: Direction) {
    match dir
    case Ascending => a.price <= b.price
    case Descending => a.price >= b.price
  }

  predicate SortedBy(s: seq<Level>, dir: Direction) {
    forall i, j :: 0 <= i < j < |s| ==> InOrder(s[i], s[j], dir)
  }

  /** The levels of `s` at exactly `price`, in the order they appear. */
  function AtPrice(s: seq<Level>, price: real): seq<Level> {
    if |s| == 0 then []
    else (if s[0].price == price then [s[0]] else []) + AtPrice(s[1..], price)
  }

  /** Insert `x` in front of the first level it may precede. */
  function Insert(x: Level, s: seq<Level>, dir: Direction): (r: seq<Level>)
    requires SortedBy(s, dir)
    ensures SortedBy(r, dir)
    ensures multiset(r) == multiset(s) + multiset{x}
    ensures |r| == |s| + 1
  {
    if |s| == 0 || InOrder(x, s[0], dir) then
      [x] + s
    else
      var rest := Insert(x, s[1..], dir);
      assert s == [s[0]] + s[1..];
      HeadPrecedesAll(s[0], x, s[1..], rest, dir);
      [s[0]] + rest
  }

  /**
   * If `h` may precede `x` and every level of `s`, it may precede every
   * level of any rearrangement of `s` plus `x`.
   */
  lemma HeadPrecedesAll(h: Level, x: Level, s: seq<Level>, rest: seq<Level>, dir: Direction)
    requires !InOrder(x, h, dir)
    requires forall j :: 0 <= j < |s| ==> InOrder(h, s[j], dir)
    requires multiset(rest) == multiset(s) + multiset{x}
    ensures forall j :: 0 <= j < |rest| ==> InOrder(h, rest[j], dir)
  {
    forall j | 0 <= j < |rest|
      ensures InOrder(h, rest[j], dir)
    {
      assert rest[j] in multiset(rest);
      if rest[j] != x {
        assert rest[j] in multiset(s);
        var k :| 0 <= k < |s| && s[k] == rest[j];
      }
    }
  }

  /** Insertion sort by price; the first level is inserted into the sorted rest. */
  function SortByPrice(s: seq<Level>, dir: Direction): (r: seq<Level>)
    ensures SortedBy(r, dir)
    ensures multiset(r) == multiset(s)
    ensures WellFormedBook(s) ==> WellFormedBook(r)
  {
    if |s| == 0 then []
    else
      assert s == [s[0]] + s[1..];
      var r := Insert(s[0], SortByPrice(s[1..], dir), dir);
      SameLevelsKeepWellFormed(s, r);
      r
  }

  lemma SameLevelsKeepWellFormed(s: seq<Level>, r: seq<Level>)
    requires multiset(r) == multiset(s)
    ensures WellFormedBook(s) ==> WellFormedBook(r)
  {
    if WellFormedBook(s) {
      forall l | l in r
        ensures WellFormed(l)
      {
        assert l in multiset(r);
      }
    }
  }

  /** Inserting `x` puts it before every level of equal price already there. */
  lemma {:induction false} InsertAtPrice(x: Level, s: seq<Level>, dir: Direction, price: real)
    requires SortedBy(s, dir)
    ensures AtPrice(Insert(x, s, dir), price) == (if x.price == price then [x] else []) + AtPrice(s, price)
  {
    var r := Insert(x, s, dir);
    if |s| == 0 || InOrder(x, s[0], dir) {
      assert r == [x] + s;
      assert r[1..] == s;
    } else {
      assert x.price != s[0].price;
      InsertAtPrice(x, s[1..], dir, price);
      assert r == [s[0]] + Insert(x, s[1..], dir);
      assert r[1..] == Insert(x, s[1..], dir);
      assert AtPrice(r, price) == (if s[0].price == price then [s[0]] else []) + AtPrice(r[1..], price);
      assert AtPrice(s, price) == (if s[0].price == price then [s[0]] else []) + AtPrice(s[1..], price);
      if x.price == price {
        assert s[0].price != price;
      }
    }
  }

  /**
   * Stability: among levels of any one price, the sort keeps the order they
   * had in the input.
   */
  lemma {:induction false} SortIsStable(s: seq<Level>, dir: Direction, price: real)
    ensures AtPrice(SortByPrice(s, dir), price) == AtPrice(s, price)
    decreases |s|
  {
    if 0 < |s| {
      SortIsStable(s[1..], dir, price);
      InsertAtPrice(s[0], SortByPrice(s[1..], dir), dir, price);
    }
  }
}
