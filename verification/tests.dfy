/**
 * The quotes the service's own tests expect (test/service/quote.test.js),
 * as exact values of the model. Each order book is what the provider
 * answers for BTC-USD. The six cases of the test suite are about 2 BTC
 * priced in USD; the last case sells 100 USD for BTC. Every case is split
 * into the sort, the walk and the assembled quote.
 */
module QuoteTests {

  import opened Results
  import opened Book
  import opened Maximiser
  import opened Walker
  import opened Sorting
  import opened Pairs
  import opened Quote

  /** A provider that answers every product with these asks and no bids. */
  function BookOfAsks(asks: seq<Level>): string -> Option<OrderBook> {
    (id: string) => Some(OrderBook(asks, []))
  }

  /** A provider that answers every product with these bids and no asks. */
  function BookOfBids(bids: seq<Level>): string -> Option<OrderBook> {
    (id: string) => Some(OrderBook([], bids))
  }

  /** A single ask of 2 BTC at 1 USD covers the request: 2 USD, 1 USD each. */
  lemma BuyFromSingleAsk()
    ensures GetQuote(QuoteRequest("buy", "BTC", "USD", 2.0), BookOfAsks([Level(1.0, 2.0, 1)]))
      == Success(QuoteResult(2.0, Finite(1.0), "USD"))
  {
    var asks := [Level(1.0, 2.0, 1)];
    ListedPairs();
    assert SortByPrice(asks, Ascending) == asks;
    assert MaximiseValue(2.0, 2.0, 1, 1) == 1;
    assert Walk(asks, Direct, 0, 2.0, 0.0).total == 2.0;
  }

  // Asks at 2, 1 and 5 USD, 2 BTC each.

  lemma AsksSortCheapestFirst()
    ensures SortByPrice([Level(2.0, 2.0, 1), Level(1.0, 2.0, 1), Level(5.0, 2.0, 1)], Ascending)
      == [Level(1.0, 2.0, 1), Level(2.0, 2.0, 1), Level(5.0, 2.0, 1)]
  {
    var a, b, c := Level(2.0, 2.0, 1), Level(1.0, 2.0, 1), Level(5.0, 2.0, 1);
    assert Insert(c, [], Ascending) == [c];
    assert Insert(b, [c], Ascending) == [b, c];
    assert [b, c][1..] == [c];
    assert Insert(a, [c], Ascending) == [a, c];
    assert Insert(a, [b, c], Ascending) == [b, a, c];
    assert [a, b, c][1..] == [b, c] && [c][1..] == [];
    assert SortByPrice([c], Ascending) == [c];
    assert SortByPrice([b, c], Ascending) == Insert(b, [c], Ascending);
  }

  lemma CheapestAskCoversAll()
    ensures Walk([Level(1.0, 2.0, 1), Level(2.0, 2.0, 1), Level(5.0, 2.0, 1)], Direct, 0, 2.0, 0.0).total == 2.0
  {
    assert MaximiseValue(2.0, 2.0, 1, 1) == 1;
  }

  /** The cheapest of three asks is taken first and covers the request alone. */
  lemma BuyTakesCheapestAskFirst()
    ensures GetQuote(QuoteRequest("buy", "BTC", "USD", 2.0),
                     BookOfAsks([Level(2.0, 2.0, 1), Level(1.0, 2.0, 1), Level(5.0, 2.0, 1)]))
      == Success(QuoteResult(2.0, Finite(1.0), "USD"))
  {
    ListedPairs();
    AsksSortCheapestFirst();
    CheapestAskCoversAll();
  }

  // Asks at 5, 1 and 2 USD, 1 BTC each.

  lemma SingleAsksSortCheapestFirst()
    ensures SortByPrice([Level(5.0, 1.0, 1), Level(1.0, 1.0, 1), Level(2.0, 1.0, 1)], Ascending)
      == [Level(1.0, 1.0, 1), Level(2.0, 1.0, 1), Level(5.0, 1.0, 1)]
  {
    var a, b, c := Level(5.0, 1.0, 1), Level(1.0, 1.0, 1), Level(2.0, 1.0, 1);
    assert Insert(c, [], Ascending) == [c];
    assert Insert(b, [c], Ascending) == [b, c];
    assert [b, c][1..] == [c] && [c][1..] == [];
    assert Insert(a, [], Ascending) == [a];
    assert Insert(a, [c], Ascending) == [c, a];
    assert Insert(a, [b, c], Ascending) == [b, c, a];
    assert [a, b, c][1..] == [b, c];
    assert SortByPrice([c], Ascending) == [c];
    assert SortByPrice([b, c], Ascending) == Insert(b, [c], Ascending);
  }

  lemma TwoAsksCoverAll()
    ensures Walk([Level(1.0, 1.0, 1), Level(2.0, 1.0, 1), Level(5.0, 1.0, 1)], Direct, 0, 2.0, 0.0).total == 3.0
  {
    var a, b, c := Level(1.0, 1.0, 1), Level(2.0, 1.0, 1), Level(5.0, 1.0, 1);
    assert MaximiseValue(2.0, 1.0, 1, 1) == 1;
    assert MaximiseValue(1.0, 1.0, 1, 1) == 1;
    assert [a, b, c][1] == b;
    assert SkipTooLarge([a, b, c], Direct, 1, 1.0) == 1;
    assert Multiple(1, 1.0) == 1.0 && Multiple(1, 2.0) == 2.0;
    assert Walk([a, b, c], Direct, 1, 1.0, 1.0).total == 3.0;
  }

  /** One BTC at 1 USD and one at 2 USD: 3 USD in all, 1.5 USD each. */
  lemma BuyAggregatesAsks()
    ensures GetQuote(QuoteRequest("buy", "BTC", "USD", 2.0),
                     BookOfAsks([Level(5.0, 1.0, 1), Level(1.0, 1.0, 1), Level(2.0, 1.0, 1)]))
      == Success(QuoteResult(3.0, Finite(1.5), "USD"))
  {
    ListedPairs();
    SingleAsksSortCheapestFirst();
    TwoAsksCoverAll();
  }

  /** A single bid of 2 BTC at 1 USD: 2 USD, 1 USD each. */
  lemma SellToSingleBid()
    ensures GetQuote(QuoteRequest("sell", "BTC", "USD", 2.0), BookOfBids([Level(1.0, 2.0, 1)]))
      == Success(QuoteResult(2.0, Finite(1.0), "USD"))
  {
    var bids := [Level(1.0, 2.0, 1)];
    ListedPairs();
    assert GetQuoteRequest(ProductIds, QuoteRequest("sell", "BTC", "USD", 2.0))
      == Some(PairResolution("BTC-USD", "BTC", "USD", 2.0, false, "sell"));
    assert SortByPrice(bids, Descending) == bids;
    assert MaximiseValue(2.0, 2.0, 1, 1) == 1;
    assert Walk(bids, Direct, 0, 2.0, 0.0).total == 2.0;
  }

  // Bids at 7, 8 and 4 USD, 2 BTC each.

  lemma BidsSortHighestFirst()
    ensures SortByPrice([Level(7.0, 2.0, 1), Level(8.0, 2.0, 1), Level(4.0, 2.0, 1)], Descending)
      == [Level(8.0, 2.0, 1), Level(7.0, 2.0, 1), Level(4.0, 2.0, 1)]
  {
    var a, b, c := Level(7.0, 2.0, 1), Level(8.0, 2.0, 1), Level(4.0, 2.0, 1);
    assert Insert(c, [], Descending) == [c];
    assert Insert(b, [c], Descending) == [b, c];
    assert [b, c][1..] == [c];
    assert Insert(a, [c], Descending) == [a, c];
    assert Insert(a, [b, c], Descending) == [b, a, c];
    assert [a, b, c][1..] == [b, c] && [c][1..] == [];
    assert SortByPrice([c], Descending) == [c];
    assert SortByPrice([b, c], Descending) == Insert(b, [c], Descending);
  }

  lemma HighestBidAbsorbsAll()
    ensures Walk([Level(8.0, 2.0, 1), Level(7.0, 2.0, 1), Level(4.0, 2.0, 1)], Direct, 0, 2.0, 0.0).total == 16.0
  {
    assert MaximiseValue(2.0, 2.0, 1, 1) == 1;
    assert Multiple(1, 16.0) == 16.0;
  }

  /** The highest of three bids is taken first and absorbs the request alone. */
  lemma SellTakesHighestBidFirst()
    ensures GetQuote(QuoteRequest("sell", "BTC", "USD", 2.0),
                     BookOfBids([Level(7.0, 2.0, 1), Level(8.0, 2.0, 1), Level(4.0, 2.0, 1)]))
      == Success(QuoteResult(16.0, Finite(8.0), "USD"))
  {
    ListedPairs();
    assert GetQuoteRequest(ProductIds, QuoteRequest("sell", "BTC", "USD", 2.0))
      == Some(PairResolution("BTC-USD", "BTC", "USD", 2.0, false, "sell"));
    BidsSortHighestFirst();
    HighestBidAbsorbsAll();
  }

  // Bids at 5, 1 and 2 USD, 1 BTC each.

  lemma SingleBidsSortHighestFirst()
    ensures SortByPrice([Level(5.0, 1.0, 1), Level(1.0, 1.0, 1), Level(2.0, 1.0, 1)], Descending)
      == [Level(5.0, 1.0, 1), Level(2.0, 1.0, 1), Level(1.0, 1.0, 1)]
  {
    var a, b, c := Level(5.0, 1.0, 1), Level(1.0, 1.0, 1), Level(2.0, 1.0, 1);
    assert Insert(c, [], Descending) == [c];
    assert [c][1..] == [];
    assert Insert(b, [], Descending) == [b];
    assert Insert(b, [c], Descending) == [c, b];
    assert Insert(a, [c, b], Descending) == [a, c, b];
    assert [a, b, c][1..] == [b, c] && [b, c][1..] == [c];
    assert SortByPrice([c], Descending) == [c];
    assert SortByPrice([b, c], Descending) == Insert(b, [c], Descending);
  }

  lemma TwoBidsAbsorbAll()
    ensures Walk([Level(5.0, 1.0, 1), Level(2.0, 1.0, 1), Level(1.0, 1.0, 1)], Direct, 0, 2.0, 0.0).total == 7.0
  {
    var a, b, c := Level(5.0, 1.0, 1), Level(2.0, 1.0, 1), Level(1.0, 1.0, 1);
    assert MaximiseValue(2.0, 1.0, 1, 1) == 1;
    assert MaximiseValue(1.0, 1.0, 1, 1) == 1;
    assert [a, b, c][1] == b;
    assert SkipTooLarge([a, b, c], Direct, 1, 1.0) == 1;
    assert Multiple(1, 1.0) == 1.0 && Multiple(1, 2.0) == 2.0 && Multiple(1, 5.0) == 5.0;
    assert Walk([a, b, c], Direct, 1, 1.0, 5.0).total == 7.0;
  }

  /** One BTC at 5 USD and one at 2 USD: 7 USD in all, 3.5 USD each. */
  lemma SellAggregatesBids()
    ensures GetQuote(QuoteRequest("sell", "BTC", "USD", 2.0),
                     BookOfBids([Level(5.0, 1.0, 1), Level(1.0, 1.0, 1), Level(2.0, 1.0, 1)]))
      == Success(QuoteResult(7.0, Finite(3.5), "USD"))
  {
    ListedPairs();
    assert GetQuoteRequest(ProductIds, QuoteRequest("sell", "BTC", "USD", 2.0))
      == Some(PairResolution("BTC-USD", "BTC", "USD", 2.0, false, "sell"));
    SingleBidsSortHighestFirst();
    TwoBidsAbsorbAll();
  }

  /**
   * Selling 100 USD for BTC against one bid of 1 BTC at 50 USD: as written the
   * inverted sell handler throws and the request is reported as a failed
   * fetch of BTC-USD; corrected, 50 USD buys the 1 BTC on offer and the
   * remaining 50 USD find no further bid.
   */
  lemma InvertedSellOfOneBid()
    ensures GetQuoteAsWritten(QuoteRequest("sell", "USD", "BTC", 100.0), BookOfBids([Level(50.0, 1.0, 1)]))
      == Failure(OrderBookUnavailable("BTC-USD"))
    ensures GetQuote(QuoteRequest("sell", "USD", "BTC", 100.0), BookOfBids([Level(50.0, 1.0, 1)]))
      == Success(QuoteResult(1.0, Finite(0.01), "BTC"))
  {
    var bids := [Level(50.0, 1.0, 1)];
    ListedPairs();
    assert SortByPrice(bids, Descending) == bids;
    assert Multiple(1, 50.0) == 50.0 && Multiple(1, 1.0) == 1.0;
    assert MaximiseValue(100.0, 50.0, 1, 1) == 1;
    assert Walk(bids, Inverted, 0, 100.0, 0.0).total == 1.0;
  }
}
