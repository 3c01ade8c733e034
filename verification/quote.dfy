/**
 * The quote service: the buy and sell handlers (src/service/quote.js:90-145)
 * and the dispatch in `getQuote` (src/service/quote.js:178-214). The
 * market-data provider is the `fetch` parameter: it maps a product id to the
 * order book it returns, or to `None` when the fetch fails.
 */
module Quote {

  import opened Results
  import opened Book
  import opened Walker
  import opened Sorting
  import opened Pairs

  /** One snapshot of a product's book, as parsed from the provider's answer. */
  datatype OrderBook = OrderBook(asks: seq<Level>, bids: seq<Level>)

  /** `total / amount` in floating point: a real number, or Infinity/NaN when amount is 0. */
  datatype Ratio = Finite(value: real) | NotFinite

  datatype QuoteResult = QuoteResult(total: real, price: Ratio, currency: string)

  /** Why `getQuote` rejects: unknown pair, unknown action, or no order book. */
  datatype QuoteError = InvalidInput | InvalidAction(action: string) | OrderBookUnavailable(productId: string)

  function Divide(total: real, amount: real): (q: Ratio)
    ensures q.Finite? <==> amount != 0.0
    ensures q.Finite? ==> q.value * amount == total
  {
    if amount == 0.0 then NotFinite else Finite(total / amount)
  }

  /** The shape every handler resolves with: total, per-unit price, the caller's quote currency. */
  function Shape(request: QuoteRequest, total: real): (r: QuoteResult)
    ensures r.total == total && r.currency == request.quoteCurrency
    ensures request.amount != 0.0 ==> r.price.Finite? && r.price.value * request.amount == total
  {
    QuoteResult(total, Divide(total, request.amount), request.quoteCurrency)
  }

  /** Both walkers are the greedy pass over any book of well-formed levels. */
  lemma WalkIsGreedyWhenWellFormed(orders: seq<Level>, mode: Mode, target: real)
    ensures WellFormedBook(orders) ==> Walk(orders, mode, 0, target, 0.0).total == GreedyTotal(orders, mode, target)
  {
    if WellFormedBook(orders) {
      WalkIsGreedy(orders, mode, 0, target, 0.0);
      assert orders[0..] == orders;
    }
  }

  /** Buy `amount` of the base currency: cheapest asks first. */
  function HandleBuyRequest(request: QuoteRequest, asks: seq<Level>): (r: QuoteResult)
    ensures r == Shape(request, r.total)
    ensures WellFormedBook(asks) ==> r.total == GreedyTotal(SortByPrice(asks, Ascending), Direct, request.amount)
  {
    var sorted := SortByPrice(asks, Ascending);
    WalkIsGreedyWhenWellFormed(sorted, Direct, request.amount);
    Shape(request, CalculateQuoteFromSortedOrders(sorted, request.amount))
  }

  /** Spend `amount` of the product's quote currency on the base currency: cheapest asks first. */
  function HandleInvertedBuyRequest(request: QuoteRequest, asks: seq<Level>): (r: QuoteResult)
    ensures r == Shape(request, r.total)
    ensures WellFormedBook(asks) ==> r.total == GreedyTotal(SortByPrice(asks, Ascending), Inverted, request.amount)
  {
    var sorted := SortByPrice(asks, Ascending);
    WalkIsGreedyWhenWellFormed(sorted, Inverted, request.amount);
    Shape(request, CalculateInvertedQuoteFromSortedOrders(sorted, request.amount))
  }

  /** Sell `amount` of the base currency: highest bids first. */
  function HandleSellRequest(request: QuoteRequest, bids: seq<Level>): (r: QuoteResult)
    ensures r == Shape(request, r.total)
    ensures WellFormedBook(bids) ==> r.total == GreedyTotal(SortByPrice(bids, Descending), Direct, request.amount)
  {
    var sorted := SortByPrice(bids, Descending);
    WalkIsGreedyWhenWellFormed(sorted, Direct, request.amount);
    Shape(request, CalculateQuoteFromSortedOrders(sorted, request.amount))
  }

  /**
   * The symmetric counterpart the inverted sell handler evidently intends:
   * highest bids first, inverted walk.
   */
  function HandleInvertedSellRequest(request: QuoteRequest, bids: seq<Level>): (r: QuoteResult)
    ensures r == Shape(request, r.total)
    ensures WellFormedBook(bids) ==> r.total == GreedyTotal(SortByPrice(bids, Descending), Inverted, request.amount)
  {
    var sorted := SortByPrice(bids, Descending);
    WalkIsGreedyWhenWellFormed(sorted, Inverted, request.amount);
    Shape(request, CalculateInvertedQuoteFromSortedOrders(sorted, request.amount))
  }

  /**
   * `getQuote`: resolve the pair, fetch its book, then dispatch on the action
   * and on whether the pair had to be inverted.
   */
  function GetQuote(request: QuoteRequest, fetch: string -> Option<OrderBook>): (r: Result<QuoteResult, QuoteError>)
    ensures r == Failure(InvalidInput) <==> GetQuoteRequest(ProductIds, request).None?
    ensures r.Success? ==> request.action == "buy" || request.action == "sell"
    ensures r.Success? ==> r.value == Shape(request, r.value.total)
    ensures r.Failure? && r.error.OrderBookUnavailable? ==>
      GetQuoteRequest(ProductIds, request).Some?
      && fetch(GetQuoteRequest(ProductIds, request).value.productId).None?
    ensures GetQuoteRequest(ProductIds, request).Some? && fetch(GetQuoteRequest(ProductIds, request).value.productId).None? ==>
      r == Failure(OrderBookUnavailable(GetQuoteRequest(ProductIds, request).value.productId))
    ensures GetQuoteRequest(ProductIds, request).Some? && fetch(GetQuoteRequest(ProductIds, request).value.productId).Some? ==>
      && (r.Success? <==> request.action == "buy" || request.action == "sell")
      && (request.action != "buy" && request.action != "sell" ==> r == Failure(InvalidAction(request.action)))
  {
    match GetQuoteRequest(ProductIds, request)
    case None => Failure(InvalidInput)
    case Some(q) =>
      match fetch(q.productId)
      case None => Failure(OrderBookUnavailable(q.productId))
      case Some(book) =>
        if q.action == "buy" then
          Success(if q.quoteIsInverted then HandleInvertedBuyRequest(request, book.asks) else HandleBuyRequest(request, book.asks))
        else if q.action == "sell" then
          Success(if q.quoteIsInverted then HandleInvertedSellRequest(request, book.bids) else HandleSellRequest(request, book.bids))
        else
          Failure(InvalidAction(q.action))
  }

  /**
   * A successful quote is in the caller's quote currency, and its price is
   * the total per unit of the requested amount (finite unless the amount is 0).
   */
  lemma QuotePriceIsPerUnit(request: QuoteRequest, fetch: string -> Option<OrderBook>, v: QuoteResult)
    requires GetQuote(request, fetch) == Success(v)
    ensures v.currency == request.quoteCurrency
    ensures v.price.Finite? <==> request.amount != 0.0
    ensures v.price.Finite? ==> v.price.value * request.amount == v.total
  {
    ShapedPriceIsPerUnit(request, v);
  }

  lemma ShapedPriceIsPerUnit(request: QuoteRequest, v: QuoteResult)
    requires v == Shape(request, v.total)
    ensures v.currency == request.quoteCurrency
    ensures v.price.Finite? <==> request.amount != 0.0
    ensures v.price.Finite? ==> v.price.value * request.amount == v.total
  {
  }

  function WalkMode(inverted: bool): Mode {
    if inverted then Inverted else Direct
  }

  /**
   * The dispatch table: buy walks the asks by ascending price, sell walks the
   * bids by descending price, and the walk is inverted exactly when the pair
   * was; for a side of well-formed levels the total is the greedy pass over
   * that sorted side. Any other action is rejected once the book has been
   * fetched, whatever the book holds.
   */
  lemma QuoteFollowsDispatchTable(request: QuoteRequest, fetch: string -> Option<OrderBook>, book: OrderBook)
    requires GetQuoteRequest(ProductIds, request).Some?
    requires fetch(GetQuoteRequest(ProductIds, request).value.productId) == Some(book)
    ensures var q := GetQuoteRequest(ProductIds, request).value;
      var r := GetQuote(request, fetch);
      && (request.action == "buy" ==>
            && r.Success?
            && (WellFormedBook(book.asks) ==>
                  r.value.total == GreedyTotal(SortByPrice(book.asks, Ascending), WalkMode(q.quoteIsInverted), request.amount)))
      && (request.action == "sell" ==>
            && r.Success?
            && (WellFormedBook(book.bids) ==>
                  r.value.total == GreedyTotal(SortByPrice(book.bids, Descending), WalkMode(q.quoteIsInverted), request.amount)))
      && (request.action != "buy" && request.action != "sell" ==> r == Failure(InvalidAction(request.action)))
  {
  }

  /**
   * `getQuote` as written: the inverted sell handler reads `bids`, a name it
   * never declares (src/service/quote.js:133-136), so it throws; the throw
   * escapes the provider's callback and is reported as a failure to retrieve
   * the order book.
   */
  function GetQuoteAsWritten(request: QuoteRequest, fetch: string -> Option<OrderBook>): Result<QuoteResult, QuoteError> {
    match GetQuoteRequest(ProductIds, request)
    case Some(q) =>
      if fetch(q.productId).Some? && q.action == "sell" && q.quoteIsInverted then
        Failure(OrderBookUnavailable(q.productId))
      else
        GetQuote(request, fetch)
    case None => GetQuote(request, fetch)
  }

  /**
   * Every inverted sell fails as written, although the book was fetched and
   * the corrected dispatch quotes it; every other request is unaffected.
   */
  lemma InvertedSellAsWrittenFails(request: QuoteRequest, fetch: string -> Option<OrderBook>)
    ensures var q := GetQuoteRequest(ProductIds, request);
      if q.Some? && q.value.quoteIsInverted && request.action == "sell" && fetch(q.value.productId).Some? then
        && GetQuoteAsWritten(request, fetch) == Failure(OrderBookUnavailable(q.value.productId))
        && GetQuote(request, fetch).Success?
      else
        GetQuoteAsWritten(request, fetch) == GetQuote(request, fetch)
  {
  }
}
