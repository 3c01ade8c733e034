/**
 * Currency-pair resolution, `getQuoteRequest` (src/service/quote.js:147-176),
 * against the catalog of supported product ids (src/service/quote.js:5-10).
 */
module Pairs {

  import opened Results

  /** The supported product ids, each written BASE-QUOTE. */
  const ProductIds: seq<string> := [
    "BCH-USD",
    "LTC-EUR", "LTC-USD", "LTC-BTC",
    "ETH-EUR", "ETH-USD", "ETH-BTC",
    "BTC-GBP", "BTC-EUR", "BTC-USD"
  ]

  function ProductId(base: string, quote: string): string {
    base + "-" + quote
  }

  /** What the caller asks: `amount` is always in the caller's base currency. */
  datatype QuoteRequest = QuoteRequest(action: string, baseCurrency: string, quoteCurrency: string, amount: real)

  /** The request matched to a listed product, with the product's own orientation. */
  datatype PairResolution = PairResolution(
    productId: string,
    baseCurrency: string,
    quoteCurrency: string,
    amount: real,
    quoteIsInverted: bool,
    action: string)

  /**
   * Match BASE-QUOTE first, then QUOTE-BASE (inverted, currencies swapped);
   * `None` stands for the source's `false`.
   */
  function GetQuoteRequest(catalog: seq<string>, request: QuoteRequest): (r: Option<PairResolution>)
    ensures r.Some? <==>
      ProductId(request.baseCurrency, request.quoteCurrency) in catalog
      || ProductId(request.quoteCurrency, request.baseCurrency) in catalog
    ensures r.Some? ==>
      && r.value.productId in catalog
      && r.value.productId == ProductId(r.value.baseCurrency, r.value.quoteCurrency)
      && r.value.amount == request.amount
      && r.value.action == request.action
    ensures r.Some? ==>
      (r.value.quoteIsInverted <==> ProductId(request.baseCurrency, request.quoteCurrency) !in catalog)
    ensures r.Some? && !r.value.quoteIsInverted ==>
      r.value.baseCurrency == request.baseCurrency && r.value.quoteCurrency == request.quoteCurrency
    ensures r.Some? && r.value.quoteIsInverted ==>
      r.value.baseCurrency == request.quoteCurrency && r.value.quoteCurrency == request.baseCurrency
  {
    var productId := ProductId(request.baseCurrency, request.quoteCurrency);
    var invertedProductId := ProductId(request.quoteCurrency, request.baseCurrency);
    if productId in catalog then
      Some(PairResolution(productId, request.baseCurrency, request.quoteCurrency, request.amount, false, request.action))
    else if invertedProductId in catalog then
      Some(PairResolution(invertedProductId, request.quoteCurrency, request.baseCurrency, request.amount, true, request.action))
    else
      None
  }

  /**
   * A pair listed in one orientation only is served directly when asked that
   * way round and inverted when asked the other way, from the same product.
   */
  lemma ResolutionSymmetry(catalog: seq<string>, x: string, y: string, action: string, amount: real, amount': real)
    requires ProductId(x, y) in catalog && ProductId(y, x) !in catalog
    ensures var direct := GetQuoteRequest(catalog, QuoteRequest(action, x, y, amount));
      var inverted := GetQuoteRequest(catalog, QuoteRequest(action, y, x, amount'));
      && direct.Some? && !direct.value.quoteIsInverted
      && inverted.Some? && inverted.value.quoteIsInverted
      && direct.value.productId == inverted.value.productId == ProductId(x, y)
      && inverted.value.baseCurrency == x && inverted.value.quoteCurrency == y
  {
  }

  /** BTC-USD is listed, so BTC priced in USD is direct and USD priced in BTC is inverted. */
  lemma ListedPairs()
    ensures GetQuoteRequest(ProductIds, QuoteRequest("buy", "BTC", "USD", 2.0))
      == Some(PairResolution("BTC-USD", "BTC", "USD", 2.0, false, "buy"))
    ensures GetQuoteRequest(ProductIds, QuoteRequest("sell", "USD", "BTC", 100.0))
      == Some(PairResolution("BTC-USD", "BTC", "USD", 100.0, true, "sell"))
    ensures GetQuoteRequest(ProductIds, QuoteRequest("buy", "USD", "EUR", 1.0)) == None
  {
    assert ProductId("BTC", "USD") == ProductIds[9];
    assert ProductId("USD", "BTC") !in ProductIds by {
      assert forall i :: 0 <= i < |ProductIds| ==> ProductIds[i][0] != 'U';
    }
    assert ProductId("USD", "EUR") !in ProductIds by {
      assert forall i :: 0 <= i < |ProductIds| ==> ProductIds[i][0] != 'U';
    }
    assert ProductId("EUR", "USD") !in ProductIds by {
      assert forall i :: 0 <= i < |ProductIds| ==> ProductIds[i][0] != 'E' || ProductIds[i][1] != 'U';
    }
  }
}
