# Quote engine model

A Dafny model of the quote engine in `src/service/quote.js`. The engine
answers "how much would it cost to buy (or what would I get for selling) an
amount of one currency in another". It resolves the currency pair against a
fixed catalog of product ids. Then it fetches the product's aggregated
order book, sorts the relevant side by price, and walks the price levels
greedily. At each level a binary search (`maximiseValue`) picks the largest
whole number of units that still fits in what remains.

Modules, one per part of the engine:

- `Results`: `Option` and `Result`.
- `Book`: a price level `(price, size, count)`, the exact product
  `Multiple(k, x) = k * x`, and the two walk modes. `Direct` consumes
  base-currency size and accumulates cost. `Inverted` consumes a
  quote-currency budget and accumulates base-currency volume.
- `Maximiser`: `maximiseValue`, with `Mid` for `parseInt`'s truncation
  toward zero. `LargestFit` is the reference answer, computed by division.
- `Walker`: both walkers as one `Walk` over a mode, mirroring the do-while
  and its skip loop. `Units`/`GreedyTotal` is the reference: a plain pass
  that visits every level once and takes its largest fit.
- `Sorting`: the stable sort by ascending or descending price.
- `Pairs`: the product-id catalog and `getQuoteRequest`.
- `Quote`: the four handlers and `getQuote`'s dispatch. The market-data
  provider is a parameter `fetch: string -> Option<OrderBook>`.
- `QuoteTests`: the expected quotes of `test/service/quote.test.js`, as
  exact values. It also holds one case that is not in that file: an
  inverted sell, which shows the bug listed under Findings.

Behaviour of the code worth knowing:

- `maximiseValue` answers 0 when the bound is positive but below one unit
  (`Maximiser.MaximiseValueBelowOneUnit`). Started from `low = 1` with a
  positive increment, it answers the fallback 1 for every bound of zero or
  less (`Maximiser.MaximiseValueFallsBackToOne`) and the largest fit for
  every positive bound (`Maximiser.MaximiseValueIsLargestFit`). Started
  above 1, the fallback can also answer a positive bound
  (`Maximiser.FallbackOutsideRange`). Both walkers start it at 1 and call it
  only after their skip loop guarantees that one unit fits. For a level holding
  at least one order (`count >= 1`), neither the 0 answer nor the fallback
  branch reaches them (`Maximiser.MaximiseValueAsWalkersCallIt`). A level
  holding no orders gets the 0 answer and contributes nothing.
- The midpoint truncates toward zero (`parseInt`). It differs from the
  floor of the half-sum exactly when `low + high` is negative and odd.
- The walkers are pure functions: the same book and target always give the
  same result.

## Model

| member | source | states |
|---|---|---|
| `Book.MultipleIsProduct` | src/service/quote.js:22-27 | the unit-by-unit value of k units equals the product `increment * k` the search compares |
| `Maximiser.Mid` | src/service/quote.js:26 | the probe lies within `[low, high]` and is the half-sum truncated toward zero, for ranges of either sign |
| `Maximiser.MaximiseValue` | src/service/quote.js:20-33 | the answer is the fallback 1 or a count whose value is within the bound; on a range that is not inverted by more than one it lies between `low - 1` and `high` |
| `Maximiser.LargestFit` | src/service/quote.js:20-33 | independent reference by division: the largest count in `[0, n]` whose value stays within the bound, with one more unit exceeding it unless all n fit |
| `Maximiser.LargestFitUnique` | src/service/quote.js:20-33 | the largest-fit characterisation determines the count uniquely |
| `Maximiser.SearchFindsLargestFit` | src/service/quote.js:20-33 | if counts below `low` fit and counts above `high` overshoot, the binary search ends on the largest fit |
| `Maximiser.MaximiseValueIsLargestFit` | src/service/quote.js:20-33 | searching `[1, n]` under a positive bound gives exactly the division-based reference answer |
| `Maximiser.MaximiseValueAsWalkersCallIt` | src/service/quote.js:45-48 | after the skip loop, the search takes between 1 and `count` units, stays within what remains, and could not take one more |
| `Maximiser.MaximiseValueBelowOneUnit` | src/service/quote.js:21-23 | a positive bound smaller than one unit yields 0, not the fallback 1 |
| `Maximiser.MaximiseValueFallsBackToOne` | src/service/quote.js:21-23 | a bound of zero or less makes every probe overshoot and yields the constant 1 |
| `Maximiser.FallbackOutsideRange` | src/service/quote.js:21-23 | searching [10, 20] under a bound of 5 answers the fallback 1, a count outside the range searched |
| `Walker.SkipTooLarge` | src/service/quote.js:45 | the skip loop stops within the book, at a level of which one unit fits in what remains |
| `Walker.SkipPassesOnlyTooLarge` | src/service/quote.js:45-72 | every level the skip loop passes over is one of which not a single unit fits |
| `Walker.GreedyExhausted` | src/service/quote.js:57 | once nothing remains, the reference pass takes no units and gains nothing, which is why the loop may stop |
| `Walker.WalkIsGreedy` | src/service/quote.js:43-57 | from any cursor, the do-while adds exactly the reference greedy pass over the remaining levels and leaves exactly what that pass leaves of the target |
| `Walker.DirectWalkIsGreedy` | src/service/quote.js:35-60 | `calculateQuoteFromSortedOrders` equals the greedy cost of covering the target level by level |
| `Walker.InvertedWalkIsGreedy` | src/service/quote.js:62-88 | `calculateInvertedQuoteFromSortedOrders` equals the greedy volume the budget buys level by level |
| `Walker.GreedyNeverOvershoots` | src/service/quote.js:47-57 | the reference pass the walk equals never consumes more than a non-negative target, never leaves less than zero, and gains a non-negative total |
| `Walker.GreedyWithinCounts` | src/service/quote.js:48 | no level gives more units than its order count |
| `Walker.GreedyIsMaximal` | src/service/quote.js:43-57 | when the reference pass the walk equals is over, every level was taken whole or cannot give one more unit within what it leaves |
| `Walker.WalkLeavesLeftover` | src/service/quote.js:41-57 | what the walk leaves of the target (`remainer`) is what the reference pass leaves, and for a non-negative target lies between zero and the target |
| `Walker.WalkIsMaximal` | src/service/quote.js:43-57 | when the walk ends, every level was taken whole by the reference pass, or what the walk leaves is less than one of its units |
| `Sorting.Insert` | src/service/quote.js:120 | inserting into a sorted side keeps it sorted and adds exactly the inserted level |
| `Sorting.SortByPrice` | src/service/quote.js:91 | the result is sorted in the requested direction, is a permutation of the input, and keeps well-formed books well-formed |
| `Sorting.InsertAtPrice` | src/service/quote.js:106 | the inserted level goes before every level of equal price already placed |
| `Sorting.SortIsStable` | src/service/quote.js:119-120 | levels of equal price keep their input order, as `Array.prototype.sort` does |
| `Pairs.GetQuoteRequest` | src/service/quote.js:147-176 | resolves iff either orientation is listed; the direct form wins, the inverted form swaps the currencies; amount and action are carried over unchanged |
| `Pairs.ResolutionSymmetry` | src/service/quote.js:151-172 | a pair listed one way round resolves to the same product from both sides, directly one way and inverted the other |
| `Pairs.ListedPairs` | src/service/quote.js:5-10 | BTC/USD resolves directly, USD/BTC resolves inverted to BTC-USD, and USD/EUR is not listed in either form |
| `Quote.Divide` | src/service/quote.js:98 | the per-unit price is finite exactly when the amount is non-zero, and then times the amount gives back the total |
| `Quote.Shape` | src/service/quote.js:95-101 | a handler resolves with the total, the total per unit of the amount, and the caller's quote currency |
| `Quote.HandleBuyRequest` | src/service/quote.js:90-102 | the result has the handler shape, and for well-formed levels its total is the direct greedy pass over the asks by ascending price |
| `Quote.HandleInvertedBuyRequest` | src/service/quote.js:104-117 | the result has the handler shape, and for well-formed levels its total is the inverted greedy pass over the asks by ascending price |
| `Quote.HandleSellRequest` | src/service/quote.js:119-131 | the result has the handler shape, and for well-formed levels its total is the direct greedy pass over the bids by descending price |
| `Quote.HandleInvertedSellRequest` | src/service/quote.js:133-145 | corrected: the result has the handler shape, and for well-formed levels its total is the inverted greedy pass over the bids by descending price |
| `Quote.GetQuote` | src/service/quote.js:178-214 | invalid input exactly when the pair is unknown; an unavailable book exactly when a listed pair's fetch fails, whatever the action; once the book is fetched, success exactly for buy or sell and `InvalidAction` for any other action; a successful result has the handler shape |
| `Quote.QuotePriceIsPerUnit` | src/service/quote.js:95-100 | a quote is in the caller's quote currency, and its price is finite iff the amount is non-zero and then times the amount gives the total |
| `Quote.QuoteFollowsDispatchTable` | src/service/quote.js:191-205 | for any fetched book, buy and sell succeed and any other action is rejected; the buy total is the greedy pass over the asks from the lowest price, the sell total over the bids from the highest, inverted exactly when the pair is, whenever the side walked is well-formed |
| `Quote.InvertedSellAsWrittenFails` | src/service/quote.js:133-136 | as written, every inverted sell whose book was fetched fails as an unavailable book, while the corrected dispatch quotes it; all other requests are unaffected |
| `QuoteTests.BuyFromSingleAsk` | test/service/quote.test.js:17-43 | one ask of 2 at 1: total 2, price 1, in USD |
| `QuoteTests.BuyTakesCheapestAskFirst` | test/service/quote.test.js:45-75 | asks at 2, 1 and 5: the cheapest covers the request, total 2, price 1 |
| `QuoteTests.BuyAggregatesAsks` | test/service/quote.test.js:77-106 | single units at 5, 1 and 2: total 3, price 1.5 |
| `QuoteTests.SellToSingleBid` | test/service/quote.test.js:112-138 | one bid of 2 at 1: total 2, price 1 |
| `QuoteTests.SellTakesHighestBidFirst` | test/service/quote.test.js:140-170 | bids at 7, 8 and 4: the highest absorbs the request, total 16, price 8 |
| `QuoteTests.SellAggregatesBids` | test/service/quote.test.js:172-200 | single units at 5, 1 and 2: total 7, price 3.5 |
| `QuoteTests.InvertedSellOfOneBid` | src/service/quote.js:133-136 | selling 100 USD for BTC against one bid fails as written, and corrected yields 1 BTC at 0.01 BTC per USD |

## Left out

- Fetching the order book (`getProductOrderBook` with `{ level: 2 }`), promises and logging. The provider is the `fetch` parameter, and a failed fetch is `None`.
- `parseOrdersAggregates` (src/service/quote.js:16-18): string-to-number parsing of the provider's levels. Levels are taken as already parsed. A side missing from the provider's answer (a `TypeError` in the source) is not modelled; `OrderBook` always has both sides.
- IEEE-754 arithmetic: prices, sizes and totals are exact reals, so rounding is not modelled. Division by a zero amount is modelled only as a non-finite price (`Ratio.NotFinite`), not as the particular Infinity or NaN.
- The exact rejection objects (`code: 400`, the message strings). They are modelled as the three `QuoteError` cases.
- The handlers' own `.catch` branches ("Cannot get a quote to ..."). The handlers never reject, so these branches are unreachable.
- `src/main.js` (transport) is not part of this model.
- `Walker.DirectWalkIsGreedy`: stated for books whose levels have positive price and size (`WellFormedBook`), because the source does not validate levels. The walk itself is defined for every book.
- `Walker.InvertedWalkIsGreedy`: the same restriction to well-formed books.
- `Quote.HandleBuyRequest`: its total is related to the greedy pass only for well-formed books, for the same reason.
- `Quote.HandleInvertedBuyRequest`: its total is related to the greedy pass only for well-formed books, for the same reason.
- `Quote.HandleSellRequest`: its total is related to the greedy pass only for well-formed books, for the same reason.
- `Quote.HandleInvertedSellRequest`: its total is related to the greedy pass only for well-formed books, for the same reason.
- `Quote.QuoteFollowsDispatchTable`: the total is related to the greedy pass only when the side walked is well-formed; the dispatch itself is stated for every book.
- `Quote.GetQuote`: its contract states the price identity through the handler shape. The explicit identity is `Quote.QuotePriceIsPerUnit`.

## Findings

| source | as written | input that shows it | evidently intended | confidence | as-written member | corrected member |
|---|---|---|---|---|---|---|
| src/service/quote.js:133-136 | `handleInvertedSellRequest(request, asks)` reads and sorts `bids`, a name it never declares. The `ReferenceError` escapes the provider callback, and the request is rejected as "could not retrieve order book". | sell 100 USD for BTC; BTC-USD is listed, so the pair resolves inverted; any fetched book (`QuoteTests.InvertedSellOfOneBid`) | sort the fetched bids by descending price and walk them inverted, like the other three handlers | not executed | `Quote.GetQuoteAsWritten` (`Quote.InvertedSellAsWrittenFails`) | `Quote.HandleInvertedSellRequest` (used by `Quote.GetQuote`) |
