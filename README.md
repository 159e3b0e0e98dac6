# Stockfolio portfolio core in Dafny

This project models the backend core of the stockfolio dashboard and its
frontend display helpers:

- **The quote cache.** One in-memory map from keys in three namespaces
  (`cmp_<symbol>`, `google_<symbol>`, `portfolio_full`) to entries that
  expire a number of seconds after they are written. `QuoteCache.Cache` is a
  class whose `slots` field the methods update.
- **The Yahoo Finance service.** It reads a current market price through the
  cache (`getCMP`). A batch of symbols (`getBatchCMP`) is answered from the
  cache where it can. The rest is fetched in consecutive chunks of five, in
  `YahooFinance`.
- **The Google Finance service.** It reads a P/E ratio through the cache. The
  ratio is the last stats row whose label contains "p/e ratio" and whose
  value parses as a number. The service also derives earnings per share from
  a price and a ratio. This is `GoogleFinance` and `Earnings`.
- **The portfolio route.** `GET /api/portfolio` serves the cached snapshot
  while it is live. Otherwise it builds one record per holding, groups the
  records by sector in first-seen order, and adds up the sector summaries and
  the totals. It then caches the snapshot for 120 seconds.
  `GET /api/portfolio/refresh` drops only the snapshot. This is
  `PortfolioRoute`, which holds the loops and the handlers, and
  `Aggregation`, which holds the pure computations.
- **The display helpers.** `getTimeAgo`, `formatINR`, `formatCompact` and
  `formatNumber` are modelled in `DisplayUtils`.

`JsNumbers` gives `Number.prototype.toFixed` and `parseFloat` a precise
meaning. Every `parseFloat(x.toFixed(d))` of the source is written
`Round(x, d)`, which rounds half away from zero. `JsNumbers.ParseFloatToFixed`
proves that this is what the composed expression yields.

The network is modelled as oracles:

- `chart` maps a symbol to the chart's `regularMarketPrice` or a failure.
- `page` maps a symbol to the quote page's stats rows or a failure.
- The current time `now` (ms) and the ISO time stamp `stamp` are parameters.

## Model

| member | source | states |
|---|---|---|
| QuoteCache.LookupAfterWrite | backend/src/services/cache.ts:4 | a key written with `ttl` seconds reads back as its entry until `now + ttl*1000` and as nothing after; writing or deleting a key leaves every other key's lookup unchanged |
| QuoteCache.LiveEarlier | backend/src/services/cache.ts:4 | an entry live at some instant was live, with the same value, at every earlier instant |
| QuoteCache.Cache.Set | backend/src/services/cache.ts:4 | the key alone is replaced, with expiry `now + ttl*1000`; the entry is readable at once and the namespaces stay well kinded |
| QuoteCache.Cache.Del | backend/src/routes/portfolio.ts:155 | only the key is removed, and it reads as absent at every time |
| QuoteCache.KeysDisjoint | backend/src/services/yahooFinance.ts:8 | `cmp_`, `google_` and `portfolio_full` keys never collide |
| QuoteCache.PriceKeyInjective | backend/src/services/yahooFinance.ts:8 | distinct symbols have distinct price keys |
| QuoteCache.GoogleKeyInjective | backend/src/services/googleFinance.ts:8 | distinct symbols have distinct P/E keys |
| YahooFinance.GetCMP | backend/src/services/yahooFinance.ts:7-37 | returns the live cached price, else the fetched price (null on failure); the cache changes as `AfterPrice` says; it fetched iff the key was not live |
| YahooFinance.PriceHit | backend/src/services/yahooFinance.ts:8-10 | a live price is answered from the cache and nothing is written |
| YahooFinance.PriceMiss | backend/src/services/yahooFinance.ts:25-36 | on a miss the fetched price is returned; a number is cached for 300 s, while null or a failure writes nothing |
| YahooFinance.PriceFrame | backend/src/services/yahooFinance.ts:29-31 | only the symbol's own key can change |
| YahooFinance.PriceStable | backend/src/services/yahooFinance.ts:7-37 | after one call, every symbol's answer is what it was before |
| YahooFinance.UncachedIsFilter | backend/src/services/yahooFinance.ts:43-51 | `uncached` holds exactly the input symbols without a live price |
| YahooFinance.SplitCached | backend/src/services/yahooFinance.ts:43-51 | the first loop answers the live symbols from the cache and queues the others in input order |
| YahooFinance.ChunksCover | backend/src/services/yahooFinance.ts:54-56 | the chunks concatenate to the queue; each is non-empty and at most 5 long, and every chunk but the last is exactly 5 |
| YahooFinance.FetchChunk | backend/src/services/yahooFinance.ts:57-61 | each symbol of a chunk gets its `getCMP` answer, and the other results are kept |
| YahooFinance.PriceWritesStable | backend/src/services/yahooFinance.ts:55-62 | a run of `getCMP` calls changes no symbol's answer |
| YahooFinance.PriceWritesWarm | backend/src/services/yahooFinance.ts:29-31 | after the calls, every symbol that got a price has it live in the cache |
| YahooFinance.GetBatchCMP | backend/src/services/yahooFinance.ts:40-65 | keys are exactly the input symbols, each with its `getCMP` answer; only the uncached symbols are fetched, in chunks of 5 |
| GoogleFinance.LastPEIsLastMatch | backend/src/services/googleFinance.ts:29-37 | the ratio is that of the last row whose label matches and whose value parses, and null iff no row qualifies |
| GoogleFinance.SelectPE | backend/src/services/googleFinance.ts:29-37 | the `.each` loop leaves `peRatio` at `LastPE` of the rows |
| GoogleFinance.GetGoogleFinanceData | backend/src/services/googleFinance.ts:7-46 | returns the live cached ratio, else the page's ratio (null on failure); the cache changes as `AfterGoogle` says |
| GoogleFinance.GoogleHit | backend/src/services/googleFinance.ts:8-10 | a live entry is returned and nothing is written |
| GoogleFinance.GoogleFailure | backend/src/services/googleFinance.ts:42-45 | a failed request yields null and writes nothing |
| GoogleFinance.GooglePageRead | backend/src/services/googleFinance.ts:39-41 | a page read is cached for 300 s, a null ratio included |
| GoogleFinance.GoogleFrame | backend/src/services/googleFinance.ts:39-41 | only the symbol's own key can change |
| GoogleFinance.GoogleStable | backend/src/services/googleFinance.ts:7-46 | after one call, every symbol's ratio is what it was before |
| GoogleFinance.GetPEAndEarnings | backend/src/services/googleFinance.ts:49-63 | the ratio as `getGoogleFinanceData` gives it, and the earnings derived from it |
| Earnings.DeriveEarnings | backend/src/services/googleFinance.ts:57-60 | earnings exist iff price and ratio are known and the ratio is positive, and then they are within half a cent of price / ratio |
| Earnings.NoPriceNoEarnings | backend/src/routes/portfolio.ts:37 | the null price passed by the route yields null earnings |
| JsNumbers.ParseFloatToFixed | backend/src/routes/portfolio.ts:75-80 | `parseFloat(x.toFixed(d))` is `Round(x, d)` |
| JsNumbers.RoundIsClose | backend/src/routes/portfolio.ts:75-80 | rounding to `d` places moves a number by at most half a unit in the last place |
| JsNumbers.RoundExact | backend/src/routes/portfolio.ts:75-80 | a number with at most `d` decimals rounds to itself |
| JsNumbers.ValueOfDigits | frontend/lib/utils.ts:35 | the decimal numeral of `n` reads back as `n` |
| JsStrings.RemoveCommas | backend/src/services/googleFinance.ts:34 | the result has no comma and keeps every other character as often as the input has it; text without commas is unchanged |
| JsStrings.RemoveCommasConcat | backend/src/services/googleFinance.ts:34 | a comma becomes nothing, any other character stays, and the result for `a + b` is the result for `a` followed by that for `b`, so the kept characters stay in order |
| JsStrings.Lower | backend/src/services/googleFinance.ts:30 | the same length; each upper-case ASCII letter becomes its lower-case letter, and every other character is unchanged |
| Aggregation.TotalInvestmentPositive | backend/src/routes/portfolio.ts:20-23 | the total investment of non-empty valid holdings is positive |
| Aggregation.PricedFigures | backend/src/routes/portfolio.ts:54-57 | present value, gain and gain percentage are each within half a cent of their exact values |
| Aggregation.BuildStock | backend/src/routes/portfolio.ts:51-85 | copies the holding's fields; price, present value, gain and gain percentage are null together; earnings are derived; the portfolio share is within 0.05 of exact |
| Aggregation.BuildStocks | backend/src/routes/portfolio.ts:51 | one record per holding, in holdings order |
| Aggregation.PercentsAddUp | backend/src/routes/portfolio.ts:70-72 | the records' portfolio shares add up to 100, within a twentieth of a point per record |
| Aggregation.StocksInvestment | backend/src/routes/portfolio.ts:52 | the records' investments add up to the total investment |
| Aggregation.SectorsInOrderSpec | backend/src/routes/portfolio.ts:88-94 | the sector keys are distinct, are exactly the records' sectors, and are ordered by first appearance |
| Aggregation.MembersOfSpec | backend/src/routes/portfolio.ts:89-92 | a group holds exactly the records of its sector |
| Aggregation.MembersInOrder | backend/src/routes/portfolio.ts:89-92 | a group keeps the records of its sector in holdings order |
| Aggregation.SectorPartition | backend/src/routes/portfolio.ts:94-98 | the groups partition the records, so any per-record sum is the same over the groups |
| Aggregation.PresentBranchesAgree | backend/src/routes/portfolio.ts:99-106 | without nulls, the plain sum equals the null-as-zero sum |
| Aggregation.SectorPresentValue | backend/src/routes/portfolio.ts:99-106 | whichever branch is taken, the value is the null-as-zero sum |
| Aggregation.Summarize | backend/src/routes/portfolio.ts:108-119 | the summary keeps the sector and its records; investment is their sum; value, gain and percent are each within half a cent of exact |
| Aggregation.BuildSectors | backend/src/routes/portfolio.ts:94-120 | one summary per listed sector, in that order |
| Aggregation.BuildTotals | backend/src/routes/portfolio.ts:123-138 | value, gain and percent are each within half a cent of the null-as-zero sums |
| Aggregation.SectorsDistinctInOrder | backend/src/routes/portfolio.ts:94 | the summaries' sectors are distinct and come in first-seen order |
| Aggregation.SectorMembersOwn | backend/src/routes/portfolio.ts:89-92 | each summary lists only records of its own sector |
| Aggregation.SectorCovers | backend/src/routes/portfolio.ts:89-92 | every record is listed under its own sector |
| Aggregation.SectorInvestmentsTotal | backend/src/routes/portfolio.ts:95-98 | the sector investments add up to the investment of all records |
| Aggregation.UnpricedTotals | backend/src/routes/portfolio.ts:123-127 | with no priced record the value is 0 and the loss is the whole investment |
| Aggregation.UnpricedSectors | backend/src/routes/portfolio.ts:99-113 | with no priced record every sector is worth 0 |
| Aggregation.BuildSnapshot | backend/src/routes/portfolio.ts:129-140 | the totals carry the holdings' total investment, and the stamp is the request's |
| Aggregation.SnapshotSectors | backend/src/routes/portfolio.ts:94-120 | the snapshot's sectors are the record groups, and their investments add up to the total |
| Aggregation.NoPricesTotals | backend/src/routes/portfolio.ts:123-138 | when no holding has a price, the portfolio is worth 0 and the gain is minus the investment |
| Aggregation.NoPricesNoSectorValue | backend/src/routes/portfolio.ts:99-113 | when no holding has a price, every sector is worth 0 |
| Aggregation.ExampleStock | backend/src/routes/portfolio.ts:51-85 | 10 shares bought at 100 and now at 120 make 1000 invested, 1200 present, +200, 20% and a 100% share |
| Aggregation.ExampleSector | backend/src/routes/portfolio.ts:103-106 | an unpriced record and one worth 500 make a sector worth 500 |
| PortfolioRoute.PricesKeepRatios | backend/src/routes/portfolio.ts:30-42 | the price fetches leave every symbol's ratio unchanged |
| PortfolioRoute.RatiosKeepPrices | backend/src/routes/portfolio.ts:30-42 | the ratio fetches leave every symbol's price unchanged |
| PortfolioRoute.FetchRatios | backend/src/routes/portfolio.ts:34-41 | one result per holding, in order, each with the ratio read against the cache at the start |
| PortfolioRoute.RatioResultsAt | backend/src/routes/portfolio.ts:34-41 | the i-th result is the i-th Google symbol with its ratio |
| PortfolioRoute.BuildGoogleMap | backend/src/routes/portfolio.ts:45-48 | the keys are exactly the results' symbols, and each holds the ratio of the last result for that symbol |
| PortfolioRoute.GoogleMapOfResults | backend/src/routes/portfolio.ts:45-48 | results that carry a map's values, one per symbol, rebuild that map |
| PortfolioRoute.GroupBySector | backend/src/routes/portfolio.ts:88-92 | the keys come in first-seen order, and each holds its sector's records in holdings order |
| PortfolioRoute.GroupsSummarized | backend/src/routes/portfolio.ts:94-120 | summarising the groups in key order gives the sector summaries of the records |
| PortfolioRoute.FetchQuotes | backend/src/routes/portfolio.ts:28-48 | `cmpMap` and `googleMap` are the maps read against the cache at the start |
| PortfolioRoute.BuildResponse | backend/src/routes/portfolio.ts:20-140 | the response is the snapshot of the holdings for those maps |
| PortfolioRoute.GetPortfolio | backend/src/routes/portfolio.ts:10-145 | a live snapshot is served unchanged; otherwise the snapshot is built from the maps read at the start, written for 120 s and readable for that long |
| PortfolioRoute.RefilledReadsAlike | backend/src/routes/portfolio.ts:30-42 | after a rebuild every symbol reads the same price and ratio as before it |
| PortfolioRoute.DropKeepsQuotes | backend/src/routes/portfolio.ts:152-157 | dropping the snapshot removes it and keeps every price and ratio |
| PortfolioRoute.Refresh | backend/src/routes/portfolio.ts:154-157 | only the snapshot key is removed; the answer is "Cache cleared." with the request time |
| DisplayUtils.JustNow | frontend/lib/utils.ts:31-32 | "Just now" iff less than 60 000 ms have elapsed, a negative interval included |
| DisplayUtils.MinutesAgo | frontend/lib/utils.ts:33-35 | from 1 to 59 whole minutes: "1 min ago" for one, "N min ago" with N in 2..59 otherwise |
| DisplayUtils.HoursAgo | frontend/lib/utils.ts:36-38 | from one hour: "1 hr ago" for one, "N hrs ago" with N at least 2 otherwise |
| DisplayUtils.MinutesReadBack | frontend/lib/utils.ts:35 | the number in "N min ago" reads back as the whole minutes elapsed |
| DisplayUtils.MissingIsDash | frontend/lib/utils.ts:2 | every formatter shows the em dash for null |
| DisplayUtils.CompactCrore | frontend/lib/utils.ts:14-16 | from 10^7 the text is sign, rupee, crores to two decimals and " Cr"; the figure is at least 1.00 and within half a hundredth |
| DisplayUtils.CompactLakh | frontend/lib/utils.ts:17-19 | from 10^5 to 10^7 the text is in lakhs and " L"; the figure is between 1.00 and 100.00 and within half a hundredth |
| DisplayUtils.CompactPlain | frontend/lib/utils.ts:20 | below 10^5 the amount goes to `formatINR` |
| DisplayUtils.CompactSign | frontend/lib/utils.ts:12-13 | in the crore and lakh forms the text starts with "-" iff the amount is negative, then the rupee sign |

## Left out

- Concurrency: the two `Promise.all` branches of the route, and the symbols inside a chunk, run one after the other (prices first). `PricesKeepRatios` and `RatiosKeepPrices` show neither fetch changes what the other reads. When a batch repeats a symbol, the second call reads the price the first one cached, and the answer is the same.
- HTTP, Cheerio and the HTML selectors are oracles. The model starts from the chart's `regularMarketPrice` and from the page's (label, value) stats rows.
- Floating point: numbers are exact reals. `toFixed` rounds the exact real half away from zero; binary representation errors are not modelled.
- `ToFixed`: the exponent form that `toFixed` uses from 10^21 upward is not modelled.
- `ParseFloat`: the text "Infinity" is read as not a number, where `parseFloat` gives Infinity. Only decimal literals with an optional exponent are modelled.
- Empty holdings: the source then divides 0 by 0 and computes `NaN` for the percentage figures, which the JSON body shows as `null`. The model requires a non-empty list with positive prices and quantities (`ValidHoldings`).
- `Object.entries` lists integer-like keys first. The model keeps insertion order, as for the sector names the holdings use.
- Plain-object lookups: a symbol or sector named like an `Object.prototype` member (for example "constructor") is not modelled.
- NodeCache internals are not modelled: the periodic sweep (`checkperiod`), cloning of stored values, and the second granularity of its clock. Expiry is read at every lookup.
- `Intl.NumberFormat` is an oracle `intl`. `formatNumber`'s default of 2 decimals is an explicit argument.
- `JsStrings.Lower` lower-cases ASCII letters only. JavaScript's full Unicode case mapping is not modelled.
- `getTimeAgo` takes the time stamps in ms. An invalid `Date` (NaN) is not modelled.
- Express, `res.json`, the response headers and `console.error` are not modelled. `Date.now()` and `new Date().toISOString()` are the parameters `now` and `stamp`.
- The route's 500 branch is unreachable in the model: the services never throw (their errors become null).
- The services make one request per symbol and never retry; the route never flushes the whole cache. The model does the same.
- `Aggregation.BuildStock` states its rounded figures through `PricedFigures`, within half a cent of the exact values, and not as closed formulas.
- `QuoteCache.Cache.Set` with a `ttl` of 0 makes the entry expire at `now`, where NodeCache keeps it forever. Every call in the model passes 300 or 120.
- Type casts in the cache (`cached as number`) are modelled by keeping each namespace to one kind of entry (`WellKinded`).
