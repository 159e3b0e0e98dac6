/**
 * The portfolio route. `GET /api/portfolio` serves the cached snapshot when
 * it is live; otherwise it reads every holding's price through the batch
 * price service and its P/E ratio through the Google service, builds the
 * records, groups them by sector, adds up the totals and caches the result
 * for two minutes. `GET /api/portfolio/refresh` drops the snapshot and keeps
 * the per-symbol entries.
 *
 * The handler runs the two fetches concurrently; here they run one after the
 * other, the prices first. They write disjoint namespaces of the cache, so
 * neither changes what the other reads (`PricesKeepRatios`,
 * `RatiosKeepPrices`).
 */
module PortfolioRoute {
  import opened Options
  import opened Records
  import opened QuoteCache
  import opened YahooFinance
  import opened GoogleFinance
  import opened Aggregation

  /** One element of `googleResults`. */
  datatype GoogleResult = GoogleResult(googleSymbol: string, peRatio: Option<real>)

  /** `holdings.map(h => h.yahooSymbol)`. */
  function YahooSymbols(hs: seq<Holding>): seq<string> {
    seq(|hs|, i requires 0 <= i < |hs| => hs[i].yahooSymbol)
  }

  function GoogleSymbols(hs: seq<Holding>): seq<string> {
    seq(|hs|, i requires 0 <= i < |hs| => hs[i].googleSymbol)
  }

  // ------------------------------------------------------- P/E ratio writes

  /** The cache after `getGoogleFinanceData` was called on each of `syms` in turn. */
  function GoogleWrites(slots: map<string, Slot>, syms: seq<string>, page: string -> PageReply, now: int)
    : map<string, Slot>
  {
    if syms == [] then slots
    else AfterGoogle(GoogleWrites(slots, syms[..|syms| - 1], page, now), syms[|syms| - 1], page, now)
  }

  /** The calls keep the cache well kinded and every symbol's ratio the same. */
  lemma {:induction false} GoogleWritesStable(slots: map<string, Slot>, syms: seq<string>,
                                              page: string -> PageReply, now: int)
    requires WellKinded(slots)
    ensures WellKinded(GoogleWrites(slots, syms, page, now))
    ensures forall s :: ExpectedPE(GoogleWrites(slots, syms, page, now), s, page, now)
                     == ExpectedPE(slots, s, page, now)
  {
    if syms != [] {
      var init := syms[..|syms| - 1];
      var mid := GoogleWrites(slots, init, page, now);
      GoogleWritesStable(slots, init, page, now);
      GoogleFrame(mid, syms[|syms| - 1], page, now);
      forall s
        ensures ExpectedPE(AfterGoogle(mid, syms[|syms| - 1], page, now), s, page, now)
             == ExpectedPE(mid, s, page, now)
      {
        GoogleStable(mid, syms[|syms| - 1], s, page, now);
      }
    }
  }

  /** The calls touch only keys of the P/E namespace. */
  lemma {:induction false} GoogleWritesFrame(slots: map<string, Slot>, syms: seq<string>,
                                             page: string -> PageReply, now: int)
    requires WellKinded(slots)
    ensures forall k | !IsGoogleKey(k) ::
      (k in GoogleWrites(slots, syms, page, now) <==> k in slots)
      && (k in slots ==> GoogleWrites(slots, syms, page, now)[k] == slots[k])
  {
    if syms != [] {
      var init := syms[..|syms| - 1];
      GoogleWritesFrame(slots, init, page, now);
      GoogleWritesStable(slots, init, page, now);
      var last := syms[|syms| - 1];
      KeysDisjoint([], last);
      GoogleFrame(GoogleWrites(slots, init, page, now), last, page, now);
    }
  }

  /** Fetching prices does not change any symbol's ratio. */
  lemma PricesKeepRatios(slots: map<string, Slot>, syms: seq<string>, chart: string -> ChartReply,
                         page: string -> PageReply, now: int)
    requires WellKinded(slots)
    ensures WellKinded(PriceWrites(slots, syms, chart, now))
    ensures forall g :: ExpectedPE(PriceWrites(slots, syms, chart, now), g, page, now)
                     == ExpectedPE(slots, g, page, now)
  {
    PriceWritesStable(slots, syms, chart, now);
    PriceWritesFrame(slots, syms, chart, now);
    forall g
      ensures ExpectedPE(PriceWrites(slots, syms, chart, now), g, page, now) == ExpectedPE(slots, g, page, now)
    {
      KeysDisjoint([], g);
    }
  }

  /** Fetching ratios does not change any symbol's price. */
  lemma RatiosKeepPrices(slots: map<string, Slot>, syms: seq<string>, chart: string -> ChartReply,
                         page: string -> PageReply, now: int)
    requires WellKinded(slots)
    ensures WellKinded(GoogleWrites(slots, syms, page, now))
    ensures forall s :: ExpectedPrice(GoogleWrites(slots, syms, page, now), s, chart, now)
                     == ExpectedPrice(slots, s, chart, now)
  {
    GoogleWritesStable(slots, syms, page, now);
    GoogleWritesFrame(slots, syms, page, now);
    forall s
      ensures ExpectedPrice(GoogleWrites(slots, syms, page, now), s, chart, now) == ExpectedPrice(slots, s, chart, now)
    {
      KeysDisjoint(s, []);
    }
  }

  // --------------------------------------------------------- what is read

  /** `cmpMap` as `getBatchCMP` returns it for `syms` against `slots`. */
  function PriceMap(slots: map<string, Slot>, syms: seq<string>, chart: string -> ChartReply, now: int)
    : map<string, Option<real>>
    requires WellKinded(slots)
  {
    map s | s in syms :: ExpectedPrice(slots, s, chart, now)
  }

  /** `googleMap` as the handler builds it for `syms` against `slots`. */
  function RatioMap(slots: map<string, Slot>, syms: seq<string>, page: string -> PageReply, now: int)
    : map<string, Option<real>>
    requires WellKinded(slots)
  {
    map s | s in syms :: ExpectedPE(slots, s, page, now)
  }

  /** The answers of `getBatchCMP` make up the price map. */
  lemma BatchIsPriceMap(results: map<string, Option<real>>, slots: map<string, Slot>, syms: seq<string>,
                        chart: string -> ChartReply, now: int)
    requires WellKinded(slots)
    requires results.Keys == SetOf(syms)
    requires forall s | s in syms :: results[s] == ExpectedPrice(slots, s, chart, now)
    ensures results == PriceMap(slots, syms, chart, now)
  {
  }

  /** Fetching prices leaves the ratio map as it was. */
  lemma PricesKeepRatioMap(slots: map<string, Slot>, calls: seq<string>, syms: seq<string>,
                           chart: string -> ChartReply, page: string -> PageReply, now: int)
    requires WellKinded(slots)
    ensures WellKinded(PriceWrites(slots, calls, chart, now))
    ensures RatioMap(PriceWrites(slots, calls, chart, now), syms, page, now) == RatioMap(slots, syms, page, now)
  {
    PricesKeepRatios(slots, calls, chart, page, now);
  }

  /** The cache after a rebuild's price and ratio fetches, before the snapshot is stored. */
  function Refilled(slots: map<string, Slot>, hs: seq<Holding>, chart: string -> ChartReply,
                    page: string -> PageReply, now: int): map<string, Slot>
  {
    GoogleWrites(PriceWrites(slots, Uncached(slots, YahooSymbols(hs), now), chart, now),
                 GoogleSymbols(hs), page, now)
  }

  /**
   * A rebuild leaves every symbol's price and ratio as it read them, so a
   * rebuild right after it (once the snapshot is dropped) reads the same maps
   * from the cache and builds the same snapshot.
   */
  lemma RefilledReadsAlike(slots: map<string, Slot>, hs: seq<Holding>, chart: string -> ChartReply,
                           page: string -> PageReply, now: int)
    requires WellKinded(slots)
    ensures WellKinded(Refilled(slots, hs, chart, page, now))
    ensures PriceMap(Refilled(slots, hs, chart, page, now), YahooSymbols(hs), chart, now)
         == PriceMap(slots, YahooSymbols(hs), chart, now)
    ensures RatioMap(Refilled(slots, hs, chart, page, now), GoogleSymbols(hs), page, now)
         == RatioMap(slots, GoogleSymbols(hs), page, now)
  {
    var calls := Uncached(slots, YahooSymbols(hs), now);
    var mid := PriceWrites(slots, calls, chart, now);
    PriceWritesStable(slots, calls, chart, now);
    PricesKeepRatios(slots, calls, chart, page, now);
    RatiosKeepPrices(mid, GoogleSymbols(hs), chart, page, now);
    GoogleWritesStable(mid, GoogleSymbols(hs), page, now);
  }

  /** Dropping the snapshot keeps every symbol's price and ratio for the next rebuild. */
  lemma DropKeepsQuotes(slots: map<string, Slot>, chart: string -> ChartReply, page: string -> PageReply, now: int)
    requires WellKinded(slots)
    ensures WellKinded(slots - {PortfolioKey})
    ensures forall t :: Lookup(slots - {PortfolioKey}, PortfolioKey, t).None?
    ensures forall s :: ExpectedPrice(slots - {PortfolioKey}, s, chart, now) == ExpectedPrice(slots, s, chart, now)
    ensures forall g :: ExpectedPE(slots - {PortfolioKey}, g, page, now) == ExpectedPE(slots, g, page, now)
  {
    forall s
      ensures PriceKey(s) != PortfolioKey && GoogleKey(s) != PortfolioKey
    {
      KeysDisjoint(s, s);
    }
  }

  // ------------------------------------------------------- the P/E fetches

  /** What the fetches of `syms` return, each read against the cache `slots` held before them. */
  function RatioResults(slots: map<string, Slot>, syms: seq<string>, page: string -> PageReply, now: int)
    : seq<GoogleResult>
    requires WellKinded(slots)
  {
    if syms == [] then []
    else
      var last := syms[|syms| - 1];
      RatioResults(slots, syms[..|syms| - 1], page, now) + [GoogleResult(last, ExpectedPE(slots, last, page, now))]
  }

  /** One result per symbol, in order, each with the ratio a lone read would give. */
  lemma {:induction false} RatioResultsAt(slots: map<string, Slot>, syms: seq<string>, page: string -> PageReply, now: int)
    requires WellKinded(slots)
    ensures |RatioResults(slots, syms, page, now)| == |syms|
    ensures forall k | 0 <= k < |syms| ::
      RatioResults(slots, syms, page, now)[k] == GoogleResult(syms[k], ExpectedPE(slots, syms[k], page, now))
  {
    if syms != [] {
      var n := |syms| - 1;
      RatioResultsAt(slots, syms[..n], page, now);
      var r := RatioResults(slots, syms, page, now);
      forall k | 0 <= k < |syms|
        ensures r[k] == GoogleResult(syms[k], ExpectedPE(slots, syms[k], page, now))
      {
        if k < n {
          assert syms[..n][k] == syms[k];
        }
      }
    }
  }

  /** The `Promise.all` over the holdings: each holding's ratio through the cache, in holdings order. */
  method FetchRatios(cache: Cache, holdings: seq<Holding>, page: string -> PageReply, now: int)
    returns (results: seq<GoogleResult>)
    requires cache.Valid()
    modifies cache
    ensures cache.Valid()
    ensures cache.slots == GoogleWrites(old(cache.slots), GoogleSymbols(holdings), page, now)
    ensures results == RatioResults(old(cache.slots), GoogleSymbols(holdings), page, now)
  {
    ghost var start := cache.slots;
    ghost var syms := GoogleSymbols(holdings);
    results := [];
    var i := 0;
    while i < |holdings|
      invariant 0 <= i <= |holdings| && cache.Valid() && WellKinded(start)
      invariant cache.slots == GoogleWrites(start, syms[..i], page, now)
      invariant results == RatioResults(start, syms[..i], page, now)
    {
      var sym := holdings[i].googleSymbol;
      assert sym == syms[i];
      RatioStep(start, syms, i, page, now);
      var peRatio, latestEarnings := GetPEAndEarnings(cache, sym, None, page, now);
      results := results + [GoogleResult(sym, peRatio)];
      i := i + 1;
    }
    assert syms[..i] == syms;
  }

  /** The `i`-th fetch reads the ratio the cache held at the start, and appends one write. */
  lemma RatioStep(start: map<string, Slot>, syms: seq<string>, i: nat, page: string -> PageReply, now: int)
    requires WellKinded(start) && i < |syms|
    ensures WellKinded(GoogleWrites(start, syms[..i], page, now))
    ensures ExpectedPE(GoogleWrites(start, syms[..i], page, now), syms[i], page, now)
         == ExpectedPE(start, syms[i], page, now)
    ensures GoogleWrites(start, syms[..i + 1], page, now)
         == AfterGoogle(GoogleWrites(start, syms[..i], page, now), syms[i], page, now)
    ensures RatioResults(start, syms[..i + 1], page, now)
         == RatioResults(start, syms[..i], page, now) + [GoogleResult(syms[i], ExpectedPE(start, syms[i], page, now))]
  {
    GoogleWritesStable(start, syms[..i], page, now);
    assert syms[..i + 1][..i] == syms[..i];
  }

  /**
   * The `for … of googleResults` loop: every symbol of the results is a key,
   * and a later result for the same symbol overwrites an earlier one.
   */
  method BuildGoogleMap(results: seq<GoogleResult>) returns (googleMap: map<string, Option<real>>)
    ensures forall s :: s in googleMap <==> exists i | 0 <= i < |results| :: results[i].googleSymbol == s
    ensures forall s | s in googleMap :: exists i | 0 <= i < |results| ::
      && results[i].googleSymbol == s && googleMap[s] == results[i].peRatio
      && forall j | i < j < |results| :: results[j].googleSymbol != s
  {
    googleMap := map[];
    var n := 0;
    while n < |results|
      invariant 0 <= n <= |results|
      invariant forall s :: s in googleMap <==> exists i | 0 <= i < n :: results[i].googleSymbol == s
      invariant forall s | s in googleMap :: exists i | 0 <= i < n ::
        && results[i].googleSymbol == s && googleMap[s] == results[i].peRatio
        && forall j | i < j < n :: results[j].googleSymbol != s
    {
      var g := results[n];
      googleMap := googleMap[g.googleSymbol := g.peRatio];
      n := n + 1;
    }
  }

  /** Results that each carry the value `want` gives their symbol make the map `want`. */
  lemma GoogleMapOfResults(results: seq<GoogleResult>, googleMap: map<string, Option<real>>,
                           syms: seq<string>, want: map<string, Option<real>>)
    requires |results| == |syms| && forall s :: s in want <==> s in syms
    requires forall i | 0 <= i < |syms| :: syms[i] in want && results[i] == GoogleResult(syms[i], want[syms[i]])
    requires forall s :: s in googleMap <==> exists i | 0 <= i < |results| :: results[i].googleSymbol == s
    requires forall s | s in googleMap :: exists i | 0 <= i < |results| ::
      results[i].googleSymbol == s && googleMap[s] == results[i].peRatio
    ensures googleMap == want
  {
    forall s
      ensures s in googleMap <==> s in syms
    {
      if s in syms {
        var i :| 0 <= i < |syms| && syms[i] == s;
        assert results[i].googleSymbol == s;
      }
    }
    forall s | s in googleMap
      ensures googleMap[s] == want[s]
    {
      var i :| 0 <= i < |results| && results[i].googleSymbol == s && googleMap[s] == results[i].peRatio;
      assert syms[i] == s;
    }
  }

  /** The fetch results carry, symbol by symbol, the values of the map of ratios. */
  lemma ResultsCarryRatios(slots: map<string, Slot>, syms: seq<string>, page: string -> PageReply, now: int)
    requires WellKinded(slots)
    ensures var results := RatioResults(slots, syms, page, now);
      var ratios := RatioMap(slots, syms, page, now);
      && |results| == |syms| && (forall s :: s in ratios <==> s in syms)
      && forall i | 0 <= i < |syms| :: syms[i] in ratios && results[i] == GoogleResult(syms[i], ratios[syms[i]])
  {
    RatioResultsAt(slots, syms, page, now);
  }

  // ---------------------------------------------------------- the grouping

  /** One more record: its sector joins the list if new, and it joins its sector's group. */
  lemma GroupStep(ss: seq<StockRecord>, i: nat)
    requires i < |ss|
    ensures SectorsInOrder(ss[..i + 1]) == if ss[i].sector in SectorsInOrder(ss[..i]) then SectorsInOrder(ss[..i])
                                           else SectorsInOrder(ss[..i]) + [ss[i].sector]
    ensures forall l :: MembersOf(ss[..i + 1], l)
                     == MembersOf(ss[..i], l) + if ss[i].sector == l then [ss[i]] else []
  {
    var next := ss[..i + 1];
    assert next[..i] == ss[..i];
  }

  /** A sector not yet listed has no members yet. */
  lemma {:induction false} UnlistedHasNoMembers(ss: seq<StockRecord>, l: string)
    requires l !in SectorsInOrder(ss)
    ensures MembersOf(ss, l) == []
  {
    if ss != [] {
      var init := ss[..|ss| - 1];
      assert l !in SectorsInOrder(init);
      UnlistedHasNoMembers(init, l);
    }
  }

  /**
   * The `sectorMap` loop: `order` is the insertion order of its keys (the
   * order `Object.entries` lists them), and each key holds its sector's
   * records in holdings order.
   */
  method GroupBySector(stocks: seq<StockRecord>) returns (order: seq<string>, groups: map<string, seq<StockRecord>>)
    ensures order == SectorsInOrder(stocks)
    ensures forall l :: l in groups <==> l in order
    ensures forall l | l in groups :: groups[l] == MembersOf(stocks, l)
  {
    order := [];
    groups := map[];
    var i := 0;
    while i < |stocks|
      invariant 0 <= i <= |stocks|
      invariant order == SectorsInOrder(stocks[..i])
      invariant forall l :: l in groups <==> l in order
      invariant forall l | l in groups :: groups[l] == MembersOf(stocks[..i], l)
    {
      var stock := stocks[i];
      GroupStep(stocks, i);
      if stock.sector !in groups {
        UnlistedHasNoMembers(stocks[..i], stock.sector);
        groups := groups[stock.sector := []];
        order := order + [stock.sector];
      }
      groups := groups[stock.sector := groups[stock.sector] + [stock]];
      i := i + 1;
    }
    assert stocks[..i] == stocks;
  }

  /** Summarising the groups in key order gives the sector summaries of the records. */
  lemma GroupsSummarized(stocks: seq<StockRecord>, order: seq<string>, groups: map<string, seq<StockRecord>>,
                         sectors: seq<SectorSummary>)
    requires forall k | 0 <= k < |stocks| :: stocks[k].investment > 0.0
    requires order == SectorsInOrder(stocks)
    requires forall l :: l in groups <==> l in order
    requires forall l | l in groups :: groups[l] == MembersOf(stocks, l)
    requires |sectors| == |order|
    requires forall j | 0 <= j < |order| ::
      SumBy(groups[order[j]], InvestmentOf) > 0.0 && sectors[j] == Summarize(order[j], groups[order[j]])
    ensures sectors == SectorsOf(stocks)
  {
    SectorsOfShape(stocks);
  }

  // -------------------------------------------------------------- handlers

  /**
   * Step 2 of the handler: `getBatchCMP` over the Yahoo symbols, then the
   * ratios of the Google symbols collected into `googleMap`.
   */
  method FetchQuotes(cache: Cache, holdings: seq<Holding>, chart: string -> ChartReply,
                     page: string -> PageReply, now: int)
    returns (cmpMap: map<string, Option<real>>, googleMap: map<string, Option<real>>)
    requires cache.Valid()
    modifies cache
    ensures cache.Valid()
    ensures cmpMap == PriceMap(old(cache.slots), YahooSymbols(holdings), chart, now)
    ensures googleMap == RatioMap(old(cache.slots), GoogleSymbols(holdings), page, now)
    ensures cache.slots == Refilled(old(cache.slots), holdings, chart, page, now)
  {
    ghost var start := cache.slots;
    var yahooSymbols := YahooSymbols(holdings);
    ghost var calls, batches;
    cmpMap, calls, batches := GetBatchCMP(cache, yahooSymbols, chart, now);
    BatchIsPriceMap(cmpMap, start, yahooSymbols, chart, now);
    ghost var mid := cache.slots;
    PricesKeepRatioMap(start, calls, GoogleSymbols(holdings), chart, page, now);

    var googleResults := FetchRatios(cache, holdings, page, now);
    googleMap := BuildGoogleMap(googleResults);
    ResultsCarryRatios(mid, GoogleSymbols(holdings), page, now);
    GoogleMapOfResults(googleResults, googleMap, GoogleSymbols(holdings), RatioMap(mid, GoogleSymbols(holdings), page, now));
  }

  /**
   * Steps 1 and 3 to 5 of the handler: the total investment, the records,
   * the `sectorMap` grouping and its summaries, and the totals, made into the
   * response body.
   */
  method BuildResponse(holdings: seq<Holding>, cmpMap: map<string, Option<real>>,
                       googleMap: map<string, Option<real>>, stamp: string) returns (snap: Snapshot)
    requires ValidHoldings(holdings)
    ensures snap == BuildSnapshot(holdings, cmpMap, googleMap, stamp)
  {
    var totalInvestment := TotalInvestment(holdings);
    TotalInvestmentPositive(holdings);
    var stocks := BuildStocks(holdings, cmpMap, googleMap, totalInvestment);
    assert stocks == StocksOf(holdings, cmpMap, googleMap);
    var order, groups := GroupBySector(stocks);
    SectorsPositive(stocks);
    var sectors := seq(|order|, j requires 0 <= j < |order| => Summarize(order[j], groups[order[j]]));
    GroupsSummarized(stocks, order, groups, sectors);
    var totals := BuildTotals(stocks, totalInvestment);
    snap := Snapshot(sectors, totals, stamp);
  }

  /**
   * `GET /api/portfolio`. A live snapshot is served as it is and nothing
   * changes. Otherwise the snapshot is built from the prices and ratios read
   * through the cache, the cache keeps what those reads wrote, and the new
   * snapshot is stored for two minutes. `stamp` is the ISO-8601 time of the
   * request.
   */
  method GetPortfolio(cache: Cache, holdings: seq<Holding>, chart: string -> ChartReply,
                      page: string -> PageReply, now: int, stamp: string)
    returns (snap: Snapshot, ghost fetched: bool)
    requires cache.Valid() && ValidHoldings(holdings)
    modifies cache
    ensures cache.Valid()
    ensures fetched <==> !Live(old(cache.slots), PortfolioKey, now)
    ensures !fetched ==> Lookup(old(cache.slots), PortfolioKey, now) == Some(Report(snap))
                         && cache.slots == old(cache.slots)
    ensures fetched ==>
      snap == BuildSnapshot(holdings, PriceMap(old(cache.slots), YahooSymbols(holdings), chart, now),
                            RatioMap(old(cache.slots), GoogleSymbols(holdings), page, now), stamp)
    ensures fetched ==>
      cache.slots == Refilled(old(cache.slots), holdings, chart, page, now)
                       [PortfolioKey := Slot(Report(snap), Expiry(now, SnapshotTtl))]
    ensures fetched ==> forall t | now <= t <= now + 120000 :: Lookup(cache.slots, PortfolioKey, t) == Some(Report(snap))
  {
    var cached := Lookup(cache.slots, PortfolioKey, now);
    if cached.Some? {
      assert KindFits(PortfolioKey, cache.slots[PortfolioKey].entry);
      return cached.value.snapshot, false;
    }
    fetched := true;
    var cmpMap, googleMap := FetchQuotes(cache, holdings, chart, page, now);
    snap := BuildResponse(holdings, cmpMap, googleMap, stamp);
    KeysDisjoint([], []);
    cache.Set(PortfolioKey, Report(snap), SnapshotTtl, now);
  }

  /**
   * `GET /api/portfolio/refresh`: drops the snapshot and nothing else, and
   * answers with its message and the time (ms) of the request.
   */
  method Refresh(cache: Cache, now: int) returns (message: string, timestamp: int)
    requires cache.Valid()
    modifies cache
    ensures cache.Valid()
    ensures cache.slots == old(cache.slots) - {PortfolioKey}
    ensures message == "Cache cleared." && timestamp == now
  {
    cache.Del(PortfolioKey);
    message := "Cache cleared.";
    timestamp := now;
  }
}
