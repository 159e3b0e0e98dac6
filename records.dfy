/**
 * The records the portfolio route reads and produces: the static holdings,
 * the per-stock records, the per-sector summaries and the snapshot that is
 * served and cached as one value.
 */
module Records {
  import opened Options

  /** One line of the static holdings list. */
  datatype Holding = Holding(
    name: string,
    purchasePrice: real,
    qty: int,
    exchange: string,
    sector: string,
    yahooSymbol: string,
    googleSymbol: string)

  /** A holding enriched with live data; the `Option` fields are `null` in the JSON. */
  datatype StockRecord = StockRecord(
    name: string,
    purchasePrice: real,
    qty: int,
    investment: real,
    portfolioPercent: real,
    exchange: string,
    cmp: Option<real>,
    presentValue: Option<real>,
    gainLoss: Option<real>,
    gainLossPercent: Option<real>,
    peRatio: Option<real>,
    latestEarnings: Option<real>,
    sector: string)

  datatype SectorSummary = SectorSummary(
    sector: string,
    totalInvestment: real,
    totalPresentValue: real,
    gainLoss: real,
    gainLossPercent: real,
    stocks: seq<StockRecord>)

  datatype Totals = Totals(
    totalInvestment: real,
    totalPresentValue: real,
    totalGainLoss: real,
    totalGainLossPercent: real)

  /** The whole response of `GET /api/portfolio`; `lastUpdated` is the ISO-8601 stamp. */
  datatype Snapshot = Snapshot(sectors: seq<SectorSummary>, totals: Totals, lastUpdated: string)

  /** A positive purchase price and quantity: every percentage divides by an investment. */
  predicate ValidHolding(h: Holding) {
    h.purchasePrice > 0.0 && h.qty > 0
  }

  /** A non-empty list of valid holdings, so that the total investment is positive. */
  predicate ValidHoldings(hs: seq<Holding>) {
    |hs| > 0 && forall i | 0 <= i < |hs| :: ValidHolding(hs[i])
  }
}
