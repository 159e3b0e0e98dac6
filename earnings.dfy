/**
 * Earnings per share derived from a market price and a P/E ratio, the one
 * guarded division both the Google Finance service and the portfolio route
 * perform.
 */
module Earnings {
  import opened Options
  import opened JsNumbers

  /**
   * `parseFloat((cmp / peRatio).toFixed(2))` when both are known and the
   * ratio is positive, `null` otherwise.
   */
  function DeriveEarnings(cmp: Option<real>, peRatio: Option<real>): (eps: Option<real>)
    ensures eps.Some? <==> cmp.Some? && peRatio.Some? && peRatio.value > 0.0
    ensures eps.Some? ==> Abs(eps.value - cmp.value / peRatio.value) <= 0.005
  {
    if cmp.Some? && peRatio.Some? && peRatio.value > 0.0 then
      var x := cmp.value / peRatio.value;
      RoundIsClose(x, 2);
      assert Pow10(2) == 100;
      Some(Round(x, 2))
    else
      None
  }

  /** Without a price there are no earnings, whatever the ratio. */
  lemma NoPriceNoEarnings(peRatio: Option<real>)
    ensures DeriveEarnings(None, peRatio) == None
  {
  }
}
