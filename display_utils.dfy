/**
 * The display helpers of the frontend: how long ago a time stamp was, and
 * amounts written in rupees, compactly in crores (10^7) and lakhs (10^5).
 * `Intl.NumberFormat` is an oracle `intl` from a number to its text; the
 * current time is a parameter in milliseconds.
 */
module DisplayUtils {
  import opened Options
  import opened JsNumbers

  /** The em dash shown for a missing amount. */
  const Dash: string := "\U{2014}"

  const Rupee: string := "\U{20B9}"

  const Crore: real := 10000000.0
  const Lakh: real := 100000.0

  // ------------------------------------------------------------- time ago

  /**
   * `getTimeAgo(date)` at the instant `now` (both in ms since the epoch):
   * elapsed whole seconds, then whole minutes, then whole hours. Dafny's
   * `/` by a positive divisor rounds down, as `Math.floor` does.
   */
  function TimeAgo(now: int, date: int): string {
    var seconds := (now - date) / 1000;
    if seconds < 60 then "Just now"
    else
      var minutes := seconds / 60;
      if minutes == 1 then "1 min ago"
      else if minutes < 60 then Digits(minutes) + " min ago"
      else
        var hours := minutes / 60;
        if hours == 1 then "1 hr ago"
        else Digits(hours) + " hrs ago"
  }

  /** Under a minute, a negative interval included, it is "Just now", and only then. */
  lemma JustNow(now: int, date: int)
    ensures TimeAgo(now, date) == "Just now" <==> now - date < 60000
  {
    var e := now - date;
    assert e / 1000 < 60 <==> e < 60000;
    if e / 1000 >= 60 {
      var s := TimeAgo(now, date);
      assert s[|s| - 1] == 'o';
    }
  }

  /** Whole minutes from 1 to 59 are counted in minutes. */
  lemma MinutesAgo(now: int, date: int)
    requires 60000 <= now - date < 3600000
    ensures now - date < 120000 ==> TimeAgo(now, date) == "1 min ago"
    ensures now - date >= 120000 ==>
      && 2 <= (now - date) / 60000 <= 59
      && TimeAgo(now, date) == Digits((now - date) / 60000) + " min ago"
  {
    assert (now - date) / 1000 / 60 == (now - date) / 60000;
  }

  /** From one hour on the whole hours are counted, singular for exactly one. */
  lemma HoursAgo(now: int, date: int)
    requires now - date >= 3600000
    ensures now - date < 7200000 ==> TimeAgo(now, date) == "1 hr ago"
    ensures now - date >= 7200000 ==>
      && (now - date) / 3600000 >= 2
      && TimeAgo(now, date) == Digits((now - date) / 3600000) + " hrs ago"
  {
    var e := now - date;
    assert e / 1000 / 60 / 60 == e / 3600000;
  }

  /** The number in "N min ago" reads back as the whole minutes elapsed. */
  lemma MinutesReadBack(now: int, date: int)
    requires 120000 <= now - date < 3600000
    ensures var s := TimeAgo(now, date);
      && |s| > 8 && s[|s| - 8..] == " min ago"
      && AllDigits(s[..|s| - 8]) && Value(s[..|s| - 8]) == (now - date) / 60000
  {
    MinutesAgo(now, date);
    var n := (now - date) / 60000;
    var s := TimeAgo(now, date);
    assert s[..|s| - 8] == Digits(n);
    ValueOfDigits(n);
  }

  // -------------------------------------------------------------- amounts

  /**
   * `formatINR(amount)`: the em dash for `null`, otherwise the currency text
   * `intl` gives (rupees, no decimals).
   */
  function FormatINR(amount: Option<real>, intl: real -> string): string {
    match amount
    case None => Dash
    case Some(a) => intl(a)
  }

  /** `formatNumber(num, decimals)`: the em dash for `null`, otherwise `intl`'s text with at most `decimals` decimals. */
  function FormatNumber(num: Option<real>, decimals: nat, intl: (real, nat) -> string): string {
    match num
    case None => Dash
    case Some(x) => intl(x, decimals)
  }

  function SignOf(a: real): string {
    if a < 0.0 then "-" else ""
  }

  /**
   * `formatCompact(amount)`: crores from ten million up, lakhs from a
   * hundred thousand up, each with two decimals and the sign in front;
   * smaller amounts as `formatINR` writes them.
   */
  function FormatCompact(amount: Option<real>, intl: real -> string): string {
    match amount
    case None => Dash
    case Some(a) =>
      var abs := Abs(a);
      var sign := SignOf(a);
      if abs >= Crore then sign + Rupee + ToFixed(abs / Crore, 2) + " Cr"
      else if abs >= Lakh then sign + Rupee + ToFixed(abs / Lakh, 2) + " L"
      else FormatINR(amount, intl)
  }

  /** Every formatter shows the em dash for a missing value. */
  lemma MissingIsDash(intl: real -> string, numberIntl: (real, nat) -> string, decimals: nat)
    ensures FormatINR(None, intl) == Dash
    ensures FormatCompact(None, intl) == Dash
    ensures FormatNumber(None, decimals, numberIntl) == Dash
  {
  }

  /**
   * From ten million up the amount is shown in crores to two decimals. The
   * figure reads back (`ParseFloatToFixed`) as the crores rounded to two
   * decimals: at least 1.00, within half a hundredth of the exact number.
   */
  lemma CompactCrore(a: real, intl: real -> string)
    requires Abs(a) >= Crore
    ensures FormatCompact(Some(a), intl) == SignOf(a) + Rupee + ToFixed(Abs(a) / Crore, 2) + " Cr"
    ensures Abs(Round(Abs(a) / Crore, 2) - Abs(a) / Crore) <= 0.005
    ensures Round(Abs(a) / Crore, 2) >= 1.0
  {
    CentsClose(Abs(a) / Crore);
    RoundAtLeastOne(Abs(a) / Crore);
  }

  /**
   * From a hundred thousand to ten million it is shown in lakhs to two
   * decimals; the figure reads back as the lakhs rounded to two decimals,
   * from 1.00 to 100.00.
   */
  lemma CompactLakh(a: real, intl: real -> string)
    requires Lakh <= Abs(a) < Crore
    ensures FormatCompact(Some(a), intl) == SignOf(a) + Rupee + ToFixed(Abs(a) / Lakh, 2) + " L"
    ensures Abs(Round(Abs(a) / Lakh, 2) - Abs(a) / Lakh) <= 0.005
    ensures 1.0 <= Round(Abs(a) / Lakh, 2) <= 100.0
  {
    CentsClose(Abs(a) / Lakh);
    assert 1.0 <= Abs(a) / Lakh < 100.0;
    RoundAtLeastOne(Abs(a) / Lakh);
    RoundAtMostHundred(Abs(a) / Lakh);
  }

  /** Below a hundred thousand `formatCompact` hands the amount to `formatINR`. */
  lemma CompactPlain(a: real, intl: real -> string)
    requires Abs(a) < Lakh
    ensures FormatCompact(Some(a), intl) == FormatINR(Some(a), intl) == intl(a)
  {
  }

  /** In the crore and lakh branches the text starts with "-" exactly for a negative amount. */
  lemma CompactSign(a: real, intl: real -> string)
    requires Abs(a) >= Lakh
    ensures var s := FormatCompact(Some(a), intl);
      |s| > 1 && (s[0] == '-' <==> a < 0.0)
      && s[if a < 0.0 then 1 else 0] == Rupee[0]
  {
  }

  /** A figure of at least 1 is at least 1.00 once rounded. */
  lemma RoundAtLeastOne(x: real)
    requires x >= 1.0
    ensures Round(x, 2) >= 1.0
  {
    RoundExact(100, 2);
    assert Pow10(2) == 100;
    RoundMonotone(1.0, x);
  }

  /** A figure of at most 100 is at most 100.00 once rounded. */
  lemma RoundAtMostHundred(x: real)
    requires 0.0 <= x <= 100.0
    ensures Round(x, 2) <= 100.0
  {
    RoundExact(10000, 2);
    assert Pow10(2) == 100;
    RoundMonotone(x, 100.0);
  }

  /** Rounding to cents preserves order. */
  lemma RoundMonotone(x: real, y: real)
    requires 0.0 <= x <= y
    ensures Round(x, 2) <= Round(y, 2)
  {
    var p := Pow10(2) as real;
    assert p == 100.0;
    assert x * p + 0.5 <= y * p + 0.5;
    var m := ScaledHalfUp(x, 2);
    var n := ScaledHalfUp(y, 2);
    assert m <= n;
    DivideMonotone(m as real, n as real, p);
  }
}
