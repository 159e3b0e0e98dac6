/**
 * The Google Finance service: the P/E ratio scraped from a quote page, read
 * through the cache, and the earnings derived from it. The HTTP request and
 * the HTML parsing are an oracle `page` that yields the page's stats rows, as
 * (label text, value text) pairs in document order, or a failure.
 */
module GoogleFinance {
  import opened Options
  import opened JsStrings
  import opened JsNumbers
  import opened QuoteCache
  import opened Earnings

  /** One `.gyFHrc` stats row: the text of its label and of its value. */
  datatype StatRow = StatRow(labelText: string, valueText: string)

  /** The outcome of requesting and loading a quote page; any thrown error is `PageError`. */
  datatype PageReply = StatsPage(rows: seq<StatRow>) | PageError

  const PeLabel: string := "p/e ratio"

  /**
   * What one row contributes: for a row whose trimmed, lower-cased label
   * contains "p/e ratio", its trimmed value with the commas removed, parsed;
   * nothing when the label does not match or the value is not a number.
   */
  function RowPE(row: StatRow): Option<real> {
    if Contains(Lower(Trim(row.labelText)), PeLabel) then
      ParseFloat(RemoveCommas(Trim(row.valueText)))
    else
      None
  }

  /** The last value `f` yields over `rows`. */
  function LastYield(rows: seq<StatRow>, f: StatRow -> Option<real>): Option<real> {
    if rows == [] then None
    else if f(rows[|rows| - 1]).Some? then f(rows[|rows| - 1])
    else LastYield(rows[..|rows| - 1], f)
  }

  /** The ratio of the page: that of the last row that yields one. */
  function LastPE(rows: seq<StatRow>): Option<real> {
    LastYield(rows, RowPE)
  }

  /** `LastYield` is the last value yielded, and `None` exactly when no row yields one. */
  lemma LastYieldIsLast(rows: seq<StatRow>, f: StatRow -> Option<real>)
    ensures LastYield(rows, f).None? <==> forall i | 0 <= i < |rows| :: f(rows[i]).None?
    ensures LastYield(rows, f).Some? ==>
      exists i | 0 <= i < |rows| ::
        f(rows[i]) == LastYield(rows, f) && forall j | i < j < |rows| :: f(rows[j]).None?
  {
    LastYieldNone(rows, f);
    if LastYield(rows, f).Some? {
      LastYieldWitness(rows, f);
    }
  }

  lemma {:induction false} LastYieldNone(rows: seq<StatRow>, f: StatRow -> Option<real>)
    ensures LastYield(rows, f).None? <==> forall i | 0 <= i < |rows| :: f(rows[i]).None?
  {
    if rows != [] {
      var n := |rows| - 1;
      LastYieldNone(rows[..n], f);
      assert forall i | 0 <= i < n :: rows[..n][i] == rows[i];
    }
  }

  /** The row a found value comes from: no later row yields anything. */
  lemma {:induction false} LastYieldWitness(rows: seq<StatRow>, f: StatRow -> Option<real>)
    requires LastYield(rows, f).Some?
    ensures exists i | 0 <= i < |rows| ::
      f(rows[i]) == LastYield(rows, f) && forall j | i < j < |rows| :: f(rows[j]).None?
  {
    var n := |rows| - 1;
    if f(rows[n]).None? {
      var init := rows[..n];
      assert LastYield(rows, f) == LastYield(init, f);
      LastYieldWitness(init, f);
      var i :| 0 <= i < n && f(init[i]) == LastYield(init, f) && forall j | i < j < n :: f(init[j]).None?;
      assert f(rows[i]) == LastYield(rows, f);
      assert forall j | i < j < n :: rows[j] == init[j];
    } else {
      assert f(rows[n]) == LastYield(rows, f);
    }
  }

  /** The page's ratio is that of the last qualifying row, and `null` exactly when no row qualifies. */
  lemma LastPEIsLastMatch(rows: seq<StatRow>)
    ensures LastPE(rows).None? <==> forall i | 0 <= i < |rows| :: RowPE(rows[i]).None?
    ensures LastPE(rows).Some? ==>
      exists i | 0 <= i < |rows| ::
        RowPE(rows[i]) == LastPE(rows) && forall j | i < j < |rows| :: RowPE(rows[j]).None?
  {
    LastYieldIsLast(rows, RowPE);
  }

  /** One more row: a qualifying row replaces the ratio found so far. */
  lemma SelectStep(rows: seq<StatRow>, i: nat)
    requires i < |rows|
    ensures LastPE(rows[..i + 1]) == if RowPE(rows[i]).Some? then RowPE(rows[i]) else LastPE(rows[..i])
  {
    var next := rows[..i + 1];
    assert next[..i] == rows[..i];
    assert next[i] == rows[i];
  }

  /** The `.each` loop over the rows: every qualifying row overwrites `peRatio`. */
  method SelectPE(rows: seq<StatRow>) returns (peRatio: Option<real>)
    ensures peRatio == LastPE(rows)
  {
    peRatio := None;
    var i := 0;
    while i < |rows|
      invariant 0 <= i <= |rows|
      invariant peRatio == LastPE(rows[..i])
    {
      var parsed := RowPE(rows[i]);
      if parsed.Some? {
        peRatio := parsed;
      }
      SelectStep(rows, i);
      i := i + 1;
    }
    assert rows[..i] == rows;
  }

  /** The ratio `getGoogleFinanceData` returns for `sym` against the cache `slots` at `now`. */
  function ExpectedPE(slots: map<string, Slot>, sym: string, page: string -> PageReply, now: int): Option<real>
    requires WellKinded(slots)
  {
    var key := GoogleKey(sym);
    if Live(slots, key, now) then
      assert KindFits(key, slots[key].entry);
      slots[key].entry.peRatio
    else
      match page(sym)
      case PageError => None
      case StatsPage(rows) => LastPE(rows)
  }

  /** The cache after `getGoogleFinanceData(sym)`. */
  function AfterGoogle(slots: map<string, Slot>, sym: string, page: string -> PageReply, now: int): map<string, Slot> {
    var key := GoogleKey(sym);
    if Live(slots, key, now) then slots
    else
      match page(sym)
      case PageError => slots
      case StatsPage(rows) => slots[key := Slot(Fundamentals(LastPE(rows)), Expiry(now, DefaultTtl))]
  }

  /** A live entry is returned as it is, and nothing is written. */
  lemma GoogleHit(slots: map<string, Slot>, sym: string, page: string -> PageReply, now: int)
    requires WellKinded(slots) && Live(slots, GoogleKey(sym), now)
    ensures AfterGoogle(slots, sym, page, now) == slots
    ensures Lookup(slots, GoogleKey(sym), now) == Some(Fundamentals(ExpectedPE(slots, sym, page, now)))
  {
    KeysDisjoint([], sym);
    assert KindFits(GoogleKey(sym), slots[GoogleKey(sym)].entry);
  }

  /** A failed request yields `null` and writes nothing. */
  lemma GoogleFailure(slots: map<string, Slot>, sym: string, page: string -> PageReply, now: int)
    requires WellKinded(slots) && !Live(slots, GoogleKey(sym), now) && page(sym).PageError?
    ensures ExpectedPE(slots, sym, page, now).None?
    ensures AfterGoogle(slots, sym, page, now) == slots
  {
  }

  /** A page read is cached for the default TTL, a `null` ratio included. */
  lemma GooglePageRead(slots: map<string, Slot>, sym: string, page: string -> PageReply, now: int)
    requires WellKinded(slots) && !Live(slots, GoogleKey(sym), now) && page(sym).StatsPage?
    ensures ExpectedPE(slots, sym, page, now) == LastPE(page(sym).rows)
    ensures AfterGoogle(slots, sym, page, now)
      == slots[GoogleKey(sym) := Slot(Fundamentals(LastPE(page(sym).rows)), now + 300000)]
  {
  }

  /** Only the symbol's own key can change, and the cache stays well kinded. */
  lemma GoogleFrame(slots: map<string, Slot>, sym: string, page: string -> PageReply, now: int)
    requires WellKinded(slots)
    ensures WellKinded(AfterGoogle(slots, sym, page, now))
    ensures forall k | k != GoogleKey(sym) ::
      (k in AfterGoogle(slots, sym, page, now) <==> k in slots)
      && (k in slots ==> AfterGoogle(slots, sym, page, now)[k] == slots[k])
  {
    var key := GoogleKey(sym);
    KeysDisjoint([], sym);
    var after := AfterGoogle(slots, sym, page, now);
    assert after == slots || (key in after && after == slots[key := after[key]] && after[key].entry.Fundamentals?);
  }

  /** Reading through the cache again gives the same ratio: a write only caches what was read. */
  lemma GoogleStable(slots: map<string, Slot>, a: string, b: string, page: string -> PageReply, now: int)
    requires WellKinded(slots)
    ensures WellKinded(AfterGoogle(slots, a, page, now))
    ensures ExpectedPE(AfterGoogle(slots, a, page, now), b, page, now) == ExpectedPE(slots, b, page, now)
  {
    GoogleFrame(slots, a, page, now);
    if GoogleKey(a) == GoogleKey(b) {
      GoogleKeyInjective(a, b);
      if Live(slots, GoogleKey(a), now) {
        GoogleHit(slots, a, page, now);
      }
    }
  }

  /** `getGoogleFinanceData`: cache first, then the page; never fails. */
  method GetGoogleFinanceData(cache: Cache, sym: string, page: string -> PageReply, now: int)
    returns (peRatio: Option<real>, ghost fetched: bool)
    requires cache.Valid()
    modifies cache
    ensures cache.Valid()
    ensures peRatio == ExpectedPE(old(cache.slots), sym, page, now)
    ensures cache.slots == AfterGoogle(old(cache.slots), sym, page, now)
    ensures fetched <==> !Live(old(cache.slots), GoogleKey(sym), now)
  {
    var key := GoogleKey(sym);
    var cached := Lookup(cache.slots, key, now);
    if cached.Some? {
      assert KindFits(key, cache.slots[key].entry);
      return cached.value.peRatio, false;
    }
    fetched := true;
    match page(sym)
    case PageError =>
      peRatio := None;
    case StatsPage(rows) =>
      peRatio := SelectPE(rows);
      KeysDisjoint([], sym);
      cache.Set(key, Fundamentals(peRatio), DefaultTtl, now);
  }

  /** `getPEAndEarnings`: the ratio unchanged, and the earnings derived from it. */
  method GetPEAndEarnings(cache: Cache, sym: string, cmp: Option<real>, page: string -> PageReply, now: int)
    returns (peRatio: Option<real>, latestEarnings: Option<real>)
    requires cache.Valid()
    modifies cache
    ensures cache.Valid()
    ensures peRatio == ExpectedPE(old(cache.slots), sym, page, now)
    ensures latestEarnings == DeriveEarnings(cmp, peRatio)
    ensures cache.slots == AfterGoogle(old(cache.slots), sym, page, now)
  {
    ghost var fetched;
    peRatio, fetched := GetGoogleFinanceData(cache, sym, page, now);
    latestEarnings := None;
    if cmp.Some? && peRatio.Some? && peRatio.value > 0.0 {
      latestEarnings := Some(Round(cmp.value / peRatio.value, 2));
    }
  }
}
