/**
 * The Yahoo Finance service: current market prices read through the cache,
 * one symbol at a time or as a batch fetched in chunks of five. The HTTP
 * request is an oracle `chart` that yields the chart's `regularMarketPrice`
 * (absent when any part of the path is missing) or a failure.
 */
module YahooFinance {
  import opened Options
  import opened QuoteCache

  /** The outcome of one chart request; a thrown error is `FetchError`. */
  datatype ChartReply = Chart(regularMarketPrice: Option<real>) | FetchError

  /** Symbols fetched together before the next chunk starts. */
  const BatchSize: nat := 5

  function FetchedPrice(reply: ChartReply): Option<real> {
    match reply
    case Chart(p) => p
    case FetchError => None
  }

  /** The price `getCMP(sym)` returns against the cache `slots` at `now`. */
  function ExpectedPrice(slots: map<string, Slot>, sym: string, chart: string -> ChartReply, now: int): Option<real>
    requires WellKinded(slots)
  {
    var key := PriceKey(sym);
    if Live(slots, key, now) then
      assert KindFits(key, slots[key].entry);
      Some(slots[key].entry.price)
    else
      FetchedPrice(chart(sym))
  }

  /** The cache after `getCMP(sym)`: only a fetched, non-null price is written. */
  function AfterPrice(slots: map<string, Slot>, sym: string, chart: string -> ChartReply, now: int): map<string, Slot> {
    var key := PriceKey(sym);
    if Live(slots, key, now) then slots
    else
      match FetchedPrice(chart(sym))
      case Some(p) => slots[key := Slot(Price(p), Expiry(now, DefaultTtl))]
      case None => slots
  }

  /** A live entry is returned as it is, and nothing is written. */
  lemma PriceHit(slots: map<string, Slot>, sym: string, chart: string -> ChartReply, now: int)
    requires WellKinded(slots) && Live(slots, PriceKey(sym), now)
    ensures AfterPrice(slots, sym, chart, now) == slots
    ensures ExpectedPrice(slots, sym, chart, now).Some?
    ensures Lookup(slots, PriceKey(sym), now) == Some(Price(ExpectedPrice(slots, sym, chart, now).value))
  {
    KeysDisjoint(sym, []);
    assert KindFits(PriceKey(sym), slots[PriceKey(sym)].entry);
  }

  /**
   * On a miss the fetched price is returned; it is cached for the default
   * TTL when it is a number, and a `null` price or a failure writes nothing.
   */
  lemma PriceMiss(slots: map<string, Slot>, sym: string, chart: string -> ChartReply, now: int)
    requires WellKinded(slots) && !Live(slots, PriceKey(sym), now)
    ensures ExpectedPrice(slots, sym, chart, now) == FetchedPrice(chart(sym))
    ensures chart(sym).FetchError? ==> ExpectedPrice(slots, sym, chart, now).None?
    ensures ExpectedPrice(slots, sym, chart, now).None? ==> AfterPrice(slots, sym, chart, now) == slots
    ensures ExpectedPrice(slots, sym, chart, now).Some? ==>
      AfterPrice(slots, sym, chart, now)
        == slots[PriceKey(sym) := Slot(Price(ExpectedPrice(slots, sym, chart, now).value), now + 300000)]
  {
  }

  /** Only the symbol's own key can change, and the cache stays well kinded. */
  lemma PriceFrame(slots: map<string, Slot>, sym: string, chart: string -> ChartReply, now: int)
    requires WellKinded(slots)
    ensures WellKinded(AfterPrice(slots, sym, chart, now))
    ensures forall k | k != PriceKey(sym) ::
      (k in AfterPrice(slots, sym, chart, now) <==> k in slots)
      && (k in slots ==> AfterPrice(slots, sym, chart, now)[k] == slots[k])
  {
    var key := PriceKey(sym);
    KeysDisjoint(sym, []);
    var after := AfterPrice(slots, sym, chart, now);
    assert after == slots || (key in after && after == slots[key := after[key]] && after[key].entry.Price?);
  }

  /** Asking again gives the same price: a write only caches what was fetched. */
  lemma PriceStable(slots: map<string, Slot>, a: string, b: string, chart: string -> ChartReply, now: int)
    requires WellKinded(slots)
    ensures WellKinded(AfterPrice(slots, a, chart, now))
    ensures ExpectedPrice(AfterPrice(slots, a, chart, now), b, chart, now) == ExpectedPrice(slots, b, chart, now)
  {
    PriceFrame(slots, a, chart, now);
    if PriceKey(a) == PriceKey(b) {
      PriceKeyInjective(a, b);
      if Live(slots, PriceKey(a), now) {
        PriceHit(slots, a, chart, now);
      }
    }
  }

  /** `getCMP`: cache first, then the chart; never fails. */
  method GetCMP(cache: Cache, sym: string, chart: string -> ChartReply, now: int)
    returns (price: Option<real>, ghost fetched: bool)
    requires cache.Valid()
    modifies cache
    ensures cache.Valid()
    ensures price == ExpectedPrice(old(cache.slots), sym, chart, now)
    ensures cache.slots == AfterPrice(old(cache.slots), sym, chart, now)
    ensures fetched <==> !Live(old(cache.slots), PriceKey(sym), now)
  {
    var key := PriceKey(sym);
    var cached := Lookup(cache.slots, key, now);
    if cached.Some? {
      assert KindFits(key, cache.slots[key].entry);
      return Some(cached.value.price), false;
    }
    fetched := true;
    price := FetchedPrice(chart(sym));
    if price.Some? {
      KeysDisjoint(sym, []);
      cache.Set(key, Price(price.value), DefaultTtl, now);
    }
  }

  /** The symbols without a live price, in input order, duplicates kept. */
  function Uncached(slots: map<string, Slot>, syms: seq<string>, now: int): seq<string> {
    if syms == [] then []
    else
      var last := syms[|syms| - 1];
      Uncached(slots, syms[..|syms| - 1], now) + (if Live(slots, PriceKey(last), now) then [] else [last])
  }

  /** `uncached` holds exactly the input symbols that miss the cache. */
  lemma {:induction false} UncachedIsFilter(slots: map<string, Slot>, syms: seq<string>, now: int)
    ensures forall s :: s in Uncached(slots, syms, now) <==> s in syms && !Live(slots, PriceKey(s), now)
    ensures |Uncached(slots, syms, now)| <= |syms|
  {
    if syms != [] {
      var init := syms[..|syms| - 1];
      UncachedIsFilter(slots, init, now);
      assert syms == init + [syms[|syms| - 1]];
    }
  }

  /** `xs` cut into consecutive slices of `n`, the last one possibly shorter. */
  function Chunks(xs: seq<string>, n: nat): seq<seq<string>>
    requires n > 0
    decreases |xs|
  {
    if xs == [] then []
    else if |xs| <= n then [xs]
    else [xs[..n]] + Chunks(xs[n..], n)
  }

  function Flatten(bs: seq<seq<string>>): seq<string> {
    if bs == [] then [] else bs[0] + Flatten(bs[1..])
  }

  /** The chunks cover `xs` exactly once, in order, and none is empty or longer than `n`. */
  lemma {:induction false} ChunksCover(xs: seq<string>, n: nat)
    requires n > 0
    ensures Flatten(Chunks(xs, n)) == xs
    ensures forall i | 0 <= i < |Chunks(xs, n)| :: 0 < |Chunks(xs, n)[i]| <= n
    ensures forall i | 0 <= i < |Chunks(xs, n)| - 1 :: |Chunks(xs, n)[i]| == n
    decreases |xs|
  {
    if xs != [] && |xs| > n {
      var rest := Chunks(xs[n..], n);
      ChunksCover(xs[n..], n);
      assert Chunks(xs, n) == [xs[..n]] + rest;
      assert Chunks(xs, n)[1..] == rest;
      assert xs == xs[..n] + xs[n..];
    }
  }

  /** One turn of the chunk loop: the chunk taken at `i` is the next chunk of the whole. */
  lemma ChunkStep(xs: seq<string>, i: nat, n: nat, taken: seq<seq<string>>)
    requires n > 0 && i < |xs|
    requires taken + Chunks(xs[i..], n) == Chunks(xs, n)
    ensures (taken + [xs[i..Min(i + n, |xs|)]]) + Chunks(xs[Min(i + n, |xs|)..], n) == Chunks(xs, n)
  {
    var rest := xs[i..];
    var hi := Min(i + n, |xs|);
    if |rest| > n {
      assert rest[..n] == xs[i..hi];
      assert rest[n..] == xs[hi..];
    } else {
      assert hi == |xs|;
      assert xs[i..hi] == rest;
      assert xs[hi..] == [];
    }
  }

  function Min(a: int, b: int): int {
    if a < b then a else b
  }

  /** The cache after `getCMP` was called on each of `syms` in turn. */
  function PriceWrites(slots: map<string, Slot>, syms: seq<string>, chart: string -> ChartReply, now: int): map<string, Slot> {
    if syms == [] then slots
    else AfterPrice(PriceWrites(slots, syms[..|syms| - 1], chart, now), syms[|syms| - 1], chart, now)
  }

  /** The calls keep the cache well kinded and every symbol's answer the same. */
  lemma {:induction false} PriceWritesStable(slots: map<string, Slot>, syms: seq<string>, chart: string -> ChartReply, now: int)
    requires WellKinded(slots)
    ensures WellKinded(PriceWrites(slots, syms, chart, now))
    ensures forall s :: ExpectedPrice(PriceWrites(slots, syms, chart, now), s, chart, now)
                     == ExpectedPrice(slots, s, chart, now)
  {
    if syms != [] {
      var init := syms[..|syms| - 1];
      var mid := PriceWrites(slots, init, chart, now);
      PriceWritesStable(slots, init, chart, now);
      PriceFrame(mid, syms[|syms| - 1], chart, now);
      forall s
        ensures ExpectedPrice(AfterPrice(mid, syms[|syms| - 1], chart, now), s, chart, now)
             == ExpectedPrice(mid, s, chart, now)
      {
        PriceStable(mid, syms[|syms| - 1], s, chart, now);
      }
    }
  }

  /** The calls touch only keys of the price namespace. */
  lemma {:induction false} PriceWritesFrame(slots: map<string, Slot>, syms: seq<string>, chart: string -> ChartReply, now: int)
    requires WellKinded(slots)
    ensures forall k | !IsPriceKey(k) ::
      (k in PriceWrites(slots, syms, chart, now) <==> k in slots)
      && (k in slots ==> PriceWrites(slots, syms, chart, now)[k] == slots[k])
  {
    if syms != [] {
      var init := syms[..|syms| - 1];
      PriceWritesFrame(slots, init, chart, now);
      PriceWritesStable(slots, init, chart, now);
      var last := syms[|syms| - 1];
      KeysDisjoint(last, []);
      PriceFrame(PriceWrites(slots, init, chart, now), last, chart, now);
    }
  }

  /** After the calls, every symbol that got a price has it live in the cache. */
  lemma {:induction false} PriceWritesWarm(slots: map<string, Slot>, syms: seq<string>, chart: string -> ChartReply, now: int)
    requires WellKinded(slots)
    ensures WellKinded(PriceWrites(slots, syms, chart, now))
    ensures forall s | s in syms && ExpectedPrice(slots, s, chart, now).Some? ::
      Lookup(PriceWrites(slots, syms, chart, now), PriceKey(s), now)
        == Some(Price(ExpectedPrice(slots, s, chart, now).value))
  {
    PriceWritesStable(slots, syms, chart, now);
    if syms != [] {
      var init := syms[..|syms| - 1];
      var last := syms[|syms| - 1];
      var mid := PriceWrites(slots, init, chart, now);
      PriceWritesWarm(slots, init, chart, now);
      PriceWritesStable(slots, init, chart, now);
      PriceFrame(mid, last, chart, now);
      forall s | s in syms && ExpectedPrice(slots, s, chart, now).Some?
        ensures Lookup(PriceWrites(slots, syms, chart, now), PriceKey(s), now)
             == Some(Price(ExpectedPrice(slots, s, chart, now).value))
      {
        if s == last {
          if Live(mid, PriceKey(s), now) {
            PriceHit(mid, s, chart, now);
          } else {
            PriceMiss(mid, s, chart, now);
          }
        } else {
          assert s in init;
          if PriceKey(s) == PriceKey(last) {
            PriceKeyInjective(s, last);
          }
        }
      }
    }
  }

  /** The calls of `syms` then `more` leave the cache as the calls of `syms + more`. */
  lemma {:induction false} PriceWritesConcat(slots: map<string, Slot>, syms: seq<string>, more: seq<string>, chart: string -> ChartReply, now: int)
    ensures PriceWrites(PriceWrites(slots, syms, chart, now), more, chart, now)
         == PriceWrites(slots, syms + more, chart, now)
    decreases |more|
  {
    if more == [] {
      assert syms + more == syms;
    } else {
      var init := more[..|more| - 1];
      PriceWritesConcat(slots, syms, init, chart, now);
      var all := syms + more;
      assert all[..|all| - 1] == syms + init;
      assert all[|all| - 1] == more[|more| - 1];
    }
  }

  function SetOf(xs: seq<string>): set<string> {
    set s | s in xs
  }

  /** The symbols of `syms` with a live price. */
  function Hits(slots: map<string, Slot>, syms: seq<string>, now: int): set<string> {
    set s | s in syms && Live(slots, PriceKey(s), now)
  }

  /**
   * The first loop of `getBatchCMP`: a symbol with a live price is answered
   * from the cache, any other is queued in `uncached`.
   */
  method SplitCached(cache: Cache, symbols: seq<string>, chart: string -> ChartReply, now: int)
    returns (results: map<string, Option<real>>, uncached: seq<string>)
    requires cache.Valid()
    ensures uncached == Uncached(cache.slots, symbols, now)
    ensures results.Keys == Hits(cache.slots, symbols, now)
    ensures forall s | s in results :: results[s] == ExpectedPrice(cache.slots, s, chart, now)
  {
    results := map[];
    uncached := [];
    for k := 0 to |symbols|
      invariant uncached == Uncached(cache.slots, symbols[..k], now)
      invariant results.Keys == Hits(cache.slots, symbols[..k], now)
      invariant forall s | s in results :: results[s] == ExpectedPrice(cache.slots, s, chart, now)
    {
      var sym := symbols[k];
      assert symbols[..k + 1] == symbols[..k] + [sym];
      var cached := Lookup(cache.slots, PriceKey(sym), now);
      if cached.Some? {
        assert KindFits(PriceKey(sym), cache.slots[PriceKey(sym)].entry) by {
          KeysDisjoint(sym, []);
        }
        results := results[sym := Some(cached.value.price)];
      } else {
        uncached := uncached + [sym];
      }
    }
    assert symbols[..|symbols|] == symbols;
  }

  /**
   * One chunk of the second loop: `getCMP` on each symbol of `batch`, its
   * answer stored in `results` (the `Promise.all` over the chunk, in order).
   */
  method FetchChunk(cache: Cache, batch: seq<string>, chart: string -> ChartReply, now: int,
                    results: map<string, Option<real>>)
    returns (merged: map<string, Option<real>>)
    requires cache.Valid()
    modifies cache
    ensures cache.Valid()
    ensures cache.slots == PriceWrites(old(cache.slots), batch, chart, now)
    ensures merged.Keys == results.Keys + SetOf(batch)
    ensures forall s | s in merged ::
      merged[s] == if s in batch then ExpectedPrice(old(cache.slots), s, chart, now) else results[s]
  {
    ghost var start := cache.slots;
    merged := results;
    for j := 0 to |batch|
      invariant cache.Valid()
      invariant cache.slots == PriceWrites(start, batch[..j], chart, now)
      invariant merged.Keys == results.Keys + SetOf(batch[..j])
      invariant forall s | s in merged ::
        merged[s] == if s in batch[..j] then ExpectedPrice(start, s, chart, now) else results[s]
    {
      var sym := batch[j];
      assert batch[..j + 1] == batch[..j] + [sym];
      PriceWritesStable(start, batch[..j], chart, now);
      ghost var fetched;
      var price;
      price, fetched := GetCMP(cache, sym, chart, now);
      merged := merged[sym := price];
    }
    assert batch[..|batch|] == batch;
  }

  /** The answers gathered so far, extended by one chunk, are still the expected ones. */
  lemma MergeStep(start: map<string, Slot>, hits: set<string>, done: seq<string>, batch: seq<string>,
                  results: map<string, Option<real>>, merged: map<string, Option<real>>,
                  chart: string -> ChartReply, now: int)
    requires WellKinded(start)
    requires results.Keys == hits + SetOf(done)
    requires forall s | s in results :: results[s] == ExpectedPrice(start, s, chart, now)
    requires merged.Keys == results.Keys + SetOf(batch)
    requires WellKinded(PriceWrites(start, done, chart, now))
    requires forall s | s in merged ::
      merged[s] == if s in batch then ExpectedPrice(PriceWrites(start, done, chart, now), s, chart, now)
                   else results[s]
    ensures merged.Keys == hits + SetOf(done + batch)
    ensures forall s | s in merged :: merged[s] == ExpectedPrice(start, s, chart, now)
  {
    PriceWritesStable(start, done, chart, now);
    assert SetOf(done + batch) == SetOf(done) + SetOf(batch);
  }

  /**
   * The state of `getBatchCMP` once the first `k` uncached symbols are
   * fetched: the chunks taken so far, the cache written by those calls, and
   * an expected answer for every cached or fetched symbol.
   */
  predicate Progress(start: map<string, Slot>, symbols: seq<string>, uncached: seq<string>, k: nat,
                     slots: map<string, Slot>, results: map<string, Option<real>>,
                     batches: seq<seq<string>>, chart: string -> ChartReply, now: int)
    requires WellKinded(start)
  {
    k <= |uncached|
    && batches + Chunks(uncached[k..], BatchSize) == Chunks(uncached, BatchSize)
    && slots == PriceWrites(start, uncached[..k], chart, now)
    && results.Keys == Hits(start, symbols, now) + SetOf(uncached[..k])
    && forall s | s in results :: results[s] == ExpectedPrice(start, s, chart, now)
  }

  /** One chunk fetched moves the progress from `i` to the end of that chunk. */
  lemma BatchAdvance(start: map<string, Slot>, symbols: seq<string>, uncached: seq<string>, i: nat,
                     results: map<string, Option<real>>, batches: seq<seq<string>>,
                     merged: map<string, Option<real>>, after: map<string, Slot>,
                     chart: string -> ChartReply, now: int)
    requires WellKinded(start) && i < |uncached|
    requires Progress(start, symbols, uncached, i, PriceWrites(start, uncached[..i], chart, now),
                      results, batches, chart, now)
    requires after == PriceWrites(PriceWrites(start, uncached[..i], chart, now),
                                  uncached[i..Min(i + BatchSize, |uncached|)], chart, now)
    requires merged.Keys == results.Keys + SetOf(uncached[i..Min(i + BatchSize, |uncached|)])
    requires WellKinded(PriceWrites(start, uncached[..i], chart, now))
    requires forall s | s in merged ::
      merged[s] == if s in uncached[i..Min(i + BatchSize, |uncached|)]
                   then ExpectedPrice(PriceWrites(start, uncached[..i], chart, now), s, chart, now)
                   else results[s]
    ensures Progress(start, symbols, uncached, Min(i + BatchSize, |uncached|), after, merged,
                     batches + [uncached[i..Min(i + BatchSize, |uncached|)]], chart, now)
  {
    var hi := Min(i + BatchSize, |uncached|);
    var done := uncached[..i];
    var batch := uncached[i..hi];
    ChunkStep(uncached, i, BatchSize, batches);
    PriceWritesConcat(start, done, batch, chart, now);
    MergeStep(start, Hits(start, symbols, now), done, batch, results, merged, chart, now);
    assert done + batch == uncached[..hi];
  }

  /** Progress through every uncached symbol answers every input symbol. */
  lemma BatchDone(start: map<string, Slot>, symbols: seq<string>, uncached: seq<string>,
                  slots: map<string, Slot>, results: map<string, Option<real>>,
                  batches: seq<seq<string>>, chart: string -> ChartReply, now: int)
    requires WellKinded(start) && uncached == Uncached(start, symbols, now)
    requires Progress(start, symbols, uncached, |uncached|, slots, results, batches, chart, now)
    ensures batches == Chunks(uncached, BatchSize)
    ensures slots == PriceWrites(start, uncached, chart, now)
    ensures results.Keys == SetOf(symbols)
    ensures forall s | s in symbols :: results[s] == ExpectedPrice(start, s, chart, now)
  {
    UncachedIsFilter(start, symbols, now);
    assert uncached[..|uncached|] == uncached;
    assert uncached[|uncached|..] == [];
  }

  /**
   * `getBatchCMP`: cached symbols answered from the cache, the rest fetched
   * with `getCMP` in consecutive chunks of five.
   */
  method GetBatchCMP(cache: Cache, symbols: seq<string>, chart: string -> ChartReply, now: int)
    returns (results: map<string, Option<real>>, ghost calls: seq<string>, ghost batches: seq<seq<string>>)
    requires cache.Valid()
    modifies cache
    ensures cache.Valid()
    ensures calls == Uncached(old(cache.slots), symbols, now)
    ensures batches == Chunks(calls, BatchSize)
    ensures results.Keys == SetOf(symbols)
    ensures forall s | s in symbols :: results[s] == ExpectedPrice(old(cache.slots), s, chart, now)
    ensures cache.slots == PriceWrites(old(cache.slots), calls, chart, now)
  {
    ghost var start := cache.slots;
    var uncached;
    results, uncached := SplitCached(cache, symbols, chart, now);
    calls := uncached;
    batches := [];
    assert uncached[..0] == [] && uncached[0..] == uncached;

    var n := |uncached|;
    var i := 0;
    while i < n
      invariant 0 <= i && WellKinded(start) && cache.Valid()
      invariant Progress(start, symbols, uncached, Min(i, n), cache.slots, results, batches, chart, now)
    {
      var hi := Min(i + BatchSize, n);
      var batch := uncached[i..hi];
      ghost var before := results;
      assert Min(i, n) == i;
      results := FetchChunk(cache, batch, chart, now, results);
      BatchAdvance(start, symbols, uncached, i, before, batches, results, cache.slots, chart, now);
      batches := batches + [batch];
      i := i + BatchSize;
      assert Min(i, n) == hi;
    }
    BatchDone(start, symbols, uncached, cache.slots, results, batches, chart, now);
  }
}
