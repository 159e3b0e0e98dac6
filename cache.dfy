/**
 * The in-memory quote cache shared by the two data sources and the route: a
 * map from namespaced string keys to entries that expire a number of seconds
 * after they are written. Time is a parameter `now`, in milliseconds.
 */
module QuoteCache {
  import opened Options
  import opened Records

  /** Seconds an entry lives when `set` is called without a TTL. */
  const DefaultTtl: nat := 300

  /** Seconds the whole-portfolio snapshot lives. */
  const SnapshotTtl: nat := 120

  const PortfolioKey: string := "portfolio_full"

  const PricePrefix: string := "cmp_"
  const GooglePrefix: string := "google_"

  function PriceKey(sym: string): (k: string)
    ensures |k| >= 4 && k[..4] == PricePrefix
  {
    PricePrefix + sym
  }

  function GoogleKey(sym: string): (k: string)
    ensures |k| >= 7 && k[..7] == GooglePrefix
  {
    GooglePrefix + sym
  }

  /** The three kinds of value the application stores. */
  datatype Entry =
    | Price(price: real)
    | Fundamentals(peRatio: Option<real>)
    | Report(snapshot: Snapshot)

  /** A stored entry and the instant (ms) after which it is expired. */
  datatype Slot = Slot(entry: Entry, expiresAt: int)

  function Expiry(now: int, ttl: nat): (t: int)
    ensures t >= now
  {
    now + ttl * 1000
  }

  /** A key is live at `now` when it is stored and `now` is not past its expiry. */
  predicate Live(slots: map<string, Slot>, key: string, now: int) {
    key in slots && now <= slots[key].expiresAt
  }

  /** `cache.get(key)`: the entry when it is live, nothing when it is absent or expired. */
  function Lookup(slots: map<string, Slot>, key: string, now: int): (r: Option<Entry>)
    ensures r.Some? <==> Live(slots, key, now)
    ensures r.Some? ==> r.value == slots[key].entry
  {
    if Live(slots, key, now) then Some(slots[key].entry) else None
  }

  /**
   * A key written at `now` with `ttl` seconds reads back as its entry up to
   * and including `now + ttl*1000` and as nothing afterwards; writing or
   * deleting one key leaves the lookup of every other key as it was.
   */
  lemma LookupAfterWrite(slots: map<string, Slot>, key: string, e: Entry, ttl: nat, now: int, k: string, t: int)
    ensures Lookup(slots[key := Slot(e, Expiry(now, ttl))], key, t)
      == if t <= now + ttl * 1000 then Some(e) else None
    ensures k != key ==> Lookup(slots[key := Slot(e, Expiry(now, ttl))], k, t) == Lookup(slots, k, t)
    ensures k != key ==> Lookup(slots - {key}, k, t) == Lookup(slots, k, t)
  {
  }

  /** An entry that is live at `t` was live, with the same value, at every earlier instant. */
  lemma LiveEarlier(slots: map<string, Slot>, key: string, t: int, t': int)
    requires Live(slots, key, t) && t' <= t
    ensures Lookup(slots, key, t') == Lookup(slots, key, t)
  {
  }

  predicate IsPriceKey(k: string) {
    |k| >= 4 && k[..4] == PricePrefix
  }

  predicate IsGoogleKey(k: string) {
    |k| >= 7 && k[..7] == GooglePrefix
  }

  /** Every namespace holds the kind of value its readers cast it to. */
  predicate KindFits(k: string, e: Entry) {
    (k == PortfolioKey ==> e.Report?)
    && (IsPriceKey(k) ==> e.Price?)
    && (IsGoogleKey(k) ==> e.Fundamentals?)
  }

  predicate WellKinded(slots: map<string, Slot>) {
    forall k | k in slots :: KindFits(k, slots[k].entry)
  }

  /** The three namespaces never collide, and each prefix determines its symbol. */
  lemma KeysDisjoint(a: string, b: string)
    ensures PriceKey(a) != GoogleKey(b)
    ensures PriceKey(a) != PortfolioKey && GoogleKey(b) != PortfolioKey
    ensures !IsGoogleKey(PriceKey(a)) && !IsPriceKey(GoogleKey(b))
    ensures IsPriceKey(PriceKey(a)) && IsGoogleKey(GoogleKey(b))
    ensures !IsPriceKey(PortfolioKey) && !IsGoogleKey(PortfolioKey)
  {
    assert PriceKey(a)[0] == 'c';
    assert GoogleKey(b)[0] == 'g';
    assert PortfolioKey[0] == 'p';
  }

  lemma PriceKeyInjective(a: string, b: string)
    requires PriceKey(a) == PriceKey(b)
    ensures a == b
  {
    assert a == PriceKey(a)[4..];
    assert b == PriceKey(b)[4..];
  }

  lemma GoogleKeyInjective(a: string, b: string)
    requires GoogleKey(a) == GoogleKey(b)
    ensures a == b
  {
    assert a == GoogleKey(a)[7..];
    assert b == GoogleKey(b)[7..];
  }

  /** The NodeCache instance: its store of slots. */
  class Cache {
    var slots: map<string, Slot>

    predicate Valid()
      reads this
    {
      WellKinded(slots)
    }

    constructor ()
      ensures slots == map[] && Valid()
    {
      slots := map[];
    }

    /** `cache.set(key, value, ttl)`: replaces whatever the key held. */
    method Set(key: string, e: Entry, ttl: nat, now: int)
      requires Valid() && KindFits(key, e)
      modifies this
      ensures Valid()
      ensures slots == old(slots)[key := Slot(e, Expiry(now, ttl))]
      ensures Lookup(slots, key, now) == Some(e)
    {
      slots := slots[key := Slot(e, Expiry(now, ttl))];
    }

    /** `cache.del(key)`. */
    method Del(key: string)
      requires Valid()
      modifies this
      ensures Valid()
      ensures slots == old(slots) - {key}
      ensures forall t :: Lookup(slots, key, t).None?
    {
      slots := slots - {key};
    }
  }
}
