/** The crawler's time-to-live result cache, as values: two maps keyed alike,
    one holding the cached value and one its expiry time (integer milliseconds).
    The class `Crawler.NaverCrawler` keeps the same two maps as fields and its
    methods are proved to act as `Sweep`, `Put` and `Get` below. */
module Cache {
  import opened Common

  type Key = string
  /** The only value the crawler caches is a list of keywords. */
  type Value = seq<string>

  datatype Store = Store(values: map<Key, Value>, expiry: map<Key, int>)

  /** Every cached value has an expiry and every expiry a value. */
  predicate Consistent(s: Store)
  {
    s.values.Keys == s.expiry.Keys
  }

  ghost predicate Live(s: Store, k: Key, now: int)
  {
    k in s.expiry && now <= s.expiry[k]
  }

  /** The keys the sweep removes: an expiry strictly before `now`. */
  function ExpiredKeys(expiry: map<Key, int>, now: int): set<Key>
  {
    set k | k in expiry && now > expiry[k]
  }

  /** `clear_expired_cache`: drop from both maps every key whose expiry has passed. */
  function Sweep(s: Store, now: int): (t: Store)
    ensures t.values.Keys == s.values.Keys - ExpiredKeys(s.expiry, now)
    ensures t.expiry.Keys == s.expiry.Keys - ExpiredKeys(s.expiry, now)
    ensures forall k :: k in t.expiry ==> now <= t.expiry[k]
    ensures forall k :: k in t.values ==> t.values[k] == s.values[k]
    ensures forall k :: k in t.expiry ==> t.expiry[k] == s.expiry[k]
    ensures forall k :: Live(s, k, now) ==> k in t.expiry
  {
    var gone := ExpiredKeys(s.expiry, now);
    Store(s.values - gone, s.expiry - gone)
  }

  /** `cache_result`: sweep, then store `v` under `k` until `now + ttl`. */
  function Put(s: Store, k: Key, v: Value, now: int, ttl: int): (t: Store)
    ensures k in t.values && t.values[k] == v
    ensures k in t.expiry && t.expiry[k] == now + ttl
    ensures Consistent(s) ==> Consistent(t)
    ensures Consistent(s) ==> forall j :: j != k ==> (j in t.values <==> j in s.values && Live(s, j, now))
    ensures forall j :: j != k && j in t.values ==> j in s.values && t.values[j] == s.values[j]
    ensures forall j :: j != k && j in t.expiry ==> j in s.expiry && t.expiry[j] == s.expiry[j]
  {
    var swept := Sweep(s, now);
    Store(swept.values[k := v], swept.expiry[k := now + ttl])
  }

  /** `get_cached_result`: the value if the key is cached and `now` is not past
      its expiry (a missing expiry reads as 0), else nothing. */
  function Get(s: Store, k: Key, now: int): (r: Option<Value>)
    ensures Consistent(s) ==> (r.Some? <==> k in s.values && Live(s, k, now))
    ensures k in s.values && k !in s.expiry ==> (r.Some? <==> now <= 0)
    ensures r.Some? ==> k in s.values && r.value == s.values[k]
  {
    var expiry := if k in s.expiry then s.expiry[k] else 0;
    if k in s.values && now <= expiry then Some(s.values[k]) else None
  }

  /** A value stored with `Put` is returned until its expiry, inclusive, and
      never after it. */
  lemma GetAfterPut(s: Store, k: Key, v: Value, now: int, ttl: int, later: int)
    ensures Get(Put(s, k, v, now, ttl), k, later) == (if later <= now + ttl then Some(v) else None)
  {
  }

  /** An entry whose expiry equals the current time survives the sweep and is
      still returned: the sweep uses `>` where the lookup uses `<=`. */
  lemma ExpiryInstantIsLive(s: Store, k: Key, now: int)
    requires Consistent(s) && k in s.expiry && s.expiry[k] == now
    ensures k in Sweep(s, now).values
    ensures Get(s, k, now) == Some(s.values[k])
  {
  }

  /** Eviction is lazy and unobservable: storing another key (and the sweep it
      triggers) never changes what a lookup at the same or a later time sees. */
  lemma PutOtherKeyUnobservable(s: Store, k: Key, v: Value, now: int, ttl: int, other: Key, later: int)
    requires Consistent(s) && other != k && now <= later
    ensures Get(Put(s, k, v, now, ttl), other, later) == Get(s, other, later)
  {
    var t := Put(s, k, v, now, ttl);
    if other in s.values && other in ExpiredKeys(s.expiry, now) {
      assert other !in t.values;
      assert later > s.expiry[other];
    }
  }

  /** Sweeping twice at the same time removes nothing more. */
  lemma SweepIdempotent(s: Store, now: int)
    ensures Sweep(Sweep(s, now), now) == Sweep(s, now)
  {
    var t := Sweep(s, now);
    assert ExpiredKeys(t.expiry, now) == {};
  }

  /** `get_trending_keywords` (lines 407-409) tests the cached value for
      truth: an empty list counts as a miss, exactly like no entry at all. */
  predicate TrendingHit(r: Option<Value>)
  {
    match r
    case None => false
    case Some(v) => |v| > 0
  }
}
