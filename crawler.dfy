/** `NaverCrawler`: the state the crawler keeps between calls and the
    operations that read and update it. The four dictionaries of the source
    are the four map fields; the clock readings and the random delay draws
    are parameters (integer milliseconds), and the replies the search API
    gives are inputs, one per attempt. */
module Crawler {
  import opened Common
  import Cache
  import RateLimit
  import Retry
  import NewsFilter

  /** The search API's news body: its `items` list, which may be missing. */
  type NewsBody = Option<seq<NewsFilter.RawItem>>

  /** What `get_news_articles` ends with: the filtered articles (an empty list
      stands for every error the method swallows), or the `APIKeyError` it
      re-raises. */
  datatype NewsResult = Articles(articles: seq<NewsFilter.Article>) | KeyRejected(message: string)

  const TrendingKey := "trending_keywords"
  /** The time to live `get_trending_keywords` asks for, 300 s. */
  const TrendingTtl := 300_000
  /** `make_request`'s default `retry_count`. */
  const DefaultRetryCount := 3
  const NewsPath := "/v1/search/news.json"

  /** The calls `make_request` records with the limiter: one per attempt, all
      on the request URL. */
  function AttemptCalls(url: string, clock: seq<int>): (calls: seq<(string, int)>)
    ensures |calls| == |clock|
    ensures forall i :: 0 <= i < |clock| ==> calls[i] == (url, clock[i])
  {
    seq(|clock|, i requires 0 <= i < |clock| => (url, clock[i]))
  }

  /** The limiter after `n > 0` attempts on `url`, in closed form: the last
      attempt's time, and the count up by `n`. */
  function AfterAttempts(l: RateLimit.Limiter, url: string, clock: seq<int>, n: nat): RateLimit.Limiter
    requires 0 < n <= |clock|
  {
    RateLimit.Limiter(l.last[url := clock[n - 1]], l.counts[url := RateLimit.CountOf(l, url) + n])
  }

  /** The limiter as attempt `n` finds it: untouched before the first. */
  function LimiterAt(l: RateLimit.Limiter, url: string, clock: seq<int>, n: nat): RateLimit.Limiter
    requires n <= |clock|
  {
    if n == 0 then l else AfterAttempts(l, url, clock, n)
  }

  /** Every draw from attempt `n` on lies in the tier its call count selects:
      `random.uniform` is called for every attempt after the URL's first call. */
  predicate DrawsInTier(l: RateLimit.Limiter, url: string, draws: seq<int>, from: nat, to: int)
    requires to <= |draws|
  {
    forall i :: from <= i < to && (i > 0 || url in l.last) ==> RateLimit.InTier(draws[i], RateLimit.CountOf(l, url) + i)
  }

  /** The first `n` replies all failed in transport. */
  predicate TransportFailures<D>(replies: seq<Retry.Reply<D>>, n: nat)
    requires n <= |replies|
  {
    forall j :: 0 <= j < n ==> replies[j].Transport?
  }

  /** The sleeps `get_dynamic_delay` returns on the first `n` attempts: each
      is the limiter's wait at that attempt's clock reading and draw, the
      limiter having recorded the attempts before it. */
  function AttemptPauses(l: RateLimit.Limiter, url: string, clock: seq<int>, draws: seq<int>, n: nat): (ps: seq<int>)
    requires n <= |clock| && n <= |draws|
    ensures |ps| == n
  {
    if n == 0 then []
    else AttemptPauses(l, url, clock, draws, n - 1) + [RateLimit.Wait(LimiterAt(l, url, clock, n - 1), url, clock[n - 1], draws[n - 1])]
  }

  /** Attempt `i` sleeps the limiter's wait at its own clock reading and
      draw, the limiter having recorded the `i` attempts before it. */
  lemma {:induction false} AttemptPausesAt(l: RateLimit.Limiter, url: string, clock: seq<int>, draws: seq<int>, n: nat, i: nat)
    requires n <= |clock| && n <= |draws| && i < n
    ensures AttemptPauses(l, url, clock, draws, n)[i] == RateLimit.Wait(LimiterAt(l, url, clock, i), url, clock[i], draws[i])
  {
    if i < n - 1 {
      AttemptPausesAt(l, url, clock, draws, n - 1, i);
    }
  }

  /** What the sleeps mean: none is negative, the very first call to a URL
      does not sleep, and every later one sleeps until its draw has passed
      since the URL's previous call. */
  lemma AttemptPausesMeaning(l: RateLimit.Limiter, url: string, clock: seq<int>, draws: seq<int>, n: nat, i: nat)
    requires n <= |clock| && n <= |draws| && i < n
    ensures AttemptPauses(l, url, clock, draws, n)[i] >= 0
    ensures i == 0 && url !in l.last ==> AttemptPauses(l, url, clock, draws, n)[i] == 0
    ensures i == 0 && url in l.last ==>
      clock[0] + AttemptPauses(l, url, clock, draws, n)[0]
        == if clock[0] < l.last[url] + draws[0] then l.last[url] + draws[0] else clock[0]
    ensures i > 0 ==>
      clock[i] + AttemptPauses(l, url, clock, draws, n)[i]
        == if clock[i] < clock[i - 1] + draws[i] then clock[i - 1] + draws[i] else clock[i]
  {
    AttemptPausesAt(l, url, clock, draws, n, i);
  }

  /** One more attempt is one more `Record` on the URL. */
  lemma AfterAttemptsStep(l: RateLimit.Limiter, url: string, clock: seq<int>, n: nat)
    requires n < |clock|
    ensures n == 0 ==> RateLimit.Record(l, url, clock[0]) == AfterAttempts(l, url, clock, 1)
    ensures n > 0 ==> RateLimit.Record(AfterAttempts(l, url, clock, n), url, clock[n]) == AfterAttempts(l, url, clock, n + 1)
  {
    if n > 0 {
      var a := AfterAttempts(l, url, clock, n);
      assert a.last[url := clock[n]] == l.last[url := clock[n]];
      assert a.counts[url := RateLimit.CountOf(a, url) + 1] == l.counts[url := RateLimit.CountOf(l, url) + n + 1];
    }
  }

  /** The closed form is what replaying the attempts' calls gives. */
  lemma {:induction false} ReplayAttempts(l: RateLimit.Limiter, url: string, clock: seq<int>, n: nat)
    requires 0 < n <= |clock|
    ensures RateLimit.Replay(l, AttemptCalls(url, clock[..n])) == AfterAttempts(l, url, clock, n)
  {
    assert AttemptCalls(url, clock[..n]) == AttemptCalls(url, clock[..n - 1]) + [(url, clock[n - 1])];
    RateLimit.ReplayAppend(l, AttemptCalls(url, clock[..n - 1]), (url, clock[n - 1]));
    AfterAttemptsStep(l, url, clock, n - 1);
    if n > 1 {
      ReplayAttempts(l, url, clock, n - 1);
    } else {
      assert AttemptCalls(url, clock[..0]) == [];
    }
  }

  class NaverCrawler {
    var cache: map<string, seq<string>>
    var cacheTimeout: map<string, int>
    var lastRequestTime: map<string, int>
    var requestCounts: map<string, nat>

    /** The cache's two maps, as a value. */
    function Store(): Cache.Store
      reads this
    {
      Cache.Store(cache, cacheTimeout)
    }

    /** The rate limiter's two maps, as a value. */
    function Limiter(): RateLimit.Limiter
      reads this
    {
      RateLimit.Limiter(lastRequestTime, requestCounts)
    }

    /** The cache maps share their keys, and so do the limiter maps. */
    ghost predicate Valid()
      reads this
    {
      Cache.Consistent(Store()) && RateLimit.Tracked(Limiter())
    }

    constructor ()
      ensures Valid()
      ensures cache == map[] && cacheTimeout == map[]
      ensures lastRequestTime == map[] && requestCounts == map[]
    {
      cache := map[];
      cacheTimeout := map[];
      lastRequestTime := map[];
      requestCounts := map[];
    }

    /** `clear_expired_cache`: collect the keys whose expiry is before `now`,
        then pop each from both maps. */
    method ClearExpiredCache(now: int)
      modifies this`cache, this`cacheTimeout
      ensures Store() == Cache.Sweep(old(Store()), now)
      ensures Cache.Consistent(old(Store())) ==> Cache.Consistent(Store())
    {
      var expired := Cache.ExpiredKeys(cacheTimeout, now);
      var pending := expired;
      while pending != {}
        invariant pending <= expired
        invariant cache == old(cache) - (expired - pending)
        invariant cacheTimeout == old(cacheTimeout) - (expired - pending)
        decreases pending
      {
        var key :| key in pending;
        cache := cache - {key};
        cacheTimeout := cacheTimeout - {key};
        pending := pending - {key};
      }
    }

    /** `cache_result(key, value, timeout)`: sweep, then store. */
    method CacheResult(key: string, value: seq<string>, now: int, ttl: int)
      modifies this`cache, this`cacheTimeout
      ensures Store() == Cache.Put(old(Store()), key, value, now, ttl)
      ensures Cache.Consistent(old(Store())) ==> Cache.Consistent(Store())
    {
      ClearExpiredCache(now);
      cache := cache[key := value];
      cacheTimeout := cacheTimeout[key := now + ttl];
    }

    /** `get_cached_result(key)`: the cached value while `now` is at or before
        its expiry, otherwise None. */
    function GetCachedResult(key: string, now: int): (r: Option<seq<string>>)
      reads this
      ensures Valid() ==> (r.Some? <==> key in cache && now <= cacheTimeout[key])
      ensures r.Some? ==> key in cache && r.value == cache[key]
    {
      Cache.Get(Store(), key, now)
    }

    /** `get_dynamic_delay(endpoint)` at time `now`, where `delay` is the draw
        from the endpoint's tier (unused on its first call). Returns the sleep. */
    method GetDynamicDelay(endpoint: string, now: int, delay: int) returns (sleep: int)
      requires endpoint in lastRequestTime ==> RateLimit.InTier(delay, RateLimit.CountOf(Limiter(), endpoint))
      modifies this`lastRequestTime, this`requestCounts
      ensures sleep == RateLimit.Wait(old(Limiter()), endpoint, now, delay)
      ensures Limiter() == RateLimit.Record(old(Limiter()), endpoint, now)
      ensures RateLimit.Tracked(old(Limiter())) ==> RateLimit.Tracked(Limiter())
    {
      sleep := 0;
      if endpoint in lastRequestTime {
        var elapsed := now - lastRequestTime[endpoint];
        if elapsed < delay {
          sleep := delay - elapsed;
        }
      }
      lastRequestTime := lastRequestTime[endpoint := now];
      var count := if endpoint in requestCounts then requestCounts[endpoint] else 0;
      requestCounts := requestCounts[endpoint := count + 1];
    }

    /** Attempt `n` of `make_request`: `get_dynamic_delay(url)` with the
        limiter as the attempts before it left it (its sleep is appended to
        `pauses`), then the verdict on `replies[n]`. `done` says the loop
        ends here with `outcome`; otherwise the next backoff is appended. */
    method TryOnce<D>(url: string, replies: seq<Retry.Reply<D>>, retryCount: int, clock: seq<int>,
                      draws: seq<int>, ghost l0: RateLimit.Limiter, n: nat, pauses: seq<int>, backoffs: seq<int>)
        returns (done: bool, outcome: Retry.RequestOutcome<D>, pauses': seq<int>, backoffs': seq<int>)
      requires n < retryCount <= |replies| && retryCount <= |clock| && retryCount <= |draws|
      requires TransportFailures(replies, n)
      requires backoffs == Retry.ExponentialBackoff(n)
      requires Limiter() == LimiterAt(l0, url, clock, n)
      requires pauses == AttemptPauses(l0, url, clock, draws, n)
      requires DrawsInTier(l0, url, draws, n, retryCount)
      modifies this`lastRequestTime, this`requestCounts
      ensures Limiter() == LimiterAt(l0, url, clock, n + 1)
      ensures pauses' == AttemptPauses(l0, url, clock, draws, n + 1)
      ensures done ==> outcome == Retry.MakeRequestOutcome(replies, retryCount) && outcome.attempts == n + 1
      ensures !done ==> n + 1 < retryCount && TransportFailures(replies, n + 1) && backoffs' == Retry.ExponentialBackoff(n + 1)
    {
      assert n > 0 ==>
        url in lastRequestTime && RateLimit.CountOf(Limiter(), url) == RateLimit.CountOf(l0, url) + n;
      AfterAttemptsStep(l0, url, clock, n);
      var pause := GetDynamicDelay(url, clock[n], draws[n]);
      pauses' := pauses + [pause];
      backoffs' := backoffs;
      var reply := replies[n];
      if !reply.Transport? {
        Retry.OutcomeDecidedAt(replies, retryCount, n);
        return true, Retry.RequestOutcome(Retry.Decide(reply), backoffs, n + 1), pauses', backoffs';
      }
      if n == retryCount - 1 {
        Retry.OutcomeAllFailed(replies, retryCount);
        outcome := Retry.RequestOutcome(Retry.ConnectionFailed("네이버 API 연결 실패: " + reply.detail), backoffs, n + 1);
        return true, outcome, pauses', backoffs';
      }
      done, outcome := false, Retry.RequestOutcome(Retry.NoResponse, [], 0);
      backoffs' := backoffs + [1000 * Retry.Pow2(n)];
    }

    /** `make_request(url, retry_count=retryCount)`: each attempt first goes
        through `get_dynamic_delay(url)` at `clock[i]` with draw `draws[i]`,
        then looks at `replies[i]`. Returns the outcome (result, backoff
        sleeps, attempts) and the limiter's sleeps, one per attempt. */
    method MakeRequest<D>(url: string, replies: seq<Retry.Reply<D>>, retryCount: int,
                          clock: seq<int>, draws: seq<int>)
        returns (outcome: Retry.RequestOutcome<D>, pauses: seq<int>)
      requires retryCount <= |replies| && retryCount <= |clock| && retryCount <= |draws|
      requires DrawsInTier(Limiter(), url, draws, 0, retryCount)
      modifies this`lastRequestTime, this`requestCounts
      ensures outcome == Retry.MakeRequestOutcome(replies, retryCount)
      ensures Limiter() == LimiterAt(old(Limiter()), url, clock, outcome.attempts)
      ensures pauses == AttemptPauses(old(Limiter()), url, clock, draws, outcome.attempts)
    {
      ghost var l0 := Limiter();
      pauses := [];
      var backoffs := [];
      var attempt := 0;
      while attempt < retryCount
        invariant attempt == 0 || attempt < retryCount
        invariant TransportFailures(replies, attempt)
        invariant DrawsInTier(l0, url, draws, attempt, retryCount)
        invariant backoffs == Retry.ExponentialBackoff(attempt)
        invariant pauses == AttemptPauses(l0, url, clock, draws, attempt)
        invariant Limiter() == LimiterAt(l0, url, clock, attempt)
      {
        var done;
        done, outcome, pauses, backoffs := TryOnce(url, replies, retryCount, clock, draws, l0, attempt, pauses, backoffs);
        if done {
          return;
        }
        attempt := attempt + 1;
      }
      outcome := Retry.RequestOutcome(Retry.NoResponse, [], 0);
    }

    /** `get_news_articles(keyword, count)` against `api_url`: one
        `make_request` with the default three attempts, then the filter loop
        over the body's `items` (an absent list reads as empty). An
        `APIKeyError` is re-raised; every other failure yields `[]`. */
    method GetNewsArticles(apiUrl: string, keyword: string, count: int,
                           replies: seq<Retry.Reply<NewsBody>>, clock: seq<int>, draws: seq<int>)
        returns (result: NewsResult)
      requires DefaultRetryCount <= |replies| && DefaultRetryCount <= |clock| && DefaultRetryCount <= |draws|
      requires DrawsInTier(Limiter(), apiUrl + NewsPath, draws, 0, DefaultRetryCount)
      modifies this`lastRequestTime, this`requestCounts
      ensures var o := Retry.MakeRequestOutcome(replies, DefaultRetryCount);
        && (o.result.KeyError? ==> result == KeyRejected(o.result.message))
        && (o.result.Data? ==>
              var items := if o.result.data.Some? then o.result.data.value else [];
              result == Articles(Take(NewsFilter.Kept(keyword, items), NewsFilter.Limit(count))))
        && (!o.result.KeyError? && !o.result.Data? ==> result == Articles([]))
        && 0 < o.attempts && Limiter() == AfterAttempts(old(Limiter()), apiUrl + NewsPath, clock, o.attempts)
    {
      var url := apiUrl + NewsPath;
      var outcome, _ := MakeRequest(url, replies, DefaultRetryCount, clock, draws);
      match outcome.result
      case Data(body) =>
        var items := if body.Some? then body.value else [];
        var kept := NewsFilter.FilterNews(keyword, items, count);
        result := Articles(kept);
      case KeyError(message) =>
        result := KeyRejected(message);
      case _ =>
        result := Articles([]);
    }

    /** The cache handling of `get_trending_keywords`: a non-empty cached list
        is returned as it is. Otherwise the limiter is consulted for the
        "trending" endpoint at `now`. Then either the page read fails
        (`fetched` is None) and the result is `[]` with nothing cached, or its
        first five keywords are cached at `doneAt` for 300 s and returned. */
    method GetTrendingKeywords(now: int, delay: int, fetched: Option<seq<string>>, doneAt: int)
        returns (keywords: seq<string>, sleep: int)
      requires "trending" in lastRequestTime ==> RateLimit.InTier(delay, RateLimit.CountOf(Limiter(), "trending"))
      modifies this
      ensures var cached := old(GetCachedResult(TrendingKey, now));
        if Cache.TrendingHit(cached) then
          && keywords == cached.value && sleep == 0
          && Store() == old(Store()) && Limiter() == old(Limiter())
        else
          && sleep == RateLimit.Wait(old(Limiter()), "trending", now, delay)
          && Limiter() == RateLimit.Record(old(Limiter()), "trending", now)
          && (fetched.None? ==> keywords == [] && Store() == old(Store()))
          && (fetched.Some? ==>
                && keywords == Take(fetched.value, 5)
                && Store() == Cache.Put(old(Store()), TrendingKey, keywords, doneAt, TrendingTtl))
    {
      var cached := GetCachedResult(TrendingKey, now);
      if Cache.TrendingHit(cached) {
        return cached.value, 0;
      }
      sleep := GetDynamicDelay("trending", now, delay);
      if fetched.None? {
        return [], sleep;
      }
      keywords := Take(fetched.value, 5);
      CacheResult(TrendingKey, keywords, doneAt, TrendingTtl);
    }
  }
}
