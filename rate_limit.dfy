/** Per-endpoint request pacing (`get_dynamic_delay`), as values. Times and
    delays are integer milliseconds; the random delay is drawn by the caller
    from the tier that the endpoint's call count selects. */
module RateLimit {

  /** Inclusive bounds of a `random.uniform(lo, hi)` draw, in milliseconds. */
  datatype Tier = Tier(lo: int, hi: int)

  /** The delay range for an endpoint that has already been called `count`
      times: more than 10 calls draw from 2-4 s, more than 5 from 1-2 s,
      otherwise from 0.5-1 s. */
  function TierFor(count: nat): (t: Tier)
    ensures 500 <= t.lo < t.hi <= 4000
    ensures t.hi == 2 * t.lo
    ensures count > 10 ==> t.lo == 2000
    ensures 5 < count <= 10 ==> t.lo == 1000
    ensures count <= 5 ==> t.lo == 500
  {
    if count > 10 then Tier(2000, 4000)
    else if count > 5 then Tier(1000, 2000)
    else Tier(500, 1000)
  }

  predicate InTier(delay: int, count: nat)
  {
    TierFor(count).lo <= delay <= TierFor(count).hi
  }

  /** More calls never select a shorter range. */
  lemma TierMonotone(c1: nat, c2: nat)
    requires c1 <= c2
    ensures TierFor(c1).lo <= TierFor(c2).lo && TierFor(c1).hi <= TierFor(c2).hi
  {
  }

  /** The sleep before a request: what is left of `delay` once `elapsed`
      milliseconds have passed since the endpoint's previous call, if any. */
  function Pause(elapsed: int, delay: int): (s: int)
    ensures s >= 0
    ensures elapsed + s >= delay
    ensures s == 0 || s == delay - elapsed
    ensures elapsed >= 0 && delay >= 0 ==> s <= delay
  {
    if elapsed < delay then delay - elapsed else 0
  }

  /** The per-endpoint bookkeeping: the time of the last call and the number
      of calls so far. */
  datatype Limiter = Limiter(last: map<string, int>, counts: map<string, nat>)

  function CountOf(l: Limiter, e: string): nat
  {
    if e in l.counts then l.counts[e] else 0
  }

  /** Both maps are updated together, so they have the same keys, and an
      endpoint that has a last-call time has been called at least once. */
  predicate Tracked(l: Limiter)
  {
    && l.last.Keys == l.counts.Keys
    && forall e :: e in l.counts ==> l.counts[e] >= 1
  }

  /** The sleep a call at `now` performs, given the delay drawn for it: none on
      an endpoint's first call. */
  function Wait(l: Limiter, e: string, now: int, delay: int): (s: int)
    ensures s >= 0
    ensures e !in l.last ==> s == 0
    ensures e in l.last ==> now + s == if now < l.last[e] + delay then l.last[e] + delay else now
  {
    if e in l.last then Pause(now - l.last[e], delay) else 0
  }

  /** The bookkeeping after a call at `now`: the call time (taken before the
      sleep) is recorded and the count goes up by one. */
  function Record(l: Limiter, e: string, now: int): (t: Limiter)
    ensures CountOf(t, e) == CountOf(l, e) + 1
    ensures e in t.last && t.last[e] == now
    ensures forall x :: x != e ==> CountOf(t, x) == CountOf(l, x)
    ensures forall x :: x != e && x in l.last ==> x in t.last && t.last[x] == l.last[x]
    ensures forall x :: CountOf(t, x) >= CountOf(l, x)
    ensures Tracked(l) ==> Tracked(t)
  {
    Limiter(l.last[e := now], l.counts[e := CountOf(l, e) + 1])
  }

  /** The bookkeeping after a sequence of calls, each `(endpoint, time)`. */
  function Replay(l: Limiter, calls: seq<(string, int)>): Limiter
    decreases |calls|
  {
    if calls == [] then l
    else Replay(Record(l, calls[0].0, calls[0].1), calls[1..])
  }

  /** Replaying one more call is recording it after the others. */
  lemma {:induction false} ReplayAppend(l: Limiter, calls: seq<(string, int)>, call: (string, int))
    ensures Replay(l, calls + [call]) == Record(Replay(l, calls), call.0, call.1)
    decreases |calls|
  {
    if calls != [] {
      assert (calls + [call])[1..] == calls[1..] + [call];
      ReplayAppend(Record(l, calls[0].0, calls[0].1), calls[1..], call);
    }
  }

  function Occurrences(calls: seq<(string, int)>, e: string): nat
  {
    if calls == [] then 0
    else (if calls[0].0 == e then 1 else 0) + Occurrences(calls[1..], e)
  }

  /** Counters never reset: after any run of calls, an endpoint's count is its
      earlier count plus the number of calls made to it. */
  lemma {:induction false} ReplayCounts(l: Limiter, calls: seq<(string, int)>, e: string)
    ensures CountOf(Replay(l, calls), e) == CountOf(l, e) + Occurrences(calls, e)
    decreases |calls|
  {
    if calls != [] {
      ReplayCounts(Record(l, calls[0].0, calls[0].1), calls[1..], e);
    }
  }

  /** So an endpoint's tier only ever rises over a run of calls. */
  lemma ReplayTierRises(l: Limiter, calls: seq<(string, int)>, e: string)
    ensures TierFor(CountOf(l, e)).lo <= TierFor(CountOf(Replay(l, calls), e)).lo
  {
    ReplayCounts(l, calls, e);
    TierMonotone(CountOf(l, e), CountOf(Replay(l, calls), e));
  }

  /** The pacing the limiter does guarantee: a request leaves no earlier than
      `delay` after the previous call to the same endpoint was made. Because
      the recorded time is the one read before sleeping, two back-to-back
      requests can still go out at the same instant. */
  lemma ReleaseAfterPreviousCall(l: Limiter, e: string, now: int, delay: int)
    requires e in l.last
    ensures now + Wait(l, e, now, delay) >= l.last[e] + delay
    ensures now + Wait(l, e, now, delay) >= now
  {
  }

  /** A concrete run: a first call at 0 with no sleep, a second call at 0 that
      sleeps for its whole 1000 ms draw (released at 1000), and a third at
      1000 that does not sleep at all: two requests released at time 1000. */
  lemma BackToBackReleases()
    ensures var l0 := Limiter(map[], map[]);
            var l1 := Record(l0, "news", 0);
            var l2 := Record(l1, "news", 0);
            && Wait(l0, "news", 0, 700) == 0
            && 0 + Wait(l1, "news", 0, 1000) == 1000
            && 1000 + Wait(l2, "news", 1000, 1000) == 1000
  {
  }
}
