/** The crawler's two retry loops. The wrapped call is not run: the outcome of
    each attempt is an input, one entry per attempt the loop may make, and the
    loops return the sleeps they perform (milliseconds) with their result.

    `retry_on_failure` retries every failure and backs off linearly,
    `delay * (attempt + 1)`, whatever its comment says about exponential
    backoff. `make_request` retries transport failures only, backing off
    `2 ** attempt` seconds; an API error code or an undecodable body ends it
    at once. */
module Retry {
  import opened Common

  /** The outcome of one call of the function `retry_on_failure` wraps. */
  datatype Attempt<T> = Succeeded(value: T) | Failed(error: string)

  /** How `retry_on_failure` ends: returning a value, re-raising the last
      failure, or (when asked for no attempts at all) falling off the end of
      the loop and returning None. */
  datatype RetryResult<T> = Returned(value: T) | Raised(error: string) | ReturnedNone

  /** The index of the first successful attempt, or `|outcomes|` if none. */
  function FirstSuccess<T>(outcomes: seq<Attempt<T>>): (i: nat)
    ensures i <= |outcomes|
    ensures forall j :: 0 <= j < i ==> outcomes[j].Failed?
    ensures i < |outcomes| ==> outcomes[i].Succeeded?
  {
    if outcomes == [] || outcomes[0].Succeeded? then 0
    else 1 + FirstSuccess(outcomes[1..])
  }

  /** The sleeps after the first `n` failed attempts: `delay * 1`, `delay * 2`, ... */
  function LinearBackoff(delay: int, n: nat): (r: seq<int>)
    ensures |r| == n
    ensures forall i :: 0 <= i < n ==> r[i] == delay * (i + 1)
  {
    if n == 0 then [] else LinearBackoff(delay, n - 1) + [delay * n]
  }

  function Sum(xs: seq<int>): int
  {
    if xs == [] then 0 else Sum(xs[..|xs| - 1]) + xs[|xs| - 1]
  }

  /** The total linear backoff is `delay * (1 + 2 + ... + n)`. */
  lemma {:induction false} LinearBackoffTotal(delay: int, n: nat)
    ensures 2 * Sum(LinearBackoff(delay, n)) == delay * n * (n + 1)
  {
    if n > 0 {
      var r := LinearBackoff(delay, n);
      assert r[..n - 1] == LinearBackoff(delay, n - 1);
      LinearBackoffTotal(delay, n - 1);
      calc {
        2 * Sum(r);
        2 * Sum(LinearBackoff(delay, n - 1)) + 2 * (delay * n);
        delay * (n - 1) * n + 2 * delay * n;
        delay * n * (n + 1);
      }
    }
  }

  /** `retry_on_failure(func, max_retries=maxRetries, delay=delay)`: call at
      most `maxRetries` times, return the first success, sleep
      `delay * (attempt + 1)` after each failure that is not the last, and
      re-raise the failure of the final attempt. `calls` counts the calls. */
  method RetryOnFailure<T>(outcomes: seq<Attempt<T>>, maxRetries: int, delay: int)
      returns (result: RetryResult<T>, sleeps: seq<int>, calls: nat)
    requires maxRetries <= |outcomes|
    ensures maxRetries <= 0 ==> result == ReturnedNone && sleeps == [] && calls == 0
    ensures maxRetries > 0 && FirstSuccess(outcomes[..maxRetries]) < maxRetries ==>
      var k := FirstSuccess(outcomes[..maxRetries]);
      result == Returned(outcomes[k].value) && calls == k + 1 && sleeps == LinearBackoff(delay, k)
    ensures maxRetries > 0 && FirstSuccess(outcomes[..maxRetries]) == maxRetries ==>
      result == Raised(outcomes[maxRetries - 1].error) && calls == maxRetries
      && sleeps == LinearBackoff(delay, maxRetries - 1)
  {
    sleeps := [];
    calls := 0;
    var attempt := 0;
    while attempt < maxRetries
      invariant attempt == 0 || attempt < maxRetries
      invariant calls == attempt
      invariant forall j :: 0 <= j < attempt ==> outcomes[j].Failed?
      invariant sleeps == LinearBackoff(delay, attempt)
    {
      calls := calls + 1;
      match outcomes[attempt]
      case Succeeded(v) =>
        assert FirstSuccess(outcomes[..maxRetries]) == attempt by {
          FirstSuccessAt(outcomes[..maxRetries], attempt);
        }
        return Returned(v), sleeps, calls;
      case Failed(e) =>
        if attempt == maxRetries - 1 {
          assert FirstSuccess(outcomes[..maxRetries]) == maxRetries by {
            NoSuccess(outcomes[..maxRetries]);
          }
          return Raised(e), sleeps, calls;
        }
        sleeps := sleeps + [delay * (attempt + 1)];
      attempt := attempt + 1;
    }
    result := ReturnedNone;
  }

  lemma {:induction false} FirstSuccessAt<T>(outcomes: seq<Attempt<T>>, k: nat)
    requires k < |outcomes| && outcomes[k].Succeeded?
    requires forall j :: 0 <= j < k ==> outcomes[j].Failed?
    ensures FirstSuccess(outcomes) == k
  {
    if k > 0 {
      FirstSuccessAt(outcomes[1..], k - 1);
    }
  }

  lemma {:induction false} NoSuccess<T>(outcomes: seq<Attempt<T>>)
    requires forall j :: 0 <= j < |outcomes| ==> outcomes[j].Failed?
    ensures FirstSuccess(outcomes) == |outcomes|
  {
    if outcomes != [] {
      NoSuccess(outcomes[1..]);
    }
  }

  /** On total failure the linear backoff sleeps `delay * (maxRetries - 1) * maxRetries / 2`
      in all. */
  lemma TotalFailureSleep(delay: int, maxRetries: nat)
    requires maxRetries > 0
    ensures 2 * Sum(LinearBackoff(delay, maxRetries - 1)) == delay * (maxRetries - 1) * maxRetries
  {
    LinearBackoffTotal(delay, maxRetries - 1);
  }

  // ---------------------------------------------------------------- make_request

  /** What one attempt of `make_request` gets back: a transport failure (any
      `RequestException`, including a non-2xx status), a body that is not
      JSON, or a parsed body with its optional `errorCode`/`errorMessage`. */
  datatype Reply<D> =
    | Transport(detail: string)
    | Malformed
    | Parsed(errorCode: Option<string>, errorMessage: Option<string>, data: D)

  /** How `make_request` ends. `KeyError` is `APIKeyError`; `ApiError` and
      `BadFormat` are the plain `NaverCrawlerException`; `ConnectionFailed`
      is the crawler's `ConnectionError`; `NoResponse` is falling off the loop. */
  datatype RequestResult<D> =
    | Data(data: D)
    | KeyError(message: string)
    | ApiError(message: string)
    | BadFormat(message: string)
    | ConnectionFailed(message: string)
    | NoResponse

  datatype RequestOutcome<D> = RequestOutcome(result: RequestResult<D>, backoffs: seq<int>, attempts: nat)

  const KeyErrorCodes: seq<string> := ["024", "025"]
  const UnknownError := "알 수 없는 오류"

  /** The verdict on a reply that is not a transport failure. */
  function Decide<D>(reply: Reply<D>): (r: RequestResult<D>)
    requires !reply.Transport?
    ensures reply.Malformed? ==> r.BadFormat?
    ensures reply.Parsed? && reply.errorCode.None? ==> r == Data(reply.data)
    ensures reply.Parsed? && reply.errorCode.Some? ==>
      (r.KeyError? <==> reply.errorCode.value in KeyErrorCodes) && (r.KeyError? || r.ApiError?)
  {
    match reply
    case Malformed => BadFormat("잘못된 응답 형식")
    case Parsed(code, message, data) =>
      var text := if message.Some? then message.value else UnknownError;
      if code.None? then Data(data)
      else if code.value in KeyErrorCodes then KeyError("API 키 오류: " + text)
      else ApiError("API 오류: " + text)
  }

  /** The index of the first reply that is not a transport failure, or
      `|replies|` if all are. */
  function FirstDecisive<D>(replies: seq<Reply<D>>): (i: nat)
    ensures i <= |replies|
    ensures forall j :: 0 <= j < i ==> replies[j].Transport?
    ensures i < |replies| ==> !replies[i].Transport?
  {
    if replies == [] || !replies[0].Transport? then 0
    else 1 + FirstDecisive(replies[1..])
  }

  function Pow2(n: nat): (r: nat)
    ensures r >= 1
  {
    if n == 0 then 1 else 2 * Pow2(n - 1)
  }

  /** The sleeps after the first `n` transport failures: 1 s, 2 s, 4 s, ... */
  function ExponentialBackoff(n: nat): (r: seq<int>)
    ensures |r| == n
    ensures forall i :: 0 <= i < n ==> r[i] == 1000 * Pow2(i)
  {
    if n == 0 then [] else ExponentialBackoff(n - 1) + [1000 * Pow2(n - 1)]
  }

  /** `make_request` with `retry_count` attempts, as a function of the replies.
      With no attempt allowed the loop never runs and the result is None.
      Otherwise the connection error is reported exactly when every attempt
      failed in transport, and any other result is the verdict on the last
      attempt made, the first that did not fail in transport. */
  function MakeRequestOutcome<D>(replies: seq<Reply<D>>, retryCount: int): (o: RequestOutcome<D>)
    requires retryCount <= |replies|
    ensures o.result.NoResponse? <==> retryCount <= 0
    ensures 0 < retryCount ==> 1 <= o.attempts <= retryCount && |o.backoffs| == o.attempts - 1
    ensures 0 < retryCount ==>
      (o.result.ConnectionFailed? <==> forall j :: 0 <= j < retryCount ==> replies[j].Transport?)
    ensures 0 < retryCount && !o.result.ConnectionFailed? ==>
      !replies[o.attempts - 1].Transport? && o.result == Decide(replies[o.attempts - 1])
      && forall j :: 0 <= j < o.attempts - 1 ==> replies[j].Transport?
  {
    if retryCount <= 0 then RequestOutcome(NoResponse, [], 0)
    else
      var k := FirstDecisive(replies[..retryCount]);
      if k < retryCount then RequestOutcome(Decide(replies[k]), ExponentialBackoff(k), k + 1)
      else RequestOutcome(ConnectionFailed("네이버 API 연결 실패: " + replies[retryCount - 1].detail),
                          ExponentialBackoff(retryCount - 1), retryCount)
  }

  /** An error code ends the loop on the attempt that received it: a key error
      (codes "024"/"025") or any other code is never retried. */
  lemma ErrorCodeNotRetried<D>(replies: seq<Reply<D>>, retryCount: int, i: nat)
    requires retryCount <= |replies| && i < retryCount
    requires forall j :: 0 <= j < i ==> replies[j].Transport?
    requires replies[i].Parsed? && replies[i].errorCode.Some?
    ensures var o := MakeRequestOutcome(replies, retryCount);
      && o.attempts == i + 1
      && |o.backoffs| == i
      && (o.result.KeyError? <==> replies[i].errorCode.value in KeyErrorCodes)
      && (o.result.KeyError? || o.result.ApiError?)
  {
    FirstDecisiveAt(replies[..retryCount], i);
  }

  /** Every attempt before the last is followed by a retry only after a
      transport failure, and then the k-th backoff is `2 ** k` seconds. */
  lemma RetriesOnlyTransport<D>(replies: seq<Reply<D>>, retryCount: int)
    requires retryCount <= |replies|
    ensures var o := MakeRequestOutcome(replies, retryCount);
      && o.attempts <= (if retryCount < 0 then 0 else retryCount)
      && |o.backoffs| == (if o.attempts == 0 then 0 else o.attempts - 1)
      && (forall j :: 0 <= j < |o.backoffs| ==> replies[j].Transport? && o.backoffs[j] == 1000 * Pow2(j))
  {
  }

  /** When every attempt fails in transport, the last failure becomes a
      `ConnectionError` after `retryCount` attempts and `2 ** (retryCount - 1) - 1`
      seconds of backoff in all. */
  lemma AllTransportFailures<D>(replies: seq<Reply<D>>, retryCount: int)
    requires 0 < retryCount <= |replies|
    requires forall j :: 0 <= j < retryCount ==> replies[j].Transport?
    ensures var o := MakeRequestOutcome(replies, retryCount);
      && o.result.ConnectionFailed?
      && o.attempts == retryCount
      && Sum(o.backoffs) == 1000 * (Pow2(retryCount - 1) - 1)
  {
    NoDecisive(replies[..retryCount]);
    ExponentialBackoffTotal(retryCount - 1);
  }

  /** The outcome when reply `k` is the first that is not a transport failure. */
  lemma OutcomeDecidedAt<D>(replies: seq<Reply<D>>, retryCount: int, k: nat)
    requires retryCount <= |replies| && k < retryCount
    requires forall j :: 0 <= j < k ==> replies[j].Transport?
    requires !replies[k].Transport?
    ensures MakeRequestOutcome(replies, retryCount) == RequestOutcome(Decide(replies[k]), ExponentialBackoff(k), k + 1)
  {
    FirstDecisiveAt(replies[..retryCount], k);
  }

  /** The outcome when all `retryCount` attempts fail in transport. */
  lemma OutcomeAllFailed<D>(replies: seq<Reply<D>>, retryCount: int)
    requires 0 < retryCount <= |replies|
    requires forall j :: 0 <= j < retryCount ==> replies[j].Transport?
    ensures MakeRequestOutcome(replies, retryCount) ==
      RequestOutcome(ConnectionFailed("네이버 API 연결 실패: " + replies[retryCount - 1].detail),
                     ExponentialBackoff(retryCount - 1), retryCount)
  {
    NoDecisive(replies[..retryCount]);
  }

  lemma ExponentialBackoffTotal(n: nat)
    ensures Sum(ExponentialBackoff(n)) == 1000 * (Pow2(n) - 1)
  {
    GeometricSum(ExponentialBackoff(n));
  }

  /** Any run of sleeps `1000 * 2 ** i` sums to `1000 * (2 ** length - 1)`. */
  lemma {:induction false} GeometricSum(xs: seq<int>)
    requires forall i :: 0 <= i < |xs| ==> xs[i] == 1000 * Pow2(i)
    ensures Sum(xs) == 1000 * (Pow2(|xs|) - 1)
  {
    if xs != [] {
      var init := xs[..|xs| - 1];
      GeometricSum(init);
      DoublingStep(Sum(xs), Sum(init), Pow2(|init|), Pow2(|xs|));
    }
  }

  lemma DoublingStep(total: int, before: int, p: int, q: int)
    requires before == 1000 * (p - 1) && total == before + 1000 * p && q == 2 * p
    ensures total == 1000 * (q - 1)
  {
  }

  lemma {:induction false} FirstDecisiveAt<D>(replies: seq<Reply<D>>, k: nat)
    requires k < |replies| && !replies[k].Transport?
    requires forall j :: 0 <= j < k ==> replies[j].Transport?
    ensures FirstDecisive(replies) == k
  {
    if k > 0 {
      FirstDecisiveAt(replies[1..], k - 1);
    }
  }

  lemma {:induction false} NoDecisive<D>(replies: seq<Reply<D>>)
    requires forall j :: 0 <= j < |replies| ==> replies[j].Transport?
    ensures FirstDecisive(replies) == |replies|
  {
    if replies != [] {
      NoDecisive(replies[1..]);
    }
  }
}
