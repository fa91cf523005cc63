/** `KeywordSearcher`: a request loop that retries transport errors without
    waiting, and the list shaping its callers do on the JSON they get back.
    Every caller swallows errors and answers with an empty list instead. */
module KeywordSearch {
  import opened Common

  /** `self.max_retries`. */
  const MaxRetries: nat := 3

  /** One attempt: `requests.get`, `raise_for_status()` and `.json()`. It
      yields the parsed body, fails with a `RequestException`, or fails with
      any other exception. */
  datatype Attempt<J> = Got(json: J) | RequestFailed(detail: string) | OtherFailure(detail: string)

  /** How `_make_request` ends: a body, or an exception that propagates. */
  datatype Fetched<J> = Json(value: J) | Raised(detail: string)

  /** The first attempt among the first `MaxRetries` that does not fail with a
      `RequestException`, or `MaxRetries` if they all do. */
  function Settled<J>(attempts: seq<Attempt<J>>, from: nat): (k: nat)
    requires from <= MaxRetries <= |attempts|
    ensures from <= k <= MaxRetries
    ensures forall j :: from <= j < k ==> attempts[j].RequestFailed?
    ensures k < MaxRetries ==> !attempts[k].RequestFailed?
    decreases MaxRetries - from
  {
    if from == MaxRetries || !attempts[from].RequestFailed? then from
    else Settled(attempts, from + 1)
  }

  /** What `_make_request` returns or raises, given its attempts: the body of
      a success that only transport failures precede, or the exception of an
      attempt that only transport failures precede and that is either not a
      transport failure or the last attempt. */
  function Fetch<J>(attempts: seq<Attempt<J>>): (r: Fetched<J>)
    requires MaxRetries <= |attempts|
    ensures r.Json? ==>
      exists k :: && 0 <= k < MaxRetries && attempts[k] == Got(r.value)
                  && forall j :: 0 <= j < k ==> attempts[j].RequestFailed?
    ensures r.Raised? ==>
      exists k :: && 0 <= k < MaxRetries && !attempts[k].Got? && attempts[k].detail == r.detail
                  && (attempts[k].OtherFailure? || k == MaxRetries - 1)
                  && forall j :: 0 <= j < k ==> attempts[j].RequestFailed?
  {
    var k := Settled(attempts, 0);
    if k == MaxRetries then Raised(attempts[MaxRetries - 1].detail)
    else if attempts[k].Got? then Json(attempts[k].json)
    else Raised(attempts[k].detail)
  }

  /** How many attempts `_make_request` makes. */
  function Calls<J>(attempts: seq<Attempt<J>>): nat
    requires MaxRetries <= |attempts|
  {
    var k := Settled(attempts, 0);
    if k == MaxRetries then MaxRetries else k + 1
  }

  /** `_make_request(url, params)`: up to three attempts, no wait between
      them. A `RequestException` is retried, except on the last attempt,
      where it propagates; any other exception propagates at once. */
  method MakeRequest<J>(attempts: seq<Attempt<J>>) returns (r: Fetched<J>, calls: nat)
    requires MaxRetries <= |attempts|
    ensures r == Fetch(attempts) && calls == Calls(attempts)
    ensures 1 <= calls <= MaxRetries
  {
    r := Raised("");
    calls := 0;
    for attempt := 0 to MaxRetries
      invariant calls == attempt
      invariant forall j :: 0 <= j < attempt ==> attempts[j].RequestFailed?
      invariant attempt > 0 ==> r == Raised(attempts[attempt - 1].detail)
    {
      calls := attempt + 1;
      match attempts[attempt]
      case Got(body) =>
        return Json(body), calls;
      case OtherFailure(detail) =>
        return Raised(detail), calls;
      case RequestFailed(detail) =>
        // on the last attempt the loop ends and this exception propagates
        r := Raised(detail);
    }
  }

  /** The first success is returned, after exactly the transport failures
      before it. */
  lemma FirstSuccessReturned<J>(attempts: seq<Attempt<J>>, k: nat)
    requires MaxRetries <= |attempts| && k < MaxRetries && attempts[k].Got?
    requires forall j :: 0 <= j < k ==> attempts[j].RequestFailed?
    ensures Fetch(attempts) == Json(attempts[k].json) && Calls(attempts) == k + 1
  {
  }

  /** Three transport failures: the third one propagates. */
  lemma LastFailureRaised<J>(attempts: seq<Attempt<J>>)
    requires MaxRetries <= |attempts|
    requires forall j :: 0 <= j < MaxRetries ==> attempts[j].RequestFailed?
    ensures Fetch(attempts) == Raised(attempts[MaxRetries - 1].detail) && Calls(attempts) == MaxRetries
  {
  }

  /** Any other exception is not retried. */
  lemma OtherFailureNotRetried<J>(attempts: seq<Attempt<J>>, k: nat)
    requires MaxRetries <= |attempts| && k < MaxRetries && attempts[k].OtherFailure?
    requires forall j :: 0 <= j < k ==> attempts[j].RequestFailed?
    ensures Fetch(attempts) == Raised(attempts[k].detail) && Calls(attempts) == k + 1
  {
  }

  // ---------------------------------------------------------------- get_related_keywords

  /** The autocomplete body: its `items` key, when present. Each entry of
      `items[0]` is a list whose first element is the suggestion. */
  datatype SuggestBody = SuggestBody(items: Option<seq<seq<seq<string>>>>)

  function Firsts(entries: seq<seq<string>>): (r: seq<string>)
    requires forall i :: 0 <= i < |entries| ==> entries[i] != []
    ensures |r| == |entries|
    ensures forall i :: 0 <= i < |r| ==> r[i] == entries[i][0]
  {
    seq(|entries|, i requires 0 <= i < |entries| => entries[i][0])
  }

  /** `get_related_keywords(keyword)` on what `_make_request` gave. The list
      of first elements is built in full before the cut to 10, so one empty
      entry anywhere raises `IndexError`, and the caller answers `[]`. */
  function RelatedKeywords(f: Fetched<SuggestBody>): (r: seq<string>)
    ensures |r| <= 10
    ensures r != [] ==> f.Json? && f.value.items.Some? && f.value.items.value != []
    ensures r != [] ==> forall i :: 0 <= i < |r| ==>
      i < |f.value.items.value[0]| && f.value.items.value[0][i] != [] && r[i] == f.value.items.value[0][i][0]
    ensures (&& f.Json? && f.value.items.Some? && f.value.items.value != []
             && exists i :: 0 <= i < |f.value.items.value[0]| && f.value.items.value[0][i] == []) ==> r == []
  {
    if f.Raised? || f.value.items.None? || f.value.items.value == [] then []
    else
      var entries := f.value.items.value[0];
      if exists i :: 0 <= i < |entries| && entries[i] == [] then []
      else Take(Firsts(entries), 10)
  }

  /** When every entry has a first element, all of them up to the tenth are
      returned, in order. */
  lemma RelatedKeywordsComplete(f: Fetched<SuggestBody>)
    requires f.Json? && f.value.items.Some? && f.value.items.value != []
    requires forall i :: 0 <= i < |f.value.items.value[0]| ==> f.value.items.value[0][i] != []
    ensures var entries := f.value.items.value[0];
      |RelatedKeywords(f)| == (if |entries| < 10 then |entries| else 10)
  {
  }

  // ---------------------------------------------------------------- get_popular_keywords

  /** The ranking body: a list of entries, each with its `keyword` key when
      present, or something that is not a list. */
  datatype RankingBody = Ranking(entries: seq<Option<string>>) | NotAList

  /** `get_popular_keywords()`: the keywords of the first five entries. An
      empty list or a non-list answers `[]`, and so does a missing `keyword`
      among the first five (a `KeyError`). */
  function PopularKeywords(f: Fetched<RankingBody>): (r: seq<string>)
    ensures |r| <= 5
    ensures r != [] ==> f.Json? && f.value.Ranking? && |r| == (if |f.value.entries| < 5 then |f.value.entries| else 5)
    ensures r != [] ==> forall i :: 0 <= i < |r| ==> f.value.entries[i] == Some(r[i])
  {
    if f.Raised? || f.value.NotAList? || f.value.entries == [] then []
    else
      var top := Take(f.value.entries, 5);
      if exists i :: 0 <= i < |top| && top[i].None? then []
      else seq(|top|, i requires 0 <= i < |top| => top[i].value)
  }

  /** The converse: a ranking whose first five entries all carry a keyword
      gives exactly those keywords. */
  lemma PopularKeywordsComplete(f: Fetched<RankingBody>)
    requires f.Json? && f.value.Ranking? && f.value.entries != []
    requires forall i :: 0 <= i < |f.value.entries| && i < 5 ==> f.value.entries[i].Some?
    ensures PopularKeywords(f) != []
  {
    assert f.value.entries[0].Some?;
  }

  // ---------------------------------------------------------------- get_popular_news

  /** `search_news(keyword)` on what `_make_request` gave: the body's `items`
      list when there is one, otherwise (an error, or no `items`) `[]`. */
  function SearchNews<T>(f: Fetched<Option<seq<T>>>): seq<T>
  {
    if f.Json? && f.value.Some? then f.value.value else []
  }

  function Concat<T>(xss: seq<seq<T>>): seq<T>
  {
    if xss == [] then [] else Concat(xss[..|xss| - 1]) + xss[|xss| - 1]
  }

  /** The two news items each search contributes. */
  function NewsPerKeyword<T>(searches: seq<seq<Attempt<Option<seq<T>>>>>): (r: seq<seq<T>>)
    requires forall i :: 0 <= i < |searches| ==> MaxRetries <= |searches[i]|
    ensures |r| == |searches|
    ensures forall i :: 0 <= i < |r| ==> r[i] == Take(SearchNews(Fetch(searches[i])), 2)
  {
    seq(|searches|, i requires 0 <= i < |searches| => Take(SearchNews(Fetch(searches[i])), 2))
  }

  /** `get_popular_news(keywords)`: for each keyword in order, the first two
      items its news search returns, appended to one list. `searches[i]` are
      the request attempts for `keywords[i]`. */
  method GetPopularNews<T>(keywords: seq<string>, searches: seq<seq<Attempt<Option<seq<T>>>>>)
      returns (allNews: seq<T>)
    requires |searches| == |keywords|
    requires forall i :: 0 <= i < |searches| ==> MaxRetries <= |searches[i]|
    ensures allNews == Concat(NewsPerKeyword(searches))
  {
    ghost var per := NewsPerKeyword(searches);
    allNews := [];
    for i := 0 to |keywords|
      invariant allNews == Concat(per[..i])
    {
      var data, _ := MakeRequest(searches[i]);
      var news := SearchNews(data);
      var firstTwo := Take(news, 2);
      assert per[..i + 1][..i] == per[..i];
      allNews := allNews + firstTwo;
    }
    assert per[..|keywords|] == per;
  }

  /** At most two items per keyword. */
  lemma {:induction false} ConcatBound<T>(xss: seq<seq<T>>, m: nat)
    requires forall i :: 0 <= i < |xss| ==> |xss[i]| <= m
    ensures |Concat(xss)| <= m * |xss|
  {
    if xss != [] {
      ConcatBound(xss[..|xss| - 1], m);
    }
  }

  lemma PopularNewsBound<T>(searches: seq<seq<Attempt<Option<seq<T>>>>>)
    requires forall i :: 0 <= i < |searches| ==> MaxRetries <= |searches[i]|
    ensures |Concat(NewsPerKeyword(searches))| <= 2 * |searches|
  {
    ConcatBound(NewsPerKeyword(searches), 2);
  }

  /** Keyword `i`'s block of the result holds the first two items its search
      returned, and is empty when the search raised or its body had no
      `items`. */
  lemma PopularNewsBlock<T>(searches: seq<seq<Attempt<Option<seq<T>>>>>, i: nat)
    requires forall i :: 0 <= i < |searches| ==> MaxRetries <= |searches[i]|
    requires i < |searches|
    ensures var per, f := NewsPerKeyword(searches), Fetch(searches[i]);
      var all, before := Concat(per), |Concat(per[..i])|;
      && before + |per[i]| <= |all|
      && (f.Json? && f.value.Some? ==> all[before..before + |per[i]|] == Take(f.value.value, 2))
      && (f.Raised? || f.value.None? ==> per[i] == [])
  {
    ConcatOrder(NewsPerKeyword(searches), i);
  }

  /** The items of keyword `i` come right after those of the keywords before
      it, in the order the search gave them. */
  lemma {:induction false} ConcatOrder<T>(xss: seq<seq<T>>, i: nat)
    requires i < |xss|
    ensures var before := |Concat(xss[..i])|;
      before + |xss[i]| <= |Concat(xss)| && Concat(xss)[before..before + |xss[i]|] == xss[i]
    decreases |xss|
  {
    var n := |xss|;
    if i < n - 1 {
      ConcatOrder(xss[..n - 1], i);
      assert xss[..n - 1][..i] == xss[..i];
      assert xss[..n - 1][i] == xss[i];
    } else {
      assert xss[..i] == xss[..n - 1];
    }
  }
}
