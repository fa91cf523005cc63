# Naver crawler core, modelled in Dafny

This project models the stateful and string-shaping logic of a Naver
news/keyword crawler and of its content uploader, and proves what that logic
guarantees.

**The crawler (`modules/naver_crawler.py`, class `NaverCrawler`).**
- `Crawler.NaverCrawler` keeps the source's four dictionaries as map fields:
  the result cache, its expiry times, the per-endpoint last request time and
  the per-endpoint request count.
- Its methods update those fields as the source does, and each is proved
  against a value-level model:
  - `Cache`: the time-to-live cache, with a lazy sweep on every write.
  - `RateLimit`: the per-endpoint pacing of `get_dynamic_delay`.
  - `Retry`: the two retry loops, `retry_on_failure` and `make_request`.
  - `TagStrip`: the markup regex `<[^<]+?>`.
  - `HotTopic`: the weighted hot-topic classifier.
  - `NewsFilter`: the filtering loop of `get_news_articles`.

**The uploader (`naver-crawler-temp/modules/content_uploader.py`).**
- `Uploader` covers:
  - the file-name sanitizer;
  - the Obsidian note (front matter and body);
  - the summary markdown;
  - the Notion page body and its tag list.
- `KeywordSearch` covers `KeywordSearcher`: its three-attempt request loop
  and the lists its callers build from the JSON they get back.

**Conventions.**
- Time is integer milliseconds. The clock readings and the random delay draws
  are parameters.
- The reply to each request attempt is an input, one entry per attempt. The
  loops return the sleeps they would perform instead of sleeping.
- A Python dict whose keys may be missing is a datatype of `Option` fields.
- Exceptions that the source raises become error results.

## Model

| member | source | states |
|---|---|---|
| Cache.Sweep | modules/naver_crawler.py:381-390 | `clear_expired_cache` removes from both maps exactly the keys whose expiry is strictly before now; every other entry keeps its value and expiry, every remaining expiry is at or after now, and every live entry survives |
| Cache.Put | modules/naver_crawler.py:392-396 | `cache_result` maps the key to the value with expiry now+ttl, and the two maps keep identical key sets; every other key keeps its value and expiry, and survives exactly when it was live |
| Cache.Get | modules/naver_crawler.py:398-402 | `get_cached_result` returns the stored value iff the key is cached and now ≤ its expiry (a missing expiry reads as 0); otherwise None |
| Cache.GetAfterPut | modules/naver_crawler.py:392-402 | a value just cached is returned at every time up to its expiry inclusive and at no time after |
| Cache.ExpiryInstantIsLive | modules/naver_crawler.py:381-402 | an entry whose expiry equals the current time survives the sweep (`>`) and is still returned (`<=`) |
| Cache.PutOtherKeyUnobservable | modules/naver_crawler.py:381-402 | lazy eviction cannot be observed: caching another key never changes what a lookup at the same or a later time returns |
| Cache.SweepIdempotent | modules/naver_crawler.py:381-390 | a second sweep at the same time removes nothing |
| Crawler.NaverCrawler.constructor | modules/naver_crawler.py:49-54 | the crawler starts with four empty dictionaries, which satisfy the key-set invariants |
| Crawler.NaverCrawler.ClearExpiredCache | modules/naver_crawler.py:381-390 | the loop that pops each expired key from both dicts leaves exactly `Cache.Sweep` of the old maps, and preserves equal key sets |
| Crawler.NaverCrawler.CacheResult | modules/naver_crawler.py:392-396 | sweep then store leaves exactly `Cache.Put` of the old maps |
| Crawler.NaverCrawler.GetCachedResult | modules/naver_crawler.py:398-402 | under the key-set invariant, the lookup hits iff the key is cached and now ≤ its expiry, and a hit returns the cached value |
| Crawler.NaverCrawler.GetDynamicDelay | modules/naver_crawler.py:120-145 | the sleep is `RateLimit.Wait` (none on first use); the endpoint's last time becomes now and its count rises by one, and no other endpoint changes (`RateLimit.Record`) |
| Crawler.NaverCrawler.MakeRequest | modules/naver_crawler.py:240-279 | the attempt loop ends with `Retry.MakeRequestOutcome`; each attempt sleeps the limiter's `Wait` as that attempt finds it (`AttemptPauses`), and the limiter ends having recorded one call on the URL per attempt (`LimiterAt`) |
| Crawler.NaverCrawler.TryOnce | modules/naver_crawler.py:242-279 | one pass of the loop: the URL is paced and recorded, then the reply either decides the outcome of the whole loop or, being a transport failure before the last attempt, adds the next 2^k s backoff |
| Crawler.AttemptPausesAt | modules/naver_crawler.py:242-245 | attempt i sleeps the limiter's wait at its own clock reading and draw, after the i earlier attempts were recorded |
| Crawler.AttemptPausesMeaning | modules/naver_crawler.py:120-145 | no attempt's sleep is negative; the first call to a new URL does not sleep; every other attempt is released at max(its clock, the URL's previous call + its draw) |
| Crawler.NaverCrawler.GetNewsArticles | modules/naver_crawler.py:281-337 | an API-key error is re-raised; any other failure, or no response, yields []; a response yields `NewsFilter.FilterNews` of its items (an absent list is empty) |
| Crawler.NaverCrawler.GetTrendingKeywords | modules/naver_crawler.py:404-425 | a non-empty cached list is returned without touching the limiter; otherwise the "trending" endpoint is paced, and the first five fetched keywords are cached for 300 s and returned, or [] with nothing cached on failure |
| Crawler.ReplayAttempts | modules/naver_crawler.py:242-245 | the closed form of the limiter after n attempts equals replaying n calls on the URL through `RateLimit.Record` |
| RateLimit.TierFor | modules/naver_crawler.py:131-138 | the delay range is 2–4 s above 10 calls, 1–2 s above 5, else 0.5–1 s (each bound of each branch is stated) |
| RateLimit.TierMonotone | modules/naver_crawler.py:131-138 | more calls never select a lower range |
| RateLimit.Pause | modules/naver_crawler.py:140-141 | the sleep is delay−elapsed when elapsed < delay, else 0; it is never negative and at most the delay |
| RateLimit.Wait | modules/naver_crawler.py:122-141 | no sleep on an endpoint's first call; otherwise the request is released at max(now, last call + delay) |
| RateLimit.Record | modules/naver_crawler.py:143-145 | the endpoint's last time becomes now and its count rises by exactly one; other endpoints are unchanged; no count decreases |
| RateLimit.ReplayCounts | modules/naver_crawler.py:143-145 | after any run of calls, an endpoint's count is its old count plus its number of calls (counters never reset) |
| RateLimit.ReplayTierRises | modules/naver_crawler.py:131-145 | over any run of calls an endpoint's delay range only rises |
| RateLimit.ReleaseAfterPreviousCall | modules/naver_crawler.py:122-145 | a request is released no earlier than the delay after the previous call's recorded time |
| RateLimit.BackToBackReleases | modules/naver_crawler.py:122-145 | the recorded time is read before sleeping, so two requests to one endpoint can be released at the same instant |
| Retry.LinearBackoff | modules/naver_crawler.py:205 | the sleep after failed attempt i is delay·(i+1) |
| Retry.LinearBackoffTotal | modules/naver_crawler.py:205 | the first n sleeps total delay·n·(n+1)/2 |
| Retry.RetryOnFailure | modules/naver_crawler.py:195-205 | at most max_retries calls; the first success is returned after linear backoffs; otherwise the last failure is re-raised after max_retries calls; with max_retries ≤ 0 nothing is called and None is returned |
| Retry.TotalFailureSleep | modules/naver_crawler.py:195-205 | on total failure the loop sleeps delay·(1+…+(max_retries−1)) |
| Retry.Decide | modules/naver_crawler.py:258-279 | an undecodable body is a format error; no errorCode returns the data; errorCode 024/025 is an API-key error and any other code a plain API error |
| Retry.MakeRequestOutcome | modules/naver_crawler.py:240-279 | no response iff retry_count ≤ 0; otherwise 1 to retry_count attempts with one backoff fewer; a connection error iff every attempt failed in transport; otherwise the result is `Decide` of the first reply that did not, all earlier ones being transport failures |
| Retry.ExponentialBackoff | modules/naver_crawler.py:275 | the k-th retry waits 2^k seconds |
| Retry.ErrorCodeNotRetried | modules/naver_crawler.py:262-267 | a reply with an errorCode ends the loop on that attempt, as a key error iff the code is 024 or 025 |
| Retry.RetriesOnlyTransport | modules/naver_crawler.py:271-275 | at most retry_count attempts; every backoff follows a transport failure and the k-th is 2^k s |
| Retry.AllTransportFailures | modules/naver_crawler.py:271-275 | when every attempt fails in transport, the result is a connection error after retry_count attempts and 2^(retry_count−1)−1 s of backoff |
| Retry.OutcomeDecidedAt | modules/naver_crawler.py:240-279 | the first reply that is not a transport failure decides the result, after one backoff per earlier attempt |
| Retry.OutcomeAllFailed | modules/naver_crawler.py:271-274 | the last transport failure becomes `ConnectionError("네이버 API 연결 실패: …")` |
| Retry.ExponentialBackoffTotal | modules/naver_crawler.py:275 | n exponential backoffs total 2^n−1 seconds |
| Retry.GeometricSum | modules/naver_crawler.py:275 | any run of sleeps 2^i seconds (i = 0, 1, …) sums to 2^length − 1 seconds |
| HotTopic.CheckHotTopic | modules/naver_crawler.py:157-193 | breaking or trending vocabulary alone makes a topic hot; a hot topic has a keyword of some category |
| HotTopic.AnyIn | modules/naver_crawler.py:178-185 | a category matches iff one of its keywords occurs in the text |
| HotTopic.Score | modules/naver_crawler.py:174-191 | each category and each title marker adds its weight at most once, so the score is at most 6.8 |
| HotTopic.HotCharacterization | modules/naver_crawler.py:157-193 | hot iff breaking or trending vocabulary, or viral and significant together, or either of those with "!"/"?" in the title |
| HotTopic.NewsTagIsBreaking | modules/naver_crawler.py:160-190 | a "[단독]"/"[속보]" title tag always contains a breaking-news keyword |
| HotTopic.NewsTagAlwaysHot | modules/naver_crawler.py:157-193 | a title tagged "[단독]" or "[속보]" is always hot |
| HotTopic.NoKeywordNeverHot | modules/naver_crawler.py:157-193 | text with no category keyword is never hot |
| HotTopic.ExactThresholdSums | modules/naver_crawler.py:166-193 | only trending alone and significant with punctuation land exactly on the threshold |
| HotTopic.JoinedMatch | modules/naver_crawler.py:175 | a keyword without spaces occurs in "title content" iff it occurs in the title or in the content |
| HotTopic.TaggedExampleHot | modules/naver_crawler.py:190-193 | "[속보] 긴급 발표!" is hot |
| Common.Contains | modules/naver_crawler.py:312 | Python's `p in s`: true iff `p` occurs at some position of `s` |
| Common.Join | naver-crawler-temp/modules/content_uploader.py:188 | `' '.join`: the pieces' lengths plus one separator between consecutive pieces, starting with the first piece |
| Common.JoinSnoc | naver-crawler-temp/modules/content_uploader.py:268 | read from the other end, the last piece follows the join of the others and one separator; with `Join`'s own contract this places every piece and every separator |
| Common.Lower | modules/naver_crawler.py:312 | lower-casing keeps the length and maps each ASCII capital to its small letter |
| TagStrip.TagEnd | modules/naver_crawler.py:308-309 | a match closes at the first '>' at index 2 or later with no '<' before it; if there is none, there is no match |
| TagStrip.MatchAt | modules/naver_crawler.py:308 | a match is '<', at least one non-'<' character, then the first '>' after them (lazy `+?`); there is no match exactly when every '>' from index 2 on has a '<' before it |
| TagStrip.StripTags | modules/naver_crawler.py:308-309 | the whole substitution never lengthens the text |
| TagStrip.StripIsSubsequence | modules/naver_crawler.py:308-309 | stripping only deletes characters, keeping their order, so it never lengthens the text |
| TagStrip.NoAngleUnchanged | modules/naver_crawler.py:308-309 | text without '<' is unchanged |
| TagStrip.StripsWellFormedTag | modules/naver_crawler.py:308-309 | a tag `<name>` after plain text is removed and the plain text is kept |
| TagStrip.EmptyBracketsKept | modules/naver_crawler.py:308-309 | "<>" is not removed |
| TagStrip.NotIdempotent | modules/naver_crawler.py:308-309 | one pass turns "<a<b>>" into "<a>", which a second pass removes |
| NewsFilter.Process | modules/naver_crawler.py:305-327 | an item yields an article iff it has title, description and link and its stripped title or description contains the keyword ignoring case; the article holds the stripped texts, the link and the tags ['#핫토픽','#핫이슈'] when `check_hot_topic` holds of the stripped texts, [] otherwise |
| NewsFilter.Limit | modules/naver_crawler.py:320-323 | the loop stops after exactly max(count, 1) articles, because the test follows the append |
| NewsFilter.FilterNews | modules/naver_crawler.py:304-327 | the loop returns the first max(count,1) articles of all the items would yield, in order |
| NewsFilter.FilterSound | modules/naver_crawler.py:304-327 | the result is an order-preserving selection of items: each article comes from an item after the previous one's, holds its stripped title (never longer), is relevant and carries exactly the hot tags; at most max(count,1) articles |
| NewsFilter.KeptComplete | modules/naver_crawler.py:304-327 | every item that yields an article is among the articles the loop keeps when it does not stop early |
| Uploader.KeywordLine | naver-crawler-temp/modules/content_uploader.py:268 | the keywords joined with single spaces (`Common.Join` with " "), and an absent keyword list gives an empty line |
| Uploader.FormatToMarkdown | naver-crawler-temp/modules/content_uploader.py:262-282 | the note renders iff title, original_link and content are present; otherwise the KeyError names the first missing one in that order |
| Uploader.FrontMatterRoundTrip | naver-crawler-temp/modules/content_uploader.py:264-269 | the note starts with a `---` block whose title, source, date and tags lines read back as the title, the link, the date and the joined keywords |
| Uploader.NoteReadBack | naver-crawler-temp/modules/content_uploader.py:264-281 | the whole note reads back line by line: the front matter, then "# " and the title, the link under "## 원문 링크", the content under "## 내용" and the space-joined keywords under "## 키워드", and nothing after them (for fields without line breaks) |
| Uploader.KeywordSectionLast | naver-crawler-temp/modules/content_uploader.py:264-281 | the note ends with `## 키워드` and the same joined keywords as the front matter's tags |
| Uploader.ConvertToMarkdown | naver-crawler-temp/modules/content_uploader.py:173-176 | the summary markdown is never empty and starts with "# " |
| Uploader.ConvertHeading | naver-crawler-temp/modules/content_uploader.py:173-176 | the summary markdown opens with "# " and the title, or with "네이버 크롤링 콘텐츠" when there is none |
| Uploader.ConvertSections | naver-crawler-temp/modules/content_uploader.py:175-185 | the first eleven lines read back as the title heading, then "## 원본 콘텐츠" over original_content, "## 요약본 (1000자)" over long_version and "## 요약본 (450자)" over short_version, each field "" when its key is missing (for fields without line breaks) |
| Uploader.ConvertTail | naver-crawler-temp/modules/content_uploader.py:187-192 | it closes with the keyword section (the joined keywords), a rule and the creation time |
| Uploader.RemoveForbidden | naver-crawler-temp/modules/content_uploader.py:287 | none of `<>:"/\|?*` remains; all other characters are kept |
| Uploader.RemoveForbiddenKeepsOrder | naver-crawler-temp/modules/content_uploader.py:287 | the cleaned name is a subsequence of the original: characters are only deleted, never reordered |
| Uploader.Underscore | naver-crawler-temp/modules/content_uploader.py:289 | every space becomes '_' and nothing else changes |
| Uploader.SanitizeFilename | naver-crawler-temp/modules/content_uploader.py:284-291 | the stem has at most 50 characters, none of them forbidden or a space |
| Uploader.SanitizeFixedPoint | naver-crawler-temp/modules/content_uploader.py:284-291 | a name is unchanged iff it is already clean and at most 50 characters long |
| Uploader.SanitizeIdempotent | naver-crawler-temp/modules/content_uploader.py:284-291 | sanitizing twice is sanitizing once |
| Uploader.SanitizePrefix | naver-crawler-temp/modules/content_uploader.py:287-291 | cleaning precedes the cut, so the stem of a title is a prefix of the stem of any longer title it starts |
| Uploader.SaveToObsidian | naver-crawler-temp/modules/content_uploader.py:198-224 | saving succeeds iff title, link and content are present; its text is the `format_to_markdown` note; errors carry the "옵시디언 저장 실패: " prefix |
| Uploader.ObsidianFilename | naver-crawler-temp/modules/content_uploader.py:205-207 | the file name is timestamp + "_" + sanitized title + ".md", bounded in length and free of forbidden characters |
| Uploader.RemoveAll | naver-crawler-temp/modules/content_uploader.py:238 | removing '#' leaves no '#' and keeps every other character |
| Uploader.RemoveAllExact | naver-crawler-temp/modules/content_uploader.py:238 | `replace('#', '')` keeps the other characters in order and is shorter by exactly the number of '#'s |
| Uploader.NotionTags | naver-crawler-temp/modules/content_uploader.py:238 | one tag per keyword, in order, each being the keyword with every '#' removed |
| Uploader.SaveToNotion | naver-crawler-temp/modules/content_uploader.py:226-260 | the page is built iff a client and a non-empty database id exist and title, link and content are present; without setup the error is "노션 API 설정이 필요합니다"; the page carries the title, link, content and tag list |
| Uploader.MissingContentRejected | naver-crawler-temp/modules/content_uploader.py:226-282 | a record without 'content' (a summary record) fails both saves and the note, but still renders as summary markdown |
| KeywordSearch.Fetch | naver-crawler-temp/modules/content_uploader.py:304-314 | a returned body is the reply of an attempt among the first three after transport failures only; a raised error is that of an attempt after transport failures only, and is either not a request error or the third attempt's |
| KeywordSearch.MakeRequest | naver-crawler-temp/modules/content_uploader.py:304-314 | the attempt loop returns exactly `Fetch` of its attempts, after 1 to 3 attempts |
| KeywordSearch.FirstSuccessReturned | naver-crawler-temp/modules/content_uploader.py:304-314 | the first success is returned, after exactly the transport failures before it |
| KeywordSearch.LastFailureRaised | naver-crawler-temp/modules/content_uploader.py:311-313 | after three transport failures the third one propagates |
| KeywordSearch.OtherFailureNotRetried | naver-crawler-temp/modules/content_uploader.py:304-314 | a non-request exception propagates from the attempt that raised it |
| KeywordSearch.RelatedKeywords | naver-crawler-temp/modules/content_uploader.py:316-339 | at most 10 suggestions; each is the first element of the matching entry of items[0]; an error, a missing or empty items list, or any empty entry of items[0] gives [] (that entry's `[0]` raises) |
| KeywordSearch.RelatedKeywordsComplete | naver-crawler-temp/modules/content_uploader.py:333-334 | when every entry has a first element, min(10, entries) suggestions are returned |
| KeywordSearch.PopularKeywords | naver-crawler-temp/modules/content_uploader.py:360-371 | at most 5 keywords, those of the first five entries in order; an error, an empty list, a non-list or a missing 'keyword' gives [] |
| KeywordSearch.PopularKeywordsComplete | naver-crawler-temp/modules/content_uploader.py:365-366 | a non-empty ranking whose first five entries all carry a keyword gives a non-empty list |
| KeywordSearch.GetPopularNews | naver-crawler-temp/modules/content_uploader.py:373-383 | the result is the concatenation, in keyword order, of the first two news items of each keyword's search |
| KeywordSearch.PopularNewsBlock | naver-crawler-temp/modules/content_uploader.py:341-383 | keyword i contributes the first two items of its search's items list, or nothing when its search fails or the body has no items |
| KeywordSearch.PopularNewsBound | naver-crawler-temp/modules/content_uploader.py:373-383 | at most two items per keyword |
| KeywordSearch.ConcatOrder | naver-crawler-temp/modules/content_uploader.py:373-383 | keyword i's items sit, in their search order, right after all items of earlier keywords |

## Left out

- Selenium and browser scraping are not modelled, as layout-dependent foreign calls. This covers the page read inside `get_trending_keywords`, which is a parameter here. `get_content_from_url`, `get_hot_contents` and `get_weekly_trends` are out entirely.
- BeautifulSoup parsing is not modelled. This covers `get_blog_contents`, `search_news`, `_extract_content_from_html` and the crawler's `get_related_keywords`.
- Session setup, `test_connection`, `optimize_request`, `__del__` and the `lru_cache`d `get_cached_content` are network or library behaviour and are not modelled.
- Threads are not modelled: the lock in `get_dynamic_delay`, `parallel_fetch`, and the thread pool and `random.sample` of `get_random_content`. The bookkeeping is sequential.
- Clocks, `time.sleep` and `random.uniform` are replaced by integer millisecond parameters. The loops return the sleeps instead of sleeping, and the two clock reads in `cache_result` are merged into one.
- RateLimit.TierFor: the random delay is an integer millisecond draw within the tier, not a float in seconds.
- Crawler.NaverCrawler.MakeRequest: only the URL matters. The HTTP method, the query parameters, the timeout and the session are not modelled.
- Retry.Decide: an undecodable body is treated as `json.JSONDecodeError`, which is not retried. With `requests` 2.27 and later that error is also a `RequestException`, and the first handler would retry it as a transport failure.
- Crawler.NaverCrawler.GetNewsArticles: the `display` parameter, the `total` field and all logging are not modelled.
- Common.Lower folds ASCII letters only, while Python's `str.lower` folds every Unicode letter. So the keyword test ignores case for Latin letters only.
- HotTopic.Score drops `.lower()`. Every category keyword is Hangul or a digit, which lower-casing neither produces nor changes.
- Uploader.ConvertToMarkdown: the `except` branch that returns "" is not modelled. It is reached only through the keywords join (a keyword that is not a string, or a keywords value that is not iterable) or a content object without `.get`; the typed record, whose keywords are strings, rules these out. The f-string itself formats a field of any type.
- `upload_to_obsidian`, `upload_to_notion`, `save_to_file` and `copy_to_clipboard` are pure I/O and are not modelled. Neither are the file writes, `os.makedirs`, the vault path, `pyperclip` or the Notion client call; the model stops at the file name, the text and the page body.
- `ContentUploader.__init__` reads the environment; the Notion client and database id are a parameter instead.
- `KeywordSearcher.__init__` (headers and environment) is not modelled. Neither is `ContentExtractor.extract_contents`, which is glue over crawler methods.
- The two content processors are not part of this model. They are wrappers over an external language-model client. Their record shape is used only as the premise of `Uploader.MissingContentRejected`: summary records have no 'content' key.
