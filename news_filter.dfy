/** The result loop of `get_news_articles`: strip markup from each item's
    title and description, keep the items that mention the keyword (ignoring
    ASCII case), tag the hot ones, and stop once `count` items are kept. */
module NewsFilter {
  import opened Common
  import TagStrip
  import HotTopic

  /** A search API item as parsed JSON; a field may be missing. */
  datatype RawItem = RawItem(title: Option<string>, description: Option<string>, link: Option<string>)

  datatype Article = Article(title: string, link: string, description: string, tags: seq<string>)

  const HotTags: seq<string> := ["#핫토픽", "#핫이슈"]

  /** `keyword.lower() in title.lower() or keyword.lower() in description.lower()`. */
  predicate Relevant(keyword: string, title: string, description: string)
  {
    Contains(Lower(title), Lower(keyword)) || Contains(Lower(description), Lower(keyword))
  }

  /** The tags of a kept article: both hot tags for a hot topic, none otherwise. */
  function TagsFor(title: string, description: string): seq<string>
  {
    if HotTopic.CheckHotTopic(title, description) then HotTags else []
  }

  /** What one item yields. An item missing its title or description raises
      `KeyError` before the relevance test; a relevant item missing its link
      raises while the article is built. The loop catches both and skips the
      item. */
  function Process(keyword: string, item: RawItem): (a: Option<Article>)
    ensures a.Some? ==> item.title.Some? && item.description.Some? && item.link.Some?
    ensures a.Some? ==> a.value.title == TagStrip.StripTags(item.title.value)
    ensures a.Some? ==> a.value.description == TagStrip.StripTags(item.description.value)
    ensures a.Some? ==> a.value.link == item.link.value
    ensures a.Some? ==> Relevant(keyword, a.value.title, a.value.description)
    ensures a.Some? ==> a.value.tags == TagsFor(a.value.title, a.value.description)
    ensures item.title.Some? && item.description.Some? && item.link.Some?
            && Relevant(keyword, TagStrip.StripTags(item.title.value), TagStrip.StripTags(item.description.value))
            ==> a.Some?
  {
    if item.title.None? || item.description.None? then None
    else
      var title := TagStrip.StripTags(item.title.value);
      var description := TagStrip.StripTags(item.description.value);
      if !Relevant(keyword, title, description) then None
      else if item.link.None? then None
      else Some(Article(title, item.link.value, description, TagsFor(title, description)))
  }

  /** The values of the `Some` entries, in order. */
  function Somes<T>(xs: seq<Option<T>>): (r: seq<T>)
    ensures |r| <= |xs|
  {
    if xs == [] then []
    else Somes(xs[..|xs| - 1]) + (if xs[|xs| - 1].Some? then [xs[|xs| - 1].value] else [])
  }

  lemma SomesStep<T>(xs: seq<Option<T>>, i: nat)
    requires i < |xs|
    ensures Somes(xs[..i + 1]) == Somes(xs[..i]) + (if xs[i].Some? then [xs[i].value] else [])
  {
    assert xs[..i + 1][..i] == xs[..i];
  }

  /** The `Some` values of a prefix are a prefix of all `Some` values. */
  lemma {:induction false} SomesPrefix<T>(xs: seq<Option<T>>, j: nat)
    requires j <= |xs|
    ensures |Somes(xs[..j])| <= |Somes(xs)| && Somes(xs)[..|Somes(xs[..j])|] == Somes(xs[..j])
    decreases |xs| - j
  {
    if j < |xs| {
      var n := |xs|;
      SomesPrefix(xs[..n - 1], j);
      assert xs[..n - 1][..j] == xs[..j];
    } else {
      assert xs[..j] == xs;
    }
  }

  /** Where each `Some` value sits in `xs`: strictly increasing indices. */
  function SomeIndices<T>(xs: seq<Option<T>>): (idx: seq<nat>)
    ensures |idx| == |Somes(xs)|
    ensures forall k :: 0 <= k < |idx| ==> idx[k] < |xs| && xs[idx[k]] == Some(Somes(xs)[k])
    ensures forall k, l :: 0 <= k < l < |idx| ==> idx[k] < idx[l]
  {
    if xs == [] then []
    else
      var n := |xs|;
      var prefix := SomeIndices(xs[..n - 1]);
      assert forall k :: 0 <= k < |prefix| ==> xs[..n - 1][prefix[k]] == xs[prefix[k]];
      prefix + (if xs[n - 1].Some? then [n - 1] else [])
  }

  /** Every `Some` entry shows up among the values. */
  lemma {:induction false} SomesComplete<T>(xs: seq<Option<T>>, i: nat)
    requires i < |xs| && xs[i].Some?
    ensures xs[i].value in Somes(xs)
    decreases |xs|
  {
    var n := |xs|;
    if i < n - 1 {
      assert xs[..n - 1][i] == xs[i];
      SomesComplete(xs[..n - 1], i);
    }
  }

  /** What each item yields, item by item. */
  function Processed(keyword: string, items: seq<RawItem>): (r: seq<Option<Article>>)
    ensures |r| == |items|
    ensures forall i :: 0 <= i < |items| ==> r[i] == Process(keyword, items[i])
  {
    seq(|items|, i requires 0 <= i < |items| => Process(keyword, items[i]))
  }

  /** Every article the loop would keep if it never stopped early, in order. */
  function Kept(keyword: string, items: seq<RawItem>): seq<Article>
  {
    Somes(Processed(keyword, items))
  }

  /** The loop stops as soon as the kept list reaches `count`, a test made only
      after an append: with `count <= 0` one article is still kept. */
  function Limit(count: int): (n: nat)
    ensures n >= 1 && n >= count
    ensures n == 1 || n == count
  {
    if count >= 1 then count else 1
  }

  /** The filtering loop of `get_news_articles(keyword, count)`. */
  method FilterNews(keyword: string, items: seq<RawItem>, count: int) returns (kept: seq<Article>)
    ensures kept == Take(Kept(keyword, items), Limit(count))
  {
    ghost var ps := Processed(keyword, items);
    assert Kept(keyword, items) == Somes(ps);
    kept := [];
    var i := 0;
    while i < |items|
      invariant 0 <= i <= |items|
      invariant kept == Somes(ps[..i])
      invariant |kept| < Limit(count)
    {
      SomesStep(ps, i);
      var a := Process(keyword, items[i]);
      assert a == ps[i];
      if a.Some? {
        kept := kept + [a.value];
        if |kept| >= count {
          SomesPrefix(ps, i + 1);
          assert |kept| == Limit(count);
          return;
        }
      }
      i := i + 1;
    }
    assert ps[..i] == ps;
  }

  /** The result is an order-preserving selection of relevant, tag-stripped
      items, each tagged exactly when it is hot, and no longer than `count`
      (or one, when `count` is not positive): article `k` comes from item
      `origin[k]`, and the origins increase. */
  lemma FilterSound(keyword: string, items: seq<RawItem>, count: int, kept: seq<Article>)
      returns (origin: seq<nat>)
    requires kept == Take(Kept(keyword, items), Limit(count))
    ensures |kept| <= Limit(count) && |kept| <= |items|
    ensures |origin| == |kept|
    ensures forall k, l :: 0 <= k < l < |origin| ==> origin[k] < origin[l]
    ensures forall k :: 0 <= k < |kept| ==> origin[k] < |items| && Process(keyword, items[origin[k]]) == Some(kept[k])
    ensures forall k :: 0 <= k < |kept| ==>
      && items[origin[k]].title.Some?
      && kept[k].title == TagStrip.StripTags(items[origin[k]].title.value)
      && |kept[k].title| <= |items[origin[k]].title.value|
      && Relevant(keyword, kept[k].title, kept[k].description)
      && kept[k].tags == TagsFor(kept[k].title, kept[k].description)
  {
    var ps := Processed(keyword, items);
    var idx := SomeIndices(ps);
    origin := idx[..|kept|];
    forall k | 0 <= k < |kept|
      ensures |kept[k].title| <= |items[origin[k]].title.value|
    {
      TagStrip.StripIsSubsequence(items[origin[k]].title.value);
    }
  }

  /** An item that yields an article is kept unless the limit was reached
      first: the loop drops nothing else. */
  lemma KeptComplete(keyword: string, items: seq<RawItem>, i: nat)
    requires i < |items| && Process(keyword, items[i]).Some?
    ensures Process(keyword, items[i]).value in Kept(keyword, items)
  {
    SomesComplete(Processed(keyword, items), i);
  }
}
