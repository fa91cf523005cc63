/** `check_hot_topic`: a news item is "hot" when a weighted score over four
    keyword categories and two title markers reaches 1.5. Every weight is a
    multiple of 0.1, so the score is kept in integer tenths: 20, 15, 13 and 12
    for the categories, 3 for an exclamation or question mark in the title,
    5 for a "[단독]" or "[속보]" tag in the title, against a threshold of 15. */
module HotTopic {
  import opened Common

  const BreakingNews: seq<string> := ["단독", "속보", "긴급", "특종", "최초공개", "1보"]
  const Trending: seq<string> := ["화제", "논란", "충격", "파격", "돌발", "이슈"]
  const Viral: seq<string> := ["실시간", "핫이슈", "급상승", "화제성", "관심집중"]
  const Significant: seq<string> := ["중대발표", "특별", "공식", "전격", "전원", "중요"]

  const Threshold: nat := 15

  /** `any(keyword in text for keyword in keywords)`. */
  function AnyIn(text: string, keywords: seq<string>): (r: bool)
    ensures r <==> exists i :: 0 <= i < |keywords| && Contains(text, keywords[i])
  {
    if keywords == [] then false
    else Contains(text, keywords[0]) || AnyIn(text, keywords[1..])
  }

  predicate HasPunctuation(title: string)
  {
    Contains(title, "!") || Contains(title, "?")
  }

  predicate HasNewsTag(title: string)
  {
    Contains(title, "[단독]") || Contains(title, "[속보]")
  }

  /** The text the categories are searched in: title and content joined by a
      space. (`.lower()` is left out: every category keyword is Hangul or a
      digit, which lower-casing neither produces nor changes.) */
  function Text(title: string, content: string): string
  {
    title + " " + content
  }

  /** The score in tenths. Each category and each marker counts at most once. */
  function Score(title: string, content: string): (s: nat)
    ensures s <= 20 + 15 + 13 + 12 + 3 + 5
  {
    var text := Text(title, content);
    (if AnyIn(text, BreakingNews) then 20 else 0)
    + (if AnyIn(text, Trending) then 15 else 0)
    + (if AnyIn(text, Viral) then 13 else 0)
    + (if AnyIn(text, Significant) then 12 else 0)
    + (if HasPunctuation(title) then 3 else 0)
    + (if HasNewsTag(title) then 5 else 0)
  }

  /** Breaking or trending vocabulary alone reaches the threshold; without
      any category keyword the markers alone never do. */
  function CheckHotTopic(title: string, content: string): (hot: bool)
    ensures var text := Text(title, content);
      AnyIn(text, BreakingNews) || AnyIn(text, Trending) ==> hot
    ensures var text := Text(title, content);
      hot ==> AnyIn(text, BreakingNews) || AnyIn(text, Trending) || AnyIn(text, Viral) || AnyIn(text, Significant)
  {
    Score(title, content) >= Threshold
  }

  /** A "[단독]" or "[속보]" tag in the title always contains a breaking-news
      keyword, so the breaking weight is earned as well as the tag bonus. */
  lemma NewsTagIsBreaking(title: string, content: string)
    requires HasNewsTag(title)
    ensures AnyIn(Text(title, content), BreakingNews)
  {
    var text := Text(title, content);
    assert Contains(text, title) by {
      assert text[0..|title|] == title;
      assert OccursAt(text, title, 0);
    }
    if Contains(title, "[단독]") {
      assert Contains("[단독]", "단독") by { assert OccursAt("[단독]", "단독", 1); }
      ContainsTransitive(title, "[단독]", "단독");
      ContainsTransitive(text, title, "단독");
      assert Contains(text, BreakingNews[0]);
    } else {
      assert Contains("[속보]", "속보") by { assert OccursAt("[속보]", "속보", 1); }
      ContainsTransitive(title, "[속보]", "속보");
      ContainsTransitive(text, title, "속보");
      assert Contains(text, BreakingNews[1]);
    }
  }

  /** The classifier as a boolean formula: hot exactly when there is breaking
      or trending vocabulary, or viral and significant vocabulary together, or
      either of those two with a "!" or "?" in the title. */
  lemma HotCharacterization(title: string, content: string)
    ensures CheckHotTopic(title, content) <==>
      var text := Text(title, content);
      || AnyIn(text, BreakingNews)
      || AnyIn(text, Trending)
      || (AnyIn(text, Viral) && AnyIn(text, Significant))
      || ((AnyIn(text, Viral) || AnyIn(text, Significant)) && HasPunctuation(title))
  {
    if HasNewsTag(title) {
      NewsTagIsBreaking(title, content);
    }
  }

  /** A title tagged "[단독]" or "[속보]" is always hot. */
  lemma NewsTagAlwaysHot(title: string, content: string)
    requires HasNewsTag(title)
    ensures CheckHotTopic(title, content)
  {
    NewsTagIsBreaking(title, content);
  }

  /** Without any category keyword the markers alone (at most 0.8) never
      reach the threshold. */
  lemma NoKeywordNeverHot(title: string, content: string)
    requires var text := Text(title, content);
      !AnyIn(text, BreakingNews) && !AnyIn(text, Trending)
      && !AnyIn(text, Viral) && !AnyIn(text, Significant)
    ensures !CheckHotTopic(title, content)
  {
  }

  /** The sums that land exactly on the threshold: trending alone, and
      significant with punctuation. Both are exact in binary floating point,
      so the integer score agrees with the source's float comparison. */
  lemma ExactThresholdSums(title: string, content: string)
    requires Score(title, content) == Threshold
    ensures var text := Text(title, content);
      || (!AnyIn(text, BreakingNews) && AnyIn(text, Trending) && !AnyIn(text, Viral)
          && !AnyIn(text, Significant) && !HasPunctuation(title) && !HasNewsTag(title))
      || (!AnyIn(text, BreakingNews) && !AnyIn(text, Trending) && !AnyIn(text, Viral)
          && AnyIn(text, Significant) && HasPunctuation(title) && !HasNewsTag(title))
  {
  }

  /** No keyword match straddles the space that joins title and content: for
      a keyword without spaces, matching the joined text is matching the title
      or the content. */
  lemma {:induction false} JoinedMatch(title: string, content: string, kw: string)
    requires Free(kw, ' ')
    ensures Contains(Text(title, content), kw) <==> Contains(title, kw) || Contains(content, kw)
  {
    var text := Text(title, content);
    var n := |title|;
    if Contains(text, kw) {
      var i :| OccursAt(text, kw, i);
      if i + |kw| <= n {
        assert text[i..i + |kw|] == title[i..i + |kw|];
        assert OccursAt(title, kw, i);
      } else if i >= n + 1 {
        assert text[i..i + |kw|] == content[i - n - 1..i - n - 1 + |kw|];
        assert OccursAt(content, kw, i - n - 1);
      } else {
        Straddle(title, content, kw, i);
        assert false;
      }
    }
    if Contains(title, kw) {
      var i :| OccursAt(title, kw, i);
      assert text[i..i + |kw|] == title[i..i + |kw|];
      assert OccursAt(text, kw, i);
    }
    if Contains(content, kw) {
      var j :| OccursAt(content, kw, j);
      assert text[n + 1..] == content;
      assert text[n + 1 + j..n + 1 + j + |kw|] == text[n + 1..][j..j + |kw|];
      assert OccursAt(text, kw, n + 1 + j);
    }
  }

  /** An occurrence in the joined text that covers the joining space has a
      space in the keyword. */
  lemma Straddle(title: string, content: string, kw: string, i: int)
    requires OccursAt(Text(title, content), kw, i)
    requires i <= |title| < i + |kw|
    ensures kw[|title| - i] == ' '
  {
    var text := Text(title, content);
    assert kw[|title| - i] == text[i..i + |kw|][|title| - i] == text[|title|];
  }

  /** A tagged, exclaimed headline is hot: "[속보] 긴급 발표!". */
  lemma TaggedExampleHot()
    ensures CheckHotTopic("[속보] 긴급 발표!", "")
  {
    assert OccursAt("[속보] 긴급 발표!", "[속보]", 0);
    NewsTagAlwaysHot("[속보] 긴급 발표!", "");
  }
}
