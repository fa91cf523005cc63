/** The markup removal of `get_news_articles`: `re.sub('<[^<]+?>', '', s)`.
    A match starts at a '<', takes at least one character that is not '<'
    (a '>' included), and ends at the first '>' after that; matches are
    removed left to right without overlapping, and a '<' that starts no match
    is kept as text. */
module TagStrip {
  import opened Common

  /** Where the match starting at `s[0] == '<'` ends, scanning from index
      `j`: the first '>' at index 2 or later, provided no '<' comes first. */
  function TagEnd(s: string, j: nat): (r: Option<nat>)
    requires 1 <= j
    ensures r.Some? ==> 2 <= j <= r.value || (j == 1 && 2 <= r.value)
    ensures r.Some? ==> r.value < |s| && s[r.value] == '>'
    ensures r.Some? ==> forall k :: j <= k < r.value ==> s[k] != '<'
    ensures r.Some? ==> forall k :: 2 <= k < r.value && j <= k ==> s[k] != '>'
    ensures r.None? ==> forall c :: j <= c < |s| && 2 <= c && s[c] == '>' ==>
                          exists k :: j <= k < c && s[k] == '<'
    decreases |s| - j
  {
    if j >= |s| then None
    else if s[j] == '<' then None
    else if s[j] == '>' && j >= 2 then Some(j)
    else TagEnd(s, j + 1)
  }

  /** The match at the start of `s`, if any: the index of its closing '>'. */
  function MatchAt(s: string): (r: Option<nat>)
    ensures r.Some? ==> 2 <= r.value < |s| && s[0] == '<' && s[r.value] == '>'
    ensures r.Some? ==> forall k :: 1 <= k < r.value ==> s[k] != '<'
    ensures r.Some? ==> forall k :: 2 <= k < r.value ==> s[k] != '>'
    ensures r.None? && |s| >= 1 && s[0] == '<' ==>
      forall c :: 2 <= c < |s| && s[c] == '>' ==> exists k :: 1 <= k < c && s[k] == '<'
  {
    if |s| >= 1 && s[0] == '<' then TagEnd(s, 1) else None
  }

  /** The whole substitution; it never lengthens the text. */
  function StripTags(s: string): (r: string)
    ensures |r| <= |s|
    decreases |s|
  {
    if s == [] then []
    else match MatchAt(s)
      case Some(e) => StripTags(s[e + 1..])
      case None => [s[0]] + StripTags(s[1..])
  }

  /** Stripping only deletes characters: the result is an order-preserving
      subsequence of the input, so it is never longer. */
  lemma {:induction false} StripIsSubsequence(s: string)
    ensures Subsequence(StripTags(s), s)
    ensures |StripTags(s)| <= |s|
    decreases |s|
  {
    if s != [] {
      match MatchAt(s)
      case Some(e) =>
        StripIsSubsequence(s[e + 1..]);
        SubsequenceDrop(StripTags(s), s, e + 1);
      case None =>
        StripIsSubsequence(s[1..]);
    }
  }

  /** Text without a '<' contains no tag and comes back unchanged. */
  lemma {:induction false} NoAngleUnchanged(s: string)
    requires Free(s, '<')
    ensures StripTags(s) == s
    decreases |s|
  {
    if s != [] {
      assert MatchAt(s).None?;
      NoAngleUnchanged(s[1..]);
    }
  }

  /** A well-formed tag (a name without '<' or '>') after plain text is
      removed and nothing else in the plain text changes. */
  lemma {:induction false} StripsWellFormedTag(plain: string, name: string, rest: string)
    requires Free(plain, '<') && |name| >= 1 && Free(name, '<') && Free(name, '>')
    ensures StripTags(plain + "<" + name + ">" + rest) == plain + StripTags(rest)
    decreases |plain|
  {
    var s := plain + "<" + name + ">" + rest;
    if plain == [] {
      assert s == "<" + name + ">" + rest;
      TagEndSkipsName(s, 1, |name| + 1);
      assert MatchAt(s) == Some(|name| + 1);
      assert s[|name| + 2..] == rest;
    } else {
      assert s[0] == plain[0] != '<';
      assert s[1..] == plain[1..] + "<" + name + ">" + rest;
      StripsWellFormedTag(plain[1..], name, rest);
      assert plain == [plain[0]] + plain[1..];
    }
  }

  /** The scan for the closing '>' passes over characters that are neither
      '<' nor '>' (and over a '>' at index 1). */
  lemma {:induction false} TagEndSkipsName(s: string, j: nat, close: nat)
    requires 1 <= j <= close < |s| && 2 <= close && s[close] == '>'
    requires forall k :: j <= k < close ==> s[k] != '<' && (s[k] != '>' || k == 1)
    ensures TagEnd(s, j) == Some(close)
    decreases close - j
  {
    if j < close {
      TagEndSkipsName(s, j + 1, close);
    }
  }

  /** `<>` is not a tag: the pattern needs a character between the brackets. */
  lemma EmptyBracketsKept()
    ensures StripTags("<>") == "<>"
  {
    assert MatchAt("<>").None?;
    assert MatchAt(">").None?;
  }

  /** One pass is not idempotent: `<a<b>>` loses only the inner tag, and the
      `<a>` it leaves behind is a tag for the next pass. */
  lemma NotIdempotent()
    ensures StripTags("<a<b>>") == "<a>"
    ensures StripTags("<a>") == ""
  {
    var s := "<a<b>>";
    assert MatchAt(s).None?;
    assert s[1..] == "a<b>>";
    assert MatchAt(s[1..]).None?;
    assert s[2..] == "<b>>";
    assert TagEnd(s[2..], 2) == Some(2);
    assert TagEnd(s[2..], 1) == Some(2);
    assert MatchAt(s[2..]) == Some(2);
    assert s[2..][3..] == ">";
    assert MatchAt(">").None?;
    assert MatchAt("<a>") == Some(2);
  }
}
