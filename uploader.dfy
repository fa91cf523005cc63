/** The string and record builders of `ContentUploader`: file names, the two
    markdown renderings and the Notion page body. The content record is a
    Python dict whose keys may be absent; the clock readings the source takes
    with `datetime.now()` are parameters, already formatted. */
module Uploader {
  import opened Common

  /** The keys of a content record that the uploader reads. */
  datatype Record = Record(
    title: Option<string>,
    originalLink: Option<string>,
    content: Option<string>,
    keywords: Option<seq<string>>,
    originalContent: Option<string>,
    longVersion: Option<string>,
    shortVersion: Option<string>)

  datatype Result<T> = Ok(value: T) | Failure(error: string)

  /** `str(KeyError(key))`: the key between single quotes. */
  function KeyErrorText(key: string): string
  {
    "'" + key + "'"
  }

  /** `content.get('keywords', [])`. */
  function KeywordsOf(c: Record): seq<string>
  {
    if c.keywords.Some? then c.keywords.value else []
  }

  /** `' '.join(content.get('keywords', []))`. */
  function KeywordLine(c: Record): (k: string)
    ensures c.keywords.None? ==> k == ""
    ensures c.keywords.Some? ==> k == Join(c.keywords.value, " ")
  {
    Join(KeywordsOf(c), " ")
  }

  // ---------------------------------------------------------------- lines

  /** A text made of `lines`, each ended by a newline. */
  function Render(lines: seq<string>): string
  {
    if lines == [] then "" else lines[0] + "\n" + Render(lines[1..])
  }

  lemma {:induction false} RenderAppend(a: seq<string>, b: seq<string>)
    ensures Render(a + b) == Render(a) + Render(b)
  {
    if a == [] {
      assert a + b == b;
    } else {
      assert (a + b)[0] == a[0];
      assert (a + b)[1..] == a[1..] + b;
      RenderAppend(a[1..], b);
    }
  }

  lemma RenderCons(line: string, lines: seq<string>)
    ensures Render([line] + lines) == line + "\n" + Render(lines)
  {
    assert ([line] + lines)[1..] == lines;
  }

  lemma EndsWith(a: string, b: string)
    ensures var s := a + b; |b| <= |s| && s[|s| - |b|..] == b
  {
    var s := a + b;
    assert s[|a|..] == b;
  }

  /** The index of the first newline of `s`, or `|s|`. */
  function LineEnd(s: string): (i: nat)
    ensures i <= |s|
    ensures i < |s| ==> s[i] == '\n'
    ensures forall k :: 0 <= k < i ==> s[k] != '\n'
  {
    if s == [] || s[0] == '\n' then 0 else 1 + LineEnd(s[1..])
  }

  /** The first line of `s` and what follows its newline. */
  function SplitLine(s: string): (string, string)
  {
    var i := LineEnd(s);
    (s[..i], if i < |s| then s[i + 1..] else [])
  }

  /** Reading the first line of a rendered text gives back its first line. */
  lemma SplitRendered(lines: seq<string>, rest: string)
    requires lines != [] && Free(lines[0], '\n')
    ensures SplitLine(Render(lines) + rest) == (lines[0], Render(lines[1..]) + rest)
  {
    var s, tail := Render(lines) + rest, Render(lines[1..]) + rest;
    assert s == lines[0] + "\n" + tail;
    LineEndAt(lines[0], tail);
    assert s[..|lines[0]|] == lines[0];
    assert s[|lines[0]| + 1..] == tail;
  }

  lemma {:induction false} LineEndAt(line: string, rest: string)
    requires Free(line, '\n')
    ensures LineEnd(line + "\n" + rest) == |line|
    decreases |line|
  {
    if line != [] {
      assert (line + "\n" + rest)[1..] == line[1..] + "\n" + rest;
      LineEndAt(line[1..], rest);
    }
  }

  /** The first `n` lines of `s` and the text after them. */
  function TakeLines(s: string, n: nat): (r: (seq<string>, string))
    ensures |r.0| == n
    decreases n
  {
    if n == 0 then ([], s)
    else
      var (line, rest) := SplitLine(s);
      var (lines, after) := TakeLines(rest, n - 1);
      ([line] + lines, after)
  }

  /** Reading back the lines of a rendered text gives the lines. */
  lemma {:induction false} TakeRendered(lines: seq<string>, rest: string)
    requires forall i :: 0 <= i < |lines| ==> Free(lines[i], '\n')
    ensures TakeLines(Render(lines) + rest, |lines|) == (lines, rest)
  {
    if lines == [] {
      assert Render(lines) + rest == rest;
    } else {
      SplitRendered(lines, rest);
      TakeRendered(lines[1..], rest);
      assert [lines[0]] + lines[1..] == lines;
    }
  }

  /** A rendered text reads back as exactly its lines. */
  lemma TakeRenderedAll(lines: seq<string>)
    requires forall i :: 0 <= i < |lines| ==> Free(lines[i], '\n')
    ensures TakeLines(Render(lines), |lines|) == (lines, "")
  {
    TakeRendered(lines, "");
    assert Render(lines) + "" == Render(lines);
  }

  /** The text after `prefix`, when `line` starts with it. */
  function Field(prefix: string, line: string): (r: Option<string>)
    ensures r.Some? <==> |prefix| <= |line| && line[..|prefix|] == prefix
    ensures r.Some? ==> line == prefix + r.value
  {
    if |prefix| <= |line| && line[..|prefix|] == prefix then Some(line[|prefix|..]) else None
  }

  lemma FieldOf(prefix: string, value: string)
    ensures Field(prefix, prefix + value) == Some(value)
  {
    assert (prefix + value)[..|prefix|] == prefix;
  }

  // ---------------------------------------------------------------- format_to_markdown

  /** The front-matter block: between two `---` lines, the title, source, date
      and tags. */
  function FrontMatterLines(title: string, source: string, date: string, tags: string): seq<string>
  {
    ["---", "title: " + title, "source: " + source, "date: " + date, "tags: " + tags, "---"]
  }

  function NoteBodyLines(title: string, source: string, content: string, tags: string): seq<string>
  {
    ["", "# " + title, "", "## 원문 링크", source, "", "## 내용", content, "", "## 키워드", tags]
  }

  /** `format_to_markdown(content)` with `date` the formatted clock reading.
      `content['title']`, `content['original_link']` and `content['content']`
      are indexed directly, so a missing one raises `KeyError`; the template is
      evaluated top to bottom, so the error names the first missing key in
      that order. */
  function FormatToMarkdown(c: Record, date: string): (r: Result<string>)
    ensures r.Ok? <==> c.title.Some? && c.originalLink.Some? && c.content.Some?
    ensures c.title.None? ==> r == Failure(KeyErrorText("title"))
    ensures c.title.Some? && c.originalLink.None? ==> r == Failure(KeyErrorText("original_link"))
    ensures c.title.Some? && c.originalLink.Some? && c.content.None? ==> r == Failure(KeyErrorText("content"))
  {
    if c.title.None? then Failure(KeyErrorText("title"))
    else if c.originalLink.None? then Failure(KeyErrorText("original_link"))
    else if c.content.None? then Failure(KeyErrorText("content"))
    else
      var tags := KeywordLine(c);
      Ok(Render(FrontMatterLines(c.title.value, c.originalLink.value, date, tags)
                + NoteBodyLines(c.title.value, c.originalLink.value, c.content.value, tags)))
  }

  datatype FrontMatter = FrontMatter(title: string, source: string, date: string, tags: string)

  /** A reader for the front matter a note starts with. */
  function ParseFrontMatter(doc: string): Option<FrontMatter>
  {
    var lines := TakeLines(doc, 6).0;
    var title, source, date, tags := Field("title: ", lines[1]), Field("source: ", lines[2]), Field("date: ", lines[3]), Field("tags: ", lines[4]);
    if lines[0] == "---" && lines[5] == "---" && title.Some? && source.Some? && date.Some? && tags.Some?
    then Some(FrontMatter(title.value, source.value, date.value, tags.value))
    else None
  }

  /** The front matter carries the title, the link, the date and the
      space-joined keywords (empty when the record has none), as long as none
      of them spans a line break. The content may. */
  lemma FrontMatterRoundTrip(c: Record, date: string)
    requires c.title.Some? && c.originalLink.Some? && c.content.Some?
    requires Free(c.title.value, '\n') && Free(c.originalLink.value, '\n') && Free(date, '\n')
    requires forall i :: 0 <= i < |KeywordsOf(c)| ==> Free(KeywordsOf(c)[i], '\n')
    ensures ParseFrontMatter(FormatToMarkdown(c, date).value)
            == Some(FrontMatter(c.title.value, c.originalLink.value, date, KeywordLine(c)))
  {
    var t, l, k := c.title.value, c.originalLink.value, KeywordLine(c);
    JoinFree(KeywordsOf(c), " ", '\n');
    var front := FrontMatterLines(t, l, date, k);
    var rest := Render(NoteBodyLines(t, l, c.content.value, k));
    RenderAppend(front, NoteBodyLines(t, l, c.content.value, k));
    assert FormatToMarkdown(c, date).value == Render(front) + rest;
    assert Free("title: " + t, '\n') && Free("source: " + l, '\n');
    assert Free("date: " + date, '\n') && Free("tags: " + k, '\n');
    TakeRendered(front, rest);
    FieldOf("title: ", t);
    FieldOf("source: ", l);
    FieldOf("date: ", date);
    FieldOf("tags: ", k);
  }

  /** The whole note, line by line: the front matter, then the title as a
      heading, the link under "## 원문 링크", the content under "## 내용" and
      the joined keywords under "## 키워드", as long as no field spans a line
      break. */
  lemma NoteReadBack(c: Record, date: string)
    requires c.title.Some? && c.originalLink.Some? && c.content.Some?
    requires Free(c.title.value, '\n') && Free(c.originalLink.value, '\n') && Free(c.content.value, '\n')
    requires Free(date, '\n')
    requires forall i :: 0 <= i < |KeywordsOf(c)| ==> Free(KeywordsOf(c)[i], '\n')
    ensures TakeLines(FormatToMarkdown(c, date).value, 17)
            == (["---", "title: " + c.title.value, "source: " + c.originalLink.value, "date: " + date,
                 "tags: " + KeywordLine(c), "---",
                 "", "# " + c.title.value, "", "## 원문 링크", c.originalLink.value, "", "## 내용", c.content.value,
                 "", "## 키워드", KeywordLine(c)], "")
  {
    var t, l, k := c.title.value, c.originalLink.value, KeywordLine(c);
    JoinFree(KeywordsOf(c), " ", '\n');
    NoteLinesFree(t, l, date, k, c.content.value);
    NoteLinesSpelled(t, l, date, k, c.content.value);
    TakeRenderedAll(FrontMatterLines(t, l, date, k) + NoteBodyLines(t, l, c.content.value, k));
  }

  lemma NoteLinesSpelled(t: string, l: string, date: string, k: string, content: string)
    ensures FrontMatterLines(t, l, date, k) + NoteBodyLines(t, l, content, k)
            == ["---", "title: " + t, "source: " + l, "date: " + date, "tags: " + k, "---",
                "", "# " + t, "", "## 원문 링크", l, "", "## 내용", content, "", "## 키워드", k]
  {
  }

  lemma NoteLinesFree(t: string, l: string, date: string, k: string, content: string)
    requires Free(t, '\n') && Free(l, '\n') && Free(date, '\n') && Free(k, '\n') && Free(content, '\n')
    ensures var lines := FrontMatterLines(t, l, date, k) + NoteBodyLines(t, l, content, k);
      forall i :: 0 <= i < |lines| ==> Free(lines[i], '\n')
  {
    assert Free("title: " + t, '\n') && Free("source: " + l, '\n');
    assert Free("date: " + date, '\n') && Free("tags: " + k, '\n');
    assert Free("# " + t, '\n');
    assert Free("## 원문 링크", '\n') && Free("## 내용", '\n') && Free("## 키워드", '\n');
  }

  /** The note ends with the keyword section, whose line is the same joined
      keywords as the front matter's `tags:`. */
  lemma KeywordSectionLast(c: Record, date: string)
    requires FormatToMarkdown(c, date).Ok?
    ensures var doc, tail := FormatToMarkdown(c, date).value, "## 키워드\n" + KeywordLine(c) + "\n";
      |tail| <= |doc| && doc[|doc| - |tail|..] == tail
  {
    var t, l, k := c.title.value, c.originalLink.value, KeywordLine(c);
    var lines := FrontMatterLines(t, l, date, k) + NoteBodyLines(t, l, c.content.value, k);
    var n := |lines|;
    assert lines == lines[..n - 2] + ["## 키워드", k];
    RenderAppend(lines[..n - 2], ["## 키워드", k]);
    RenderCons("## 키워드", [k]);
    RenderCons(k, []);
  }

  // ---------------------------------------------------------------- convert_to_markdown

  const DefaultTitle := "네이버 크롤링 콘텐츠"

  /** `content.get(key, default)` for the string fields. */
  function OrElse(v: Option<string>, default: string): string
  {
    if v.Some? then v.value else default
  }

  function SummaryLines(c: Record, stamp: string): seq<string>
  {
    SummaryHead(c) + SummaryClosing(c, stamp)
  }

  /** The headings of the three text sections of the summary document. */
  const OriginalHeading := "## 원본 콘텐츠"
  const LongHeading := "## 요약본 (1000자)"
  const ShortHeading := "## 요약본 (450자)"

  /** The title and the three text sections. */
  function SummaryHead(c: Record): seq<string>
  {
    ["# " + OrElse(c.title, DefaultTitle), "",
     OriginalHeading, OrElse(c.originalContent, ""), "",
     LongHeading, OrElse(c.longVersion, ""), "",
     ShortHeading, OrElse(c.shortVersion, ""), ""]
  }

  /** The keyword section and the footer. */
  function SummaryClosing(c: Record, stamp: string): seq<string>
  {
    ["## 키워드", KeywordLine(c), "", "---", "생성일시: " + stamp]
  }

  /** `convert_to_markdown(content)` with `stamp` the formatted clock reading.
      Every key is read with a default, so any record renders, as a heading. */
  function ConvertToMarkdown(c: Record, stamp: string): (doc: string)
    ensures |doc| > 2 && doc[..2] == "# "
  {
    var lines := SummaryLines(c, stamp);
    assert lines[0] == "# " + OrElse(c.title, DefaultTitle);
    Render(lines)
  }

  /** The summary document opens with the record's title as a heading, or the
      default title when the record has none. */
  lemma ConvertHeading(c: Record, stamp: string)
    requires c.title.Some? ==> Free(c.title.value, '\n')
    ensures SplitLine(ConvertToMarkdown(c, stamp)).0 == "# " + (if c.title.Some? then c.title.value else DefaultTitle)
  {
    var lines := SummaryLines(c, stamp);
    assert Free(lines[0], '\n');
    SplitRendered(lines, "");
    assert Render(lines) + "" == Render(lines);
  }

  /** Under its heading, each text section carries its field, or nothing when
      the record lacks it, as long as no field spans a line break. */
  lemma ConvertSections(c: Record, stamp: string)
    requires c.title.Some? ==> Free(c.title.value, '\n')
    requires c.originalContent.Some? ==> Free(c.originalContent.value, '\n')
    requires c.longVersion.Some? ==> Free(c.longVersion.value, '\n')
    requires c.shortVersion.Some? ==> Free(c.shortVersion.value, '\n')
    ensures TakeLines(ConvertToMarkdown(c, stamp), 11).0
            == ["# " + (if c.title.Some? then c.title.value else DefaultTitle), "",
                OriginalHeading, if c.originalContent.Some? then c.originalContent.value else "", "",
                LongHeading, if c.longVersion.Some? then c.longVersion.value else "", "",
                ShortHeading, if c.shortVersion.Some? then c.shortVersion.value else "", ""]
  {
    var head, last := SummaryHead(c), SummaryClosing(c, stamp);
    SummaryHeadFree(c);
    RenderAppend(head, last);
    TakeRendered(head, Render(last));
  }

  lemma SummaryHeadFree(c: Record)
    requires c.title.Some? ==> Free(c.title.value, '\n')
    requires c.originalContent.Some? ==> Free(c.originalContent.value, '\n')
    requires c.longVersion.Some? ==> Free(c.longVersion.value, '\n')
    requires c.shortVersion.Some? ==> Free(c.shortVersion.value, '\n')
    ensures forall i :: 0 <= i < |SummaryHead(c)| ==> Free(SummaryHead(c)[i], '\n')
  {
    var head := SummaryHead(c);
    assert Free(OrElse(c.title, DefaultTitle), '\n');
    assert Free("# " + OrElse(c.title, DefaultTitle), '\n');
    assert Free(OriginalHeading, '\n') && Free(LongHeading, '\n') && Free(ShortHeading, '\n');
  }

  /** The closing lines as text. */
  lemma RenderClosing(k: string, footer: string)
    ensures Render(["## 키워드", k, "", "---", footer]) == "## 키워드\n" + k + "\n\n---\n" + footer + "\n"
  {
    RenderCons(footer, []);
    assert [footer] + [] == [footer];
    var r3 := Render([footer]);
    assert r3 == footer + "\n";
    RenderCons("---", [footer]);
    assert ["---"] + [footer] == ["---", footer];
    var r2 := Render(["---", footer]);
    assert r2 == "---\n" + r3;
    RenderCons("", ["---", footer]);
    assert [""] + ["---", footer] == ["", "---", footer];
    var r1 := Render(["", "---", footer]);
    assert r1 == "\n" + r2;
    assert [k] + ["", "---", footer] == [k, "", "---", footer];
    RenderCons(k, ["", "---", footer]);
    assert ["## 키워드"] + [k, "", "---", footer] == ["## 키워드", k, "", "---", footer];
    RenderCons("## 키워드", [k, "", "---", footer]);
  }

  /** It closes with the keyword line (the space-joined keywords, empty when
      there are none), a rule and the creation time. */
  lemma ConvertTail(c: Record, stamp: string)
    ensures var footer := "생성일시: " + stamp;
      var doc, tail := ConvertToMarkdown(c, stamp), "## 키워드\n" + KeywordLine(c) + "\n\n---\n" + footer + "\n";
      |tail| <= |doc| && doc[|doc| - |tail|..] == tail
  {
    var head, last := SummaryHead(c), SummaryClosing(c, stamp);
    RenderAppend(head, last);
    RenderClosing(KeywordLine(c), "생성일시: " + stamp);
    EndsWith(Render(head), Render(last));
  }

  // ---------------------------------------------------------------- sanitize_filename

  /** The characters Windows does not allow in a file name. */
  const Forbidden: string := "<>:\"/\\|?*"

  /** `re.sub(r'[<>:"/\\|?*]', '', s)`. */
  function RemoveForbidden(s: string): (r: string)
    ensures |r| <= |s|
    ensures forall i :: 0 <= i < |r| ==> r[i] !in Forbidden
    ensures forall x :: x !in Forbidden ==> (x in r <==> x in s)
  {
    if s == [] then []
    else (if s[0] in Forbidden then [] else [s[0]]) + RemoveForbidden(s[1..])
  }

  lemma {:induction false} RemoveForbiddenAppend(s: string, t: string)
    ensures RemoveForbidden(s + t) == RemoveForbidden(s) + RemoveForbidden(t)
  {
    if s == [] {
      assert s + t == t;
    } else {
      assert (s + t)[0] == s[0];
      assert (s + t)[1..] == s[1..] + t;
      RemoveForbiddenAppend(s[1..], t);
    }
  }

  /** The kept characters stay in their order. */
  lemma {:induction false} RemoveForbiddenKeepsOrder(s: string)
    ensures Subsequence(RemoveForbidden(s), s)
  {
    if s != [] {
      var r, rest := RemoveForbidden(s), RemoveForbidden(s[1..]);
      RemoveForbiddenKeepsOrder(s[1..]);
      if s[0] in Forbidden {
        assert r == rest;
        SubsequenceExtend(r, s);
      } else {
        assert r == [s[0]] + rest;
        assert r[1..] == rest;
      }
    }
  }

  lemma {:induction false} RemoveForbiddenClean(s: string)
    requires forall i :: 0 <= i < |s| ==> s[i] !in Forbidden
    ensures RemoveForbidden(s) == s
  {
    if s != [] {
      RemoveForbiddenClean(s[1..]);
    }
  }

  /** `s.replace(' ', '_')`. */
  function Underscore(s: string): (r: string)
    ensures |r| == |s|
    ensures forall i :: 0 <= i < |s| ==> r[i] == if s[i] == ' ' then '_' else s[i]
  {
    if s == [] then [] else [if s[0] == ' ' then '_' else s[0]] + Underscore(s[1..])
  }

  /** The file-name stem: forbidden characters dropped, spaces turned into
      underscores, then cut to 50 characters. */
  function SanitizeFilename(s: string): (r: string)
    ensures |r| <= 50
    ensures forall i :: 0 <= i < |r| ==> r[i] !in Forbidden && r[i] != ' '
  {
    var u := Underscore(RemoveForbidden(s));
    if |u| <= 50 then u else u[..50]
  }

  /** A name is left alone exactly when it is already clean and short. */
  lemma SanitizeFixedPoint(s: string)
    ensures SanitizeFilename(s) == s <==>
      |s| <= 50 && forall i :: 0 <= i < |s| ==> s[i] !in Forbidden && s[i] != ' '
  {
    if |s| <= 50 && forall i :: 0 <= i < |s| ==> s[i] !in Forbidden && s[i] != ' ' {
      RemoveForbiddenClean(s);
      assert Underscore(s) == s;
    }
  }

  lemma SanitizeIdempotent(s: string)
    ensures SanitizeFilename(SanitizeFilename(s)) == SanitizeFilename(s)
  {
    SanitizeFixedPoint(SanitizeFilename(s));
  }

  /** Cleaning happens before the cut, so the stem is the first 50 characters
      of the whole cleaned title, and a longer title never changes the stem of
      its beginning. */
  lemma SanitizePrefix(s: string, t: string)
    ensures var a, b := SanitizeFilename(s), SanitizeFilename(s + t);
      |a| <= |b| && b[..|a|] == a
  {
    RemoveForbiddenAppend(s, t);
    UnderscorePrefix(RemoveForbidden(s), RemoveForbidden(t));
  }

  lemma UnderscorePrefix(a: string, b: string)
    ensures |Underscore(a)| <= |Underscore(a + b)| && Underscore(a + b)[..|a|] == Underscore(a)
  {
    var u, v := Underscore(a), Underscore(a + b);
    assert forall i :: 0 <= i < |a| ==> v[i] == u[i];
  }

  // ---------------------------------------------------------------- save_to_obsidian

  datatype Note = Note(filename: string, body: string)

  const ObsidianFailure := "옵시디언 저장 실패: "

  /** The file name and text `save_to_obsidian` writes, `stamp` being the
      `%Y%m%d_%H%M%S` clock reading and `date` the one in the front matter.
      The title is read for the file name first; every error is re-raised
      with the "옵시디언 저장 실패: " prefix. */
  function SaveToObsidian(c: Record, stamp: string, date: string): (r: Result<Note>)
    ensures r.Ok? <==> c.title.Some? && c.originalLink.Some? && c.content.Some?
    ensures c.title.None? ==> r == Failure(ObsidianFailure + KeyErrorText("title"))
    ensures r.Failure? ==> |ObsidianFailure| <= |r.error| && r.error[..|ObsidianFailure|] == ObsidianFailure
    ensures r.Ok? ==> r.value.body == FormatToMarkdown(c, date).value
  {
    if c.title.None? then Failure(ObsidianFailure + KeyErrorText("title"))
    else
      var filename := stamp + "_" + SanitizeFilename(c.title.value) + ".md";
      match FormatToMarkdown(c, date)
      case Failure(e) => Failure(ObsidianFailure + e)
      case Ok(doc) => Ok(Note(filename, doc))
  }

  /** The file name is the stamp, an underscore, the sanitized title and
      `.md`: with a clean stamp it has no forbidden character, and its length
      is bounded whatever the title. */
  lemma ObsidianFilename(c: Record, stamp: string, date: string)
    requires SaveToObsidian(c, stamp, date).Ok?
    requires forall i :: 0 <= i < |stamp| ==> stamp[i] !in Forbidden
    ensures var name := SaveToObsidian(c, stamp, date).value.filename;
      && name == stamp + "_" + SanitizeFilename(c.title.value) + ".md"
      && |name| <= |stamp| + 54
      && forall i :: 0 <= i < |name| ==> name[i] !in Forbidden
  {
    var name := SaveToObsidian(c, stamp, date).value.filename;
    var stem := SanitizeFilename(c.title.value);
    forall i | 0 <= i < |name| ensures name[i] !in Forbidden {
      if i < |stamp| {
        assert name[i] == stamp[i];
      } else if i == |stamp| {
        assert name[i] == '_';
      } else if i < |stamp| + 1 + |stem| {
        assert name[i] == stem[i - |stamp| - 1];
      } else {
        assert name[i] in ".md";
      }
    }
  }

  // ---------------------------------------------------------------- save_to_notion

  /** Whether a Notion client was made (a token was set) and the database id
      read from the environment. */
  datatype NotionConfig = NotionConfig(client: bool, databaseId: Option<string>)

  predicate Configured(cfg: NotionConfig)
  {
    cfg.client && cfg.databaseId.Some? && cfg.databaseId.value != ""
  }

  /** The page `save_to_notion` asks for: its parent database, the title,
      source, tag and date properties, and one paragraph of content. */
  datatype Page = Page(databaseId: string, title: string, source: string, tags: seq<string>,
                       date: string, paragraph: string)

  /** `s.replace(c, '')`. */
  function RemoveAll(s: string, c: char): (r: string)
    ensures |r| <= |s|
    ensures Free(r, c)
    ensures forall x :: x != c ==> (x in r <==> x in s)
    ensures Free(s, c) ==> r == s
  {
    if s == [] then []
    else (if s[0] == c then [] else [s[0]]) + RemoveAll(s[1..], c)
  }

  /** `str.replace(c, '')` deletes the occurrences of `c` and nothing else:
      the rest keeps its order and is shorter by exactly their number. */
  lemma RemoveAllExact(s: string, c: char)
    ensures Subsequence(RemoveAll(s, c), s)
    ensures |RemoveAll(s, c)| == |s| - multiset(s)[c]
  {
    RemoveAllOrder(s, c);
    RemoveAllCount(s, c);
  }

  lemma {:induction false} RemoveAllOrder(s: string, c: char)
    ensures Subsequence(RemoveAll(s, c), s)
  {
    if s != [] {
      var r, rest := RemoveAll(s, c), RemoveAll(s[1..], c);
      RemoveAllOrder(s[1..], c);
      if s[0] == c {
        assert r == rest;
        SubsequenceExtend(r, s);
      } else {
        assert r[1..] == rest;
      }
    }
  }

  lemma {:induction false} RemoveAllCount(s: string, c: char)
    ensures |RemoveAll(s, c)| == |s| - multiset(s)[c]
  {
    if s != [] {
      RemoveAllCount(s[1..], c);
      assert s == [s[0]] + s[1..];
      assert multiset(s) == multiset([s[0]]) + multiset(s[1..]);
    }
  }


  /** The `multi_select` names: each keyword with every '#' removed, in order. */
  function NotionTags(keywords: seq<string>): (tags: seq<string>)
    ensures |tags| == |keywords|
    ensures forall i :: 0 <= i < |tags| ==> tags[i] == RemoveAll(keywords[i], '#') && Free(tags[i], '#')
  {
    seq(|keywords|, i requires 0 <= i < |keywords| => RemoveAll(keywords[i], '#'))
  }

  const NotionSetupMissing := "노션 API 설정이 필요합니다"

  /** `save_to_notion(content)` up to the API call, `date` being the ISO clock
      reading. Without a client or a database id it fails with the setup
      message; the properties then index title and link and the paragraph
      indexes content, so a missing one fails with its `KeyError`. Every error
      is re-raised with the "노션 저장 실패: " prefix. */
  function SaveToNotion(cfg: NotionConfig, c: Record, date: string): (r: Result<Page>)
    ensures r.Ok? <==> Configured(cfg) && c.title.Some? && c.originalLink.Some? && c.content.Some?
    ensures !Configured(cfg) ==> r == Failure("노션 저장 실패: " + NotionSetupMissing)
    ensures r.Ok? ==> r.value.title == c.title.value && r.value.source == c.originalLink.value
                      && r.value.paragraph == c.content.value && r.value.databaseId == cfg.databaseId.value
    ensures r.Ok? ==> r.value.tags == NotionTags(KeywordsOf(c))
  {
    if !Configured(cfg) then Failure("노션 저장 실패: " + NotionSetupMissing)
    else if c.title.None? then Failure("노션 저장 실패: " + KeyErrorText("title"))
    else if c.originalLink.None? then Failure("노션 저장 실패: " + KeyErrorText("original_link"))
    else if c.content.None? then Failure("노션 저장 실패: " + KeyErrorText("content"))
    else Ok(Page(cfg.databaseId.value, c.title.value, c.originalLink.value,
                 NotionTags(KeywordsOf(c)), date, c.content.value))
  }

  /** A record without a `content` key, such as the summary records the
      content processors produce, can be rendered for reading but cannot be
      saved to Obsidian or to Notion. */
  lemma MissingContentRejected(c: Record, cfg: NotionConfig, stamp: string, date: string)
    requires c.content.None?
    ensures FormatToMarkdown(c, date).Failure?
    ensures SaveToObsidian(c, stamp, date).Failure?
    ensures SaveToNotion(cfg, c, date).Failure?
    ensures |ConvertToMarkdown(c, stamp)| > 0
  {
    assert ConvertToMarkdown(c, stamp) == Render(SummaryLines(c, stamp));
  }
}
