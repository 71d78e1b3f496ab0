/**
 * The blog publisher (wordpress_publisher.py): where the REST API lives, the
 * request body of a new post, and the HTML a generated post is rendered to.
 * The HTTP calls themselves (`requests.post`, `requests.get`) are a
 * collaborator: a function from the request body to the returned post id.
 */
module WordPress {
  import opened Common
  import opened Strings
  import opened Payloads
  import Query

  // ---------------------------------------------------------------- endpoints

  /** `url.rstrip('/')`: `url` without its trailing slashes. */
  function TrimTrailingSlashes(url: string): (r: string)
    ensures StartsWith(url, r)
    ensures r == [] || r[|r| - 1] != '/'
    ensures forall k :: |r| <= k < |url| ==> url[k] == '/'
    decreases |url|
  {
    if url != [] && url[|url| - 1] == '/' then
      var r := TrimTrailingSlashes(url[..|url| - 1]);
      assert url[..|url| - 1][..|r|] == url[..|r|];
      r
    else
      url
  }

  predicate AllSlashes(s: string) {
    forall k :: 0 <= k < |s| ==> s[k] == '/'
  }

  /** Any number of slashes after a site address leaves the same base address. */
  lemma {:induction false} TrailingSlashesIgnored(url: string, slashes: string)
    requires AllSlashes(slashes)
    ensures TrimTrailingSlashes(url + slashes) == TrimTrailingSlashes(url)
    decreases |slashes|
  {
    if slashes != [] {
      var shorter := slashes[..|slashes| - 1];
      assert (url + slashes)[|url + slashes| - 1] == '/';
      assert (url + slashes)[..|url + slashes| - 1] == url + shorter;
      assert TrimTrailingSlashes(url + slashes) == TrimTrailingSlashes(url + shorter);
      TrailingSlashesIgnored(url, shorter);
    } else {
      assert url + slashes == url;
    }
  }

  /** The publisher's fixed settings; the credentials are sent with every request. */
  datatype Publisher = Publisher(baseUrl: string, apiUrl: string, username: string, password: string)

  const ApiPath: string := "/wp-json/wp/v2"

  /** `WordPressPublisher()`: the base address without trailing slashes, and the REST root below it. */
  function NewPublisher(siteUrl: string, username: string, password: string): (p: Publisher)
    ensures StartsWith(siteUrl, p.baseUrl) && (p.baseUrl == [] || p.baseUrl[|p.baseUrl| - 1] != '/')
    ensures AllSlashes(siteUrl[|p.baseUrl|..])
    ensures p.apiUrl == p.baseUrl + ApiPath
    ensures p.username == username && p.password == password
  {
    var base := TrimTrailingSlashes(siteUrl);
    Publisher(base, base + ApiPath, username, password)
  }

  /** The endpoint `create_post` sends to. */
  function PostsEndpoint(p: Publisher): string {
    p.apiUrl + "/posts"
  }

  // ---------------------------------------------------------------- create_post

  /** The `post_data` dictionary a caller hands to `create_post`. */
  datatype PostData = PostData(
    title: Option<string>,
    content: Option<string>,
    excerpt: Option<string>,
    status: Option<string>,
    tags: seq<string>,
    categories: seq<int>)

  /** The JSON body sent to the posts endpoint; `tags` and `categories` may be absent. */
  datatype Payload = Payload(
    title: string,
    content: string,
    excerpt: string,
    status: string,
    tags: Option<seq<int>>,
    categories: Option<seq<int>>)

  /**
   * The remote site: the ids `_get_or_create_tags` resolves for a list of tag
   * names, and `str(id)` of the created post, or `None` when the request fails
   * or the status code is not 200 or 201.
   */
  datatype RestApi = RestApi(tagIds: seq<string> -> seq<int>, sendPost: Payload -> Option<string>)

  /**
   * The request body of `create_post`: missing text fields become `''`, a
   * missing status is `'draft'`, and tags and categories are only sent when
   * the caller gave a non-empty list.
   */
  function BuildPayload(data: PostData, tagIds: seq<int>): (p: Payload)
    ensures p.title == data.title.GetOr("") && p.content == data.content.GetOr("")
    ensures p.excerpt == data.excerpt.GetOr("")
    ensures data.status.None? ==> p.status == "draft"
    ensures data.status.Some? ==> p.status == data.status.value
    ensures p.tags.Some? <==> data.tags != []
    ensures p.tags.Some? ==> p.tags.value == tagIds
    ensures p.categories.Some? <==> data.categories != []
    ensures p.categories.Some? ==> p.categories.value == data.categories
  {
    Payload(
      data.title.GetOr(""), data.content.GetOr(""), data.excerpt.GetOr(""),
      data.status.GetOr("draft"),
      if data.tags != [] then Some(tagIds) else None,
      if data.categories != [] then Some(data.categories) else None)
  }

  /** `create_post`: tag names are resolved only when there are some, then the post is sent. */
  function CreatePost(api: RestApi, data: PostData): Option<string> {
    var tagIds := if data.tags != [] then api.tagIds(data.tags) else [];
    api.sendPost(BuildPayload(data, tagIds))
  }

  // ---------------------------------------------------------------- _text_to_html

  const BlankLine: string := "\n\n"

  /** A non-empty text that neither starts nor ends with whitespace. */
  predicate Stripped(p: string) {
    p != [] && !IsSpace(p[0]) && !IsSpace(p[|p| - 1])
  }

  /** Every text in `texts` is whitespace only. */
  predicate AllBlank(texts: seq<string>) {
    forall k :: 0 <= k < |texts| ==> AllSpace(texts[k])
  }

  /** No text in `texts` contains a blank line. */
  ghost predicate NoBlankLines(texts: seq<string>) {
    forall k :: 0 <= k < |texts| ==> !Contains(texts[k], BlankLine)
  }

  /** `[p.strip() for p in segments if p.strip()]` */
  function NonBlank(segments: seq<string>): (r: seq<string>)
    ensures |r| <= |segments|
  {
    if segments == [] then
      []
    else
      var p := Strip(segments[0]);
      var rest := NonBlank(segments[1..]);
      if p == [] then rest else [p] + rest
  }

  /** A segment whose `strip()` is truthy: not whitespace only. */
  predicate NotBlank(segment: string) {
    !AllSpace(segment)
  }

  /** Each text, stripped. */
  function StripEach(texts: seq<string>): seq<string>
    decreases |texts|
  {
    if texts == [] then [] else [Strip(texts[0])] + StripEach(texts[1..])
  }

  /** The paragraphs kept are the segments that are not blank, each stripped, in their order. */
  lemma {:induction false} NonBlankIsStrippedFilter(segments: seq<string>)
    ensures NonBlank(segments) == StripEach(Query.Filter(segments, NotBlank))
    decreases |segments|
  {
    if segments != [] {
      NonBlankIsStrippedFilter(segments[1..]);
      var rest := Query.Filter(segments[1..], NotBlank);
      assert Query.Filter(segments, NotBlank) == if NotBlank(segments[0]) then [segments[0]] + rest else rest;
      if NotBlank(segments[0]) {
        assert ([segments[0]] + rest)[1..] == rest;
      }
    }
  }

  /** Every text in `texts` is non-empty and neither starts nor ends with whitespace. */
  predicate AllStripped(texts: seq<string>) {
    forall k :: 0 <= k < |texts| ==> Stripped(texts[k])
  }

  lemma ConsStripped(p: string, rest: seq<string>)
    requires Stripped(p) && AllStripped(rest)
    ensures AllStripped([p] + rest)
  {
    var r := [p] + rest;
    forall k | 0 <= k < |r|
      ensures Stripped(r[k])
    {
      if k == 0 {
        assert r[k] == p;
      } else {
        assert r[k] == rest[k - 1];
      }
    }
  }

  /** Every paragraph kept is stripped and non-empty. */
  lemma {:induction false} NonBlankStripped(segments: seq<string>)
    ensures AllStripped(NonBlank(segments))
  {
    if segments != [] {
      var p := Strip(segments[0]);
      NonBlankStripped(segments[1..]);
      if p != [] {
        ConsStripped(p, NonBlank(segments[1..]));
      }
    }
  }

  /** No paragraph survives exactly when every segment is whitespace only. */
  lemma {:induction false} NonBlankEmpty(segments: seq<string>)
    ensures NonBlank(segments) == [] <==> AllBlank(segments)
  {
    if segments != [] {
      SegmentsCons(segments);
      NonBlankEmpty(segments[1..]);
    }
  }

  /** Stripping and dropping segments cannot create a blank line. */
  lemma {:induction false} NonBlankKeepsNoBlankLines(segments: seq<string>)
    requires NoBlankLines(segments)
    ensures NoBlankLines(NonBlank(segments))
  {
    if segments != [] {
      var p := Strip(segments[0]);
      SegmentsCons(segments);
      SliceKeepsAbsence(p, segments[0], BlankLine);
      NonBlankKeepsNoBlankLines(segments[1..]);
      if p != [] {
        SegmentsCons([p] + NonBlank(segments[1..]));
        assert ([p] + NonBlank(segments[1..]))[1..] == NonBlank(segments[1..]);
      }
    }
  }

  lemma SegmentsCons(texts: seq<string>)
    requires texts != []
    ensures AllBlank(texts) <==> AllSpace(texts[0]) && AllBlank(texts[1..])
    ensures NoBlankLines(texts) <==> !Contains(texts[0], BlankLine) && NoBlankLines(texts[1..])
  {
    assert forall k :: 1 <= k < |texts| ==> texts[k] == texts[1..][k - 1];
  }

  /** A slice of a text that does not contain `sep` does not contain it either. */
  lemma SliceKeepsAbsence(r: string, s: string, sep: string)
    requires exists i :: SliceAt(r, s, i)
    ensures !Contains(s, sep) ==> !Contains(r, sep)
  {
    var i :| SliceAt(r, s, i);
    if Contains(r, sep) {
      var k :| OccursAt(r, sep, k);
      forall m | 0 <= m < |sep|
        ensures s[i + k + m] == sep[m]
      {
        assert s[i..i + |r|][k + m] == s[i + k + m];
        assert r[k..k + |sep|][m] == r[k + m];
      }
      assert s[i + k..i + k + |sep|] == sep;
      assert OccursAt(s, sep, i + k);
    }
  }

  /**
   * The paragraphs of a text: its blank-line separated segments, stripped,
   * without the blank ones. Each is non-empty, has no surrounding whitespace
   * and holds no blank line.
   */
  function ParagraphTexts(text: string): (r: seq<string>)
    ensures AllStripped(r)
    ensures NoBlankLines(r)
    ensures r == [] <==> AllBlank(SplitOn(text, BlankLine))
  {
    var segments := SplitOn(text, BlankLine);
    NonBlankKeepsNoBlankLines(segments);
    NonBlankEmpty(segments);
    NonBlankStripped(segments);
    NonBlank(segments)
  }

  function Paragraph(p: string): string {
    "<p>" + p + "</p>"
  }

  /** One `<p>` element per paragraph, in order. */
  function ParagraphElements(ps: seq<string>): seq<string> {
    seq(|ps|, k requires 0 <= k < |ps| => Paragraph(ps[k]))
  }

  /**
   * `_text_to_html`: one `<p>` element per paragraph, one per line; the empty
   * string for a missing or empty text and for a text that is all whitespace.
   */
  function TextToHtml(text: Option<string>): (r: string)
    ensures !Truthy(text) ==> r == ""
    ensures Truthy(text) ==> (r == "" <==> ParagraphTexts(text.value) == [])
  {
    if !Truthy(text) then ""
    else
      var ps := ParagraphTexts(text.value);
      var elements := ParagraphElements(ps);
      JoinStartsWithFirst(elements, "\n");
      Join(elements, "\n")
  }

  /**
   * The HTML of a text is one `<p>` element per blank-line separated segment
   * that is not blank, holding that segment stripped, in order, one per line.
   */
  lemma TextToHtmlParagraphs(text: string)
    requires text != ""
    ensures TextToHtml(Some(text))
      == Join(ParagraphElements(StripEach(Query.Filter(SplitOn(text, BlankLine), NotBlank))), "\n")
  {
    NonBlankIsStrippedFilter(SplitOn(text, BlankLine));
  }

  lemma JoinStartsWithFirst(parts: seq<string>, sep: string)
    ensures |parts| >= 1 ==> |Join(parts, sep)| >= |parts[0]|
  {
  }

  /** A text that holds no blank line is not split: it is a single segment. */
  lemma WithoutBlankLineOneSegment(a: string)
    requires !Contains(a, BlankLine)
    ensures SplitOn(a, BlankLine) == [a]
  {
    var i := IndexOf(a, BlankLine);
    assert i >= 0 ==> OccursAt(a, BlankLine, i);
  }

  /**
   * Splitting at the first blank line: when `a` holds no blank line and does
   * not end with a newline, the blank line written after it is the first one.
   */
  lemma SplitAtFirstBlankLine(a: string, b: string)
    requires !Contains(a, BlankLine)
    requires a == [] || a[|a| - 1] != '\n'
    ensures SplitOn(a + BlankLine + b, BlankLine) == [a] + SplitOn(b, BlankLine)
  {
    var s := a + BlankLine + b;
    assert s[|a|..|a| + 2] == BlankLine;
    assert OccursAt(s, BlankLine, |a|);
    var i := IndexOf(s, BlankLine);
    if i < |a| {
      NoBlankLineInside(a, b, i);
    }
    assert s[..i] == a;
    assert s[i + 2..] == b;
  }

  /** No blank line of `a + BlankLine + b` starts inside `a`. */
  lemma NoBlankLineInside(a: string, b: string, j: int)
    requires !Contains(a, BlankLine)
    requires a == [] || a[|a| - 1] != '\n'
    requires 0 <= j < |a|
    ensures !OccursAt(a + BlankLine + b, BlankLine, j)
  {
    var s := a + BlankLine + b;
    if j + 2 <= |a| {
      assert s[j..j + 2] == a[j..j + 2];
      assert !OccursAt(a, BlankLine, j);
    } else {
      assert s[j..j + 2][0] == a[|a| - 1];
    }
  }

  /**
   * The paragraphs of a text assembled from segments separated by blank lines
   * are exactly the stripped, non-blank segments, in order.
   */
  lemma {:induction false} ParagraphsOfSegments(segs: seq<string>)
    requires |segs| >= 1 && Separable(segs)
    ensures ParagraphTexts(Join(segs, BlankLine)) == NonBlank(segs)
    decreases |segs|
  {
    if |segs| == 1 {
      WithoutBlankLineOneSegment(segs[0]);
    } else {
      SeparableTail(segs);
      ParagraphsOfSegments(segs[1..]);
      ParagraphsCons(segs);
    }
  }

  /**
   * Segments that can be joined by blank lines and split back: none holds a
   * blank line, and none but the last ends with a line break.
   */
  ghost predicate Separable(segs: seq<string>) {
    && (forall k :: 0 <= k < |segs| ==> !Contains(segs[k], BlankLine))
    && (forall k :: 0 <= k < |segs| - 1 ==> segs[k] == [] || segs[k][|segs[k]| - 1] != '\n')
  }

  lemma SeparableTail(segs: seq<string>)
    requires |segs| >= 1 && Separable(segs)
    ensures Separable(segs[1..])
  {
  }

  /** The first segment, followed by a blank line, gives the first paragraph unless it is blank. */
  lemma ParagraphsCons(segs: seq<string>)
    requires |segs| >= 2 && Separable(segs)
    ensures ParagraphTexts(Join(segs, BlankLine))
         == if Strip(segs[0]) != [] then [Strip(segs[0])] + ParagraphTexts(Join(segs[1..], BlankLine))
            else ParagraphTexts(Join(segs[1..], BlankLine))
  {
    var rest := Join(segs[1..], BlankLine);
    assert Join(segs, BlankLine) == segs[0] + BlankLine + rest;
    SplitAtFirstBlankLine(segs[0], rest);
    NonBlankCons(segs[0], SplitOn(rest, BlankLine));
  }

  /** `NonBlank` takes its first segment, stripped, when it is not blank. */
  lemma NonBlankCons(x: string, rest: seq<string>)
    ensures NonBlank([x] + rest) == (if Strip(x) != [] then [Strip(x)] + NonBlank(rest) else NonBlank(rest))
  {
    assert ([x] + rest)[1..] == rest;
  }

  /** A text without blank lines and not all whitespace is one paragraph: its stripped self. */
  lemma SingleParagraph(text: string)
    requires !Contains(text, BlankLine) && !AllSpace(text)
    ensures TextToHtml(Some(text)) == "<p>" + Strip(text) + "</p>"
  {
    WithoutBlankLineOneSegment(text);
    assert ParagraphTexts(text) == [Strip(text)];
  }

  // ---------------------------------------------------------------- format_blog_post

  const OpenIntro: string := "\n        <div class=\"blog-post\">\n            <div class=\"intro\">\n                "
  const OpenBody: string := "\n            </div>\n            \n            <div class=\"body\">\n                "
  const OpenConclusion: string := "\n            </div>\n            \n            <div class=\"conclusion\">\n                "
  const CallToAction: string :=
    "\n            </div>\n            \n            <div class=\"cta\">\n"
    + "                <p><strong>Свяжитесь с нами для профессиональной консультации!</strong></p>\n"
    + "                <p>Наши услуги: энергоаудит, тепловизионное обследование, испытания систем вентиляции.</p>\n"
    + "            </div>\n        </div>\n        "

  /**
   * `format_blog_post`: the intro, body and conclusion rendered by
   * `_text_to_html`, each right after its opening tag and in that order,
   * inside a fixed frame that ends with the call-to-action block.
   */
  function FormatBlogPost(post: BlogPost): (r: string)
    ensures var intro, body, conclusion := TextToHtml(post.intro), TextToHtml(post.body), TextToHtml(post.conclusion);
      var head := OpenIntro + intro + OpenBody;
      && StartsWith(r, head)
      && r[|head|..] == body + OpenConclusion + conclusion + CallToAction
  {
    var head := OpenIntro + TextToHtml(post.intro) + OpenBody;
    var tail := TextToHtml(post.body) + OpenConclusion + TextToHtml(post.conclusion) + CallToAction;
    PrefixAndRest(head, tail);
    head + tail
  }

  lemma PrefixAndRest(head: string, tail: string)
    ensures StartsWith(head + tail, head) && (head + tail)[|head|..] == tail
  {
  }

  /** Only the intro, body and conclusion reach the page; title, meta description and tags do not. */
  lemma FormatIgnoresOtherFields(a: BlogPost, b: BlogPost)
    requires a.intro == b.intro && a.body == b.body && a.conclusion == b.conclusion
    ensures FormatBlogPost(a) == FormatBlogPost(b)
  {
  }

  /** A post whose sections are all missing or blank renders like a post with no sections at all. */
  lemma BlankPostRendersFrame(post: BlogPost)
    requires post.intro.None? || AllSpace(post.intro.value)
    requires post.body.None? || AllSpace(post.body.value)
    requires post.conclusion.None? || AllSpace(post.conclusion.value)
    ensures FormatBlogPost(post) == FormatBlogPost(BlogPost(None, None, None, None, None, []))
  {
    BlankRendersEmpty(post.intro);
    BlankRendersEmpty(post.body);
    BlankRendersEmpty(post.conclusion);
  }

  /** A missing text and a text of only whitespace both render to nothing. */
  lemma BlankRendersEmpty(text: Option<string>)
    requires text.None? || AllSpace(text.value)
    ensures TextToHtml(text) == ""
  {
    if Truthy(text) {
      var segs := SplitOn(text.value, BlankLine);
      forall k | 0 <= k < |segs|
        ensures AllSpace(segs[k])
      {
        JoinedPartIsSlice(segs, BlankLine, k);
        var i :| SliceAt(segs[k], text.value, i);
        assert forall m :: 0 <= m < |segs[k]| ==> segs[k][m] == text.value[i + m];
      }
    }
  }

  /** Each part of a join is a slice of the joined text. */
  lemma {:induction false} JoinedPartIsSlice(parts: seq<string>, sep: string, k: int)
    requires 0 <= k < |parts|
    ensures exists i :: SliceAt(parts[k], Join(parts, sep), i)
    decreases |parts|
  {
    var s := Join(parts, sep);
    if |parts| == 1 {
      assert SliceAt(parts[0], s, 0);
    } else if k == 0 {
      assert s[..|parts[0]|] == parts[0];
      assert SliceAt(parts[0], s, 0);
    } else {
      var tail := parts[1..];
      JoinedPartIsSlice(tail, sep, k - 1);
      var i :| SliceAt(tail[k - 1], Join(tail, sep), i);
      var off := |parts[0]| + |sep|;
      assert s == parts[0] + sep + Join(tail, sep);
      assert s[off..] == Join(tail, sep);
      assert s[off + i..off + i + |parts[k]|] == s[off..][i..i + |parts[k]|];
      assert SliceAt(parts[k], s, off + i);
    }
  }
}
