/**
 * The language-model search engine (gemini_search.py). The model itself and
 * `json.loads` are collaborators: the model's reply to a prompt is an
 * `Option<string>` (`None` when the call or `response.text` raises), and
 * decoding a JSON text is an `Option` (`None` when `json.loads` raises).
 * What remains is the reply handling: cut out the text from the first `{`
 * through the last `}`, decode it, and fall back to a fixed value on any
 * failure.
 */
module Gemini {
  import opened Common
  import opened Strings
  import opened Payloads

  /** The decoded reply to a search prompt: `result.get('articles', [])`. */
  datatype SearchReply = SearchReply(articles: Option<seq<Candidate>>)

  /** The model's replies, one per kind of prompt; the prompt text is a function of the argument. */
  datatype LanguageModel = LanguageModel(
    searchReply: string -> Option<string>,
    analysisReply: Candidate -> Option<string>,
    blogReply: ArticleFields -> Option<string>)

  /** `json.loads` on the extracted text, for each expected shape. */
  datatype JsonDecoder = JsonDecoder(
    search: string -> Option<SearchReply>,
    analysis: string -> Option<Analysis>,
    blogPost: string -> Option<BlogPost>)

  datatype SearchEngine = SearchEngine(apiKey: string, model: LanguageModel, json: JsonDecoder)

  /** `GeminiSearchEngine()`: refuses to start (`ValueError`) without an API key. */
  function NewSearchEngine(apiKey: string, model: LanguageModel, json: JsonDecoder): (r: Result<SearchEngine>)
    ensures r.Err? <==> apiKey == ""
    ensures r.Ok? ==> r.value.apiKey == apiKey
  {
    if apiKey == "" then Err("GEMINI_API_KEY not set in configuration")
    else Ok(SearchEngine(apiKey, model, json))
  }

  /**
   * `text[text.find('{'):text.rfind('}') + 1]` when `text.find('{') != -1`
   * and `text.rfind('}') + 1 > text.find('{')`. There is a span exactly when
   * some `}` follows some `{`; it runs from the first `{` through the last `}`.
   */
  function ExtractJsonSpan(text: string): (r: Option<string>)
    ensures r.Some? <==> exists i, j :: 0 <= i < j < |text| && text[i] == '{' && text[j] == '}'
    ensures r.Some? ==> |r.value| >= 2 && r.value[0] == '{' && r.value[|r.value| - 1] == '}'
    ensures r.Some? ==> exists i :: SliceAt(r.value, text, i) && '{' !in text[..i] && '}' !in text[i + |r.value|..]
  {
    var start := Find(text, '{');
    var end := RFind(text, '}') + 1;
    BraceOrder(text);
    if start != -1 && end > start then
      var span := text[start..end];
      assert SliceAt(span, text, start);
      Some(span)
    else
      None
  }

  /** When some `}` follows some `{`, the last `}` follows the first `{`. */
  lemma BraceOrder(text: string)
    ensures (exists i, j :: 0 <= i < j < |text| && text[i] == '{' && text[j] == '}')
        ==> Find(text, '{') != -1 && RFind(text, '}') + 1 > Find(text, '{')
  {
    if exists i, j :: 0 <= i < j < |text| && text[i] == '{' && text[j] == '}' {
      var i, j :| 0 <= i < j < |text| && text[i] == '{' && text[j] == '}';
      var start, last := Find(text, '{'), RFind(text, '}');
      assert text[i] in text && text[j] in text;
    }
  }

  /**
   * What a reply decodes to: `None` when the model call failed, no span was
   * found, or `json.loads` failed on the span; otherwise the decoded span.
   */
  function Decoded<T>(reply: Option<string>, decode: string -> Option<T>): (r: Option<T>)
    ensures r.Some? <==>
      reply.Some? && ExtractJsonSpan(reply.value).Some? && decode(ExtractJsonSpan(reply.value).value).Some?
    ensures r.Some? ==> r == decode(ExtractJsonSpan(reply.value).value)
  {
    if reply.None? then None
    else
      var span := ExtractJsonSpan(reply.value);
      if span.None? then None else decode(span.value)
  }

  /** `search_articles`: the decoded `articles` list, or `[]` on any failure. */
  function SearchArticles(engine: SearchEngine, keyword: string): (r: seq<Candidate>)
    ensures r != [] ==> engine.model.searchReply(keyword).Some?
    ensures r != [] ==> ExtractJsonSpan(engine.model.searchReply(keyword).value).Some?
  {
    match engine.model.searchReply(keyword)
    case None => []
    case Some(text) =>
      match ExtractJsonSpan(text)
      case None => []
      case Some(span) =>
        match engine.json.search(span)
        case None => []
        case Some(reply) => reply.articles.GetOr([])
  }

  /** `_default_analysis`: every score 5.0, no key topics. */
  function DefaultAnalysis(): (a: Analysis)
    ensures a.scores.Some? && a.keyTopics == []
    ensures var s := a.scores.value;
      && s.relevance == Some(5.0) && s.quality == Some(5.0) && s.timeliness == Some(5.0)
      && s.businessValue == Some(5.0) && s.uniqueness == Some(5.0) && s.overall == Some(5.0)
    ensures a.socialMediaTitle == ""
  {
    Analysis(Some(Scores(Some(5.0), Some(5.0), Some(5.0), Some(5.0), Some(5.0), Some(5.0))),
             [], "общая аудитория", "требуется ручная проверка", "")
  }

  /**
   * `analyze_article`: building the prompt reads the candidate's keys before
   * the `try`, so a candidate that is not an object raises (`Err`). Otherwise
   * the decoded analysis, or the default one when the model fails, no span is
   * found or decoding fails.
   */
  function AnalyzeArticle(engine: SearchEngine, article: Candidate): (r: Result<Analysis>)
    ensures r.Err? <==> article.NotAnObject?
    ensures article.Candidate? && engine.model.analysisReply(article).None? ==> r == Ok(DefaultAnalysis())
    ensures (article.Candidate? && engine.model.analysisReply(article).Some?
             && ExtractJsonSpan(engine.model.analysisReply(article).value).None?) ==> r == Ok(DefaultAnalysis())
  {
    if article.NotAnObject? then Err("object has no attribute 'get'")
    else
      match engine.model.analysisReply(article)
      case None => Ok(DefaultAnalysis())
      case Some(text) =>
        match ExtractJsonSpan(text)
        case None => Ok(DefaultAnalysis())
        case Some(span) => Ok(engine.json.analysis(span).GetOr(DefaultAnalysis()))
  }

  /** The fixed conclusion of a fallback blog post. */
  const DefaultConclusion: string := "Свяжитесь с нами для получения профессиональной консультации."

  /**
   * `_default_blog_post`: the article's own title (or 'Новая статья'), its
   * description as the intro, its content as the body, a meta description of
   * at most 160 characters cut from the description, and no tags.
   */
  function DefaultBlogPost(article: ArticleFields): (p: BlogPost)
    ensures p.title == Some(article.title.GetOr("Новая статья"))
    ensures p.intro == Some(article.description.GetOr(""))
    ensures p.body == Some(article.content.GetOr(""))
    ensures p.conclusion == Some(DefaultConclusion)
    ensures p.metaDescription.Some? && |p.metaDescription.value| <= 160
    ensures StartsWith(article.description.GetOr(""), p.metaDescription.value)
    ensures |article.description.GetOr("")| <= 160 ==> p.metaDescription == p.intro
    ensures p.tags == []
  {
    BlogPost(
      Some(article.title.GetOr("Новая статья")),
      Some(article.description.GetOr("")),
      Some(article.content.GetOr("")),
      Some(DefaultConclusion),
      Some(Take(article.description.GetOr(""), 160)),
      [])
  }

  /** `generate_blog_post`: the decoded post, or the article's default post on any failure. */
  function GenerateBlogPost(engine: SearchEngine, article: ArticleFields): (r: BlogPost)
    ensures engine.model.blogReply(article).None? ==> r == DefaultBlogPost(article)
  {
    match engine.model.blogReply(article)
    case None => DefaultBlogPost(article)
    case Some(text) =>
      match ExtractJsonSpan(text)
      case None => DefaultBlogPost(article)
      case Some(span) => engine.json.blogPost(span).GetOr(DefaultBlogPost(article))
  }

  /**
   * `search_articles` falls back to `[]` on every failure (the model call,
   * no span, `json.loads`); otherwise it is the decoded `articles` list, `[]`
   * when the key is missing.
   */
  lemma SearchArticlesDecoded(engine: SearchEngine, keyword: string)
    ensures var d := Decoded(engine.model.searchReply(keyword), engine.json.search);
      && (d.None? ==> SearchArticles(engine, keyword) == [])
      && (d.Some? ==> SearchArticles(engine, keyword) == d.value.articles.GetOr([]))
  {
  }

  /**
   * For an object, `analyze_article` falls back to the default analysis on
   * every failure; otherwise it is the decoded analysis.
   */
  lemma AnalyzeArticleDecoded(engine: SearchEngine, article: Candidate)
    requires article.Candidate?
    ensures var d := Decoded(engine.model.analysisReply(article), engine.json.analysis);
      && (d.None? ==> AnalyzeArticle(engine, article) == Ok(DefaultAnalysis()))
      && (d.Some? ==> AnalyzeArticle(engine, article) == Ok(d.value))
  {
  }

  /**
   * `generate_blog_post` falls back to the article's default post on every
   * failure; otherwise it is the decoded post.
   */
  lemma GenerateBlogPostDecoded(engine: SearchEngine, article: ArticleFields)
    ensures var d := Decoded(engine.model.blogReply(article), engine.json.blogPost);
      && (d.None? ==> GenerateBlogPost(engine, article) == DefaultBlogPost(article))
      && (d.Some? ==> GenerateBlogPost(engine, article) == d.value)
  {
  }

  /** A reply without any `{` before a `}` yields every fallback. */
  lemma NoSpanMeansFallback(engine: SearchEngine, keyword: string, article: ArticleFields, candidate: Candidate)
    requires engine.model.searchReply(keyword).Some? && '{' !in engine.model.searchReply(keyword).value
    requires candidate.Candidate?
    requires engine.model.analysisReply(candidate).Some? && '{' !in engine.model.analysisReply(candidate).value
    requires engine.model.blogReply(article).Some? && '{' !in engine.model.blogReply(article).value
    ensures SearchArticles(engine, keyword) == []
    ensures AnalyzeArticle(engine, candidate) == Ok(DefaultAnalysis())
    ensures GenerateBlogPost(engine, article) == DefaultBlogPost(article)
  {
  }
}
