/**
 * The daily pipeline stages (scheduler.py). The language model, the blog and
 * the social networks are the collaborators of the Gemini, WordPress and
 * Social modules; the store is an `ArticleDatabase`. Each stage is a method
 * whose loops follow the source, and whose effect on the store is stated by a
 * recursive function over the items it visits; lemmas state what those
 * functions guarantee. An exception that the source catches per item is the
 * `None` of the function that builds the item.
 */
module Scheduler {
  import opened Common
  import opened Strings
  import opened Payloads
  import opened Query
  import opened Gemini
  import opened WordPress
  import opened Social
  import opened Database
  import Config

  // ================================================================ search_and_collect_articles

  /** `analysis['scores']['overall']` and `analysis['scores']['relevance']` both exist. */
  predicate HasScores(a: Analysis) {
    a.scores.Some? && a.scores.value.overall.Some? && a.scores.value.relevance.Some?
  }

  /**
   * The `article_data` built for one search result, or `None` when building it
   * raises: the result is not an object, or its analysis lacks a score.
   * The stored url is the result's `source_type`, `''` when absent.
   */
  function CandidateRecord(engine: SearchEngine, keyword: string, c: Candidate): (r: Option<NewArticle>)
    ensures r.None? <==> c.NotAnObject? || !HasScores(AnalyzeArticle(engine, c).value)
    ensures r.Some? ==>
      && r.value.title == Some(c.title.GetOr(""))
      && r.value.url == Some(c.sourceType.GetOr(""))
      && r.value.content == Some(c.description.GetOr(""))
      && r.value.source == Some("Gemini Search")
      && r.value.keywords == [keyword]
      && r.value.aiScore == AnalyzeArticle(engine, c).value.scores.value.overall.value
      && r.value.relevanceScore == AnalyzeArticle(engine, c).value.scores.value.relevance.value
  {
    if c.NotAnObject? then None
    else
      var analysis := AnalyzeArticle(engine, c).value;
      if !HasScores(analysis) then None
      else
        var scores := analysis.scores.value;
        Some(NewArticle(
          Some(c.title.GetOr("")), Some(c.sourceType.GetOr("")), Some(c.description.GetOr("")),
          Some("Gemini Search"), [keyword], scores.overall.value, scores.relevance.value, analysis))
  }

  /** A record the search stage builds for `keyword`. */
  predicate FromSearch(a: NewArticle, keyword: string) {
    && a.title.Some? && a.url.Some?
    && a.source == Some("Gemini Search")
    && a.keywords == [keyword]
  }

  /** The records built for one keyword's results, in order. */
  function Records(engine: SearchEngine, keyword: string, cands: seq<Candidate>): seq<Option<NewArticle>> {
    seq(|cands|, k requires 0 <= k < |cands| => CandidateRecord(engine, keyword, cands[k]))
  }

  /** Every record built for `keyword` carries it, with the search engine as its source. */
  lemma RecordsFromSearch(engine: SearchEngine, keyword: string, cands: seq<Candidate>)
    ensures var r := Records(engine, keyword, cands);
      |r| == |cands| && forall k :: 0 <= k < |r| && r[k].Some? ==> FromSearch(r[k].value, keyword)
  {
    var r := Records(engine, keyword, cands);
    forall k | 0 <= k < |r| && r[k].Some?
      ensures FromSearch(r[k].value, keyword)
    {
      assert r[k] == CandidateRecord(engine, keyword, cands[k]);
    }
  }

  /** Where one keyword's processing got to: the tables, the running count, and whether it ran to the end. */
  datatype Progress = Progress(tables: Tables, found: nat, completed: bool)

  /**
   * The inner loop over one keyword's records, in order: each is inserted
   * and counted when the insert gives a positive id; the first record that
   * could not be built ends the keyword, keeping what was inserted before it.
   */
  function IngestFrom(t: Tables, found: nat, records: seq<Option<NewArticle>>, now: int): Progress
    decreases |records|
  {
    if records == [] then
      Progress(t, found, true)
    else
      match records[0]
      case None => Progress(t, found, false)
      case Some(a) =>
        var (t', id) := InsertArticle(t, a, now);
        IngestFrom(t', if id > 0 then found + 1 else found, records[1..], now)
  }

  /**
   * The outer loop over the keywords: a keyword that runs to the end records
   * one search with the number of results, duplicates included.
   */
  function CollectFrom(t: Tables, found: nat, engine: SearchEngine, keywords: seq<string>, now: int): (Tables, nat)
    decreases |keywords|
  {
    if keywords == [] then
      (t, found)
    else
      var cands := SearchArticles(engine, keywords[0]);
      var p := IngestFrom(t, found, Records(engine, keywords[0], cands), now);
      var t' := if p.completed then AppendSearch(p.tables, keywords[0], |cands|, now) else p.tables;
      CollectFrom(t', p.found, engine, keywords[1..], now)
  }

  /** A row the search stage stored for one of `keywords`. */
  predicate Gathered(row: Article, keywords: seq<string>) {
    && row.source == Some("Gemini Search")
    && row.status == "pending"
    && row.url.Some?
    && |row.keywords| == 1
    && row.keywords[0] in keywords
  }

  /**
   * One keyword's results: the existing rows stay, the count grows by exactly
   * the number of rows added, every added row carries the keyword, and the
   * other tables are untouched.
   */
  lemma {:induction false} IngestSpec(t: Tables, found: nat, keyword: string, records: seq<Option<NewArticle>>, now: int)
    requires WellFormed(t)
    requires forall k :: 0 <= k < |records| && records[k].Some? ==> FromSearch(records[k].value, keyword)
    ensures var p := IngestFrom(t, found, records, now);
      && WellFormed(p.tables)
      && p.tables.publications == t.publications
      && p.tables.searches == t.searches && p.tables.nextSearchId == t.nextSearchId
      && |t.articles| <= |p.tables.articles|
      && p.tables.articles[..|t.articles|] == t.articles
      && p.found == found + (|p.tables.articles| - |t.articles|)
      && (forall k :: |t.articles| <= k < |p.tables.articles| ==> Gathered(p.tables.articles[k], [keyword]))
    decreases |records|
  {
    if records != [] && records[0].Some? {
      var a := records[0].value;
      var (t', id) := InsertArticle(t, a, now);
      InsertArticleSpec(t, a, now);
      var found' := if id > 0 then found + 1 else found;
      var rest := records[1..];
      assert forall k :: 0 <= k < |rest| ==> rest[k] == records[k + 1];
      IngestSpec(t', found', keyword, rest, now);
      var p := IngestFrom(t', found', rest, now);
      assert p == IngestFrom(t, found, records, now);
      assert p.tables.articles[..|t.articles|] == p.tables.articles[..|t'.articles|][..|t.articles|];
      if id != -1 {
        assert t'.articles[|t.articles|] == NewRow(id, a, now);
      }
    }
  }

  /**
   * The rows side of the search stage: existing rows and publications stay,
   * the count is the number of rows added, and every added row is a gathered
   * one for some keyword.
   */
  lemma {:induction false} CollectArticlesSpec(t: Tables, found: nat, engine: SearchEngine, keywords: seq<string>, now: int)
    requires WellFormed(t)
    ensures var (t', found') := CollectFrom(t, found, engine, keywords, now);
      && WellFormed(t')
      && t'.publications == t.publications
      && |t.articles| <= |t'.articles|
      && t'.articles[..|t.articles|] == t.articles
      && found' == found + (|t'.articles| - |t.articles|)
      && (forall k :: |t.articles| <= k < |t'.articles| ==> Gathered(t'.articles[k], keywords))
    decreases |keywords|
  {
    if keywords != [] {
      var keyword := keywords[0];
      var cands := SearchArticles(engine, keyword);
      var records := Records(engine, keyword, cands);
      RecordsFromSearch(engine, keyword, cands);
      IngestSpec(t, found, keyword, records, now);
      var p := IngestFrom(t, found, records, now);
      var mid := if p.completed then AppendSearch(p.tables, keyword, |cands|, now) else p.tables;
      CollectArticlesSpec(mid, p.found, engine, keywords[1..], now);
      var (t', found') := CollectFrom(mid, p.found, engine, keywords[1..], now);
      assert (t', found') == CollectFrom(t, found, engine, keywords, now);
      assert t'.articles[..|t.articles|] == t'.articles[..|mid.articles|][..|t.articles|];
      forall k | |t.articles| <= k < |t'.articles|
        ensures Gathered(t'.articles[k], keywords)
      {
        if k < |mid.articles| {
          assert t'.articles[k] == t'.articles[..|mid.articles|][k];
          assert Gathered(mid.articles[k], [keyword]);
        } else {
          assert Gathered(t'.articles[k], keywords[1..]);
          assert t'.articles[k].keywords[0] in keywords;
        }
      }
    }
  }

  /**
   * The search-history side of the search stage: at most one record per
   * keyword, each naming a keyword with the number of results its search
   * returned, after the records already there.
   */
  lemma {:induction false} CollectSearchesSpec(t: Tables, found: nat, engine: SearchEngine, keywords: seq<string>, now: int)
    requires WellFormed(t)
    ensures var (t', _) := CollectFrom(t, found, engine, keywords, now);
      && |t.searches| <= |t'.searches| <= |t.searches| + |keywords|
      && t'.searches[..|t.searches|] == t.searches
      && (forall k :: |t.searches| <= k < |t'.searches| ==>
            t'.searches[k].keyword in keywords
            && t'.searches[k].resultsCount == |SearchArticles(engine, t'.searches[k].keyword)|)
    decreases |keywords|
  {
    if keywords != [] {
      var keyword := keywords[0];
      var cands := SearchArticles(engine, keyword);
      var records := Records(engine, keyword, cands);
      RecordsFromSearch(engine, keyword, cands);
      IngestSpec(t, found, keyword, records, now);
      var p := IngestFrom(t, found, records, now);
      var mid := if p.completed then AppendSearch(p.tables, keyword, |cands|, now) else p.tables;
      CollectSearchesSpec(mid, p.found, engine, keywords[1..], now);
      var (t', found') := CollectFrom(mid, p.found, engine, keywords[1..], now);
      assert (t', found') == CollectFrom(t, found, engine, keywords, now);
      assert t'.searches[..|t.searches|] == t'.searches[..|mid.searches|][..|t.searches|];
      forall k | |t.searches| <= k < |t'.searches|
        ensures t'.searches[k].keyword in keywords
        ensures t'.searches[k].resultsCount == |SearchArticles(engine, t'.searches[k].keyword)|
      {
        if k < |mid.searches| {
          assert t'.searches[k] == t'.searches[..|mid.searches|][k];
          assert t'.searches[k] == SearchRecord(t.nextSearchId, keyword, now, |cands|);
        } else {
          assert t'.searches[k].keyword in keywords[1..];
        }
      }
    }
  }

  /**
   * The whole search stage: existing rows and publications stay, the count is
   * the number of rows added, every added row is a gathered one for some
   * keyword, and every search record added names a keyword with the number of
   * results its search returned.
   */
  lemma CollectSpec(t: Tables, found: nat, engine: SearchEngine, keywords: seq<string>, now: int)
    requires WellFormed(t)
    ensures var (t', found') := CollectFrom(t, found, engine, keywords, now);
      && WellFormed(t')
      && t'.publications == t.publications
      && |t.articles| <= |t'.articles|
      && t'.articles[..|t.articles|] == t.articles
      && found' == found + (|t'.articles| - |t.articles|)
      && (forall k :: |t.articles| <= k < |t'.articles| ==> Gathered(t'.articles[k], keywords))
      && |t.searches| <= |t'.searches| <= |t.searches| + |keywords|
      && t'.searches[..|t.searches|] == t.searches
      && (forall k :: |t.searches| <= k < |t'.searches| ==>
            t'.searches[k].keyword in keywords
            && t'.searches[k].resultsCount == |SearchArticles(engine, t'.searches[k].keyword)|)
  {
    CollectArticlesSpec(t, found, engine, keywords, now);
    CollectSearchesSpec(t, found, engine, keywords, now);
  }

  /** Every result of `keyword`'s search could be built into a record, so its loop ran to the end. */
  predicate RunsToEnd(engine: SearchEngine, keyword: string) {
    var cands := SearchArticles(engine, keyword);
    forall k :: 0 <= k < |cands| ==> CandidateRecord(engine, keyword, cands[k]).Some?
  }

  /** One keyword's search history entry: the keyword and the number of results. */
  datatype Searched = Searched(keyword: string, resultsCount: nat)

  /** The history a run over `keywords` should leave: one entry per keyword that ran to the end, in order. */
  function SearchesRecorded(engine: SearchEngine, keywords: seq<string>): seq<Searched>
    decreases |keywords|
  {
    if keywords == [] then []
    else
      var head := if RunsToEnd(engine, keywords[0]) then [Searched(keywords[0], |SearchArticles(engine, keywords[0])|)] else [];
      head + SearchesRecorded(engine, keywords[1..])
  }

  /** A keyword's loop runs to the end exactly when none of its records failed to build. */
  lemma {:induction false} IngestCompleted(t: Tables, found: nat, records: seq<Option<NewArticle>>, now: int)
    ensures IngestFrom(t, found, records, now).completed <==> forall k :: 0 <= k < |records| ==> records[k].Some?
    decreases |records|
  {
    if records != [] && records[0].Some? {
      var (t', id) := InsertArticle(t, records[0].value, now);
      IngestCompleted(t', if id > 0 then found + 1 else found, records[1..], now);
      assert forall k :: 1 <= k < |records| ==> records[k] == records[1..][k - 1];
    }
  }

  /**
   * `after` is `before`'s search history followed by one record per entry of
   * `added`, in order, with the ids `before` would hand out next.
   */
  predicate SearchesInOrder(before: Tables, after: seq<SearchRecord>, added: seq<Searched>, now: int) {
    && |after| == |before.searches| + |added|
    && after[..|before.searches|] == before.searches
    && forall k :: 0 <= k < |added| ==>
         after[|before.searches| + k] == SearchRecord(before.nextSearchId + k, added[k].keyword, now, added[k].resultsCount)
  }

  lemma SearchesInOrderTrans(a: Tables, b: Tables, c: seq<SearchRecord>, p: seq<Searched>, q: seq<Searched>, now: int)
    requires SearchesInOrder(a, b.searches, p, now) && b.nextSearchId == a.nextSearchId + |p|
    requires SearchesInOrder(b, c, q, now)
    ensures SearchesInOrder(a, c, p + q, now)
  {
    var n := |a.searches|;
    assert c[..n] == c[..|b.searches|][..n];
    forall k | 0 <= k < |p + q|
      ensures c[n + k] == SearchRecord(a.nextSearchId + k, (p + q)[k].keyword, now, (p + q)[k].resultsCount)
    {
      if k < |p| {
        assert c[n + k] == c[..|b.searches|][n + k];
      } else {
        assert c[n + k] == c[|b.searches| + (k - |p|)];
      }
    }
  }

  /**
   * The search history after the search stage: the records already there,
   * then exactly one record per keyword whose loop ran to the end, in keyword
   * order, with consecutive ids, the keyword and its number of results; an
   * aborted keyword records nothing.
   */
  lemma {:induction false} SearchHistoryRecorded(t: Tables, found: nat, engine: SearchEngine, keywords: seq<string>, now: int)
    requires WellFormed(t)
    ensures var (t', _) := CollectFrom(t, found, engine, keywords, now);
      SearchesInOrder(t, t'.searches, SearchesRecorded(engine, keywords), now)
    decreases |keywords|
  {
    if keywords == [] {
      assert t.searches[..|t.searches|] == t.searches;
    } else {
      var keyword := keywords[0];
      var cands := SearchArticles(engine, keyword);
      var records := Records(engine, keyword, cands);
      RecordsFromSearch(engine, keyword, cands);
      IngestSpec(t, found, keyword, records, now);
      IngestCompleted(t, found, records, now);
      var p := IngestFrom(t, found, records, now);
      assert p.completed <==> RunsToEnd(engine, keyword) by {
        assert forall k :: 0 <= k < |cands| ==> records[k] == CandidateRecord(engine, keyword, cands[k]);
      }
      var mid := if p.completed then AppendSearch(p.tables, keyword, |cands|, now) else p.tables;
      var head := if RunsToEnd(engine, keyword) then [Searched(keyword, |cands|)] else [];
      assert SearchesInOrder(t, mid.searches, head, now) by {
        assert mid.searches[..|t.searches|] == t.searches;
      }
      SearchHistoryRecorded(mid, p.found, engine, keywords[1..], now);
      var (t', found') := CollectFrom(mid, p.found, engine, keywords[1..], now);
      assert (t', found') == CollectFrom(t, found, engine, keywords, now);
      SearchesInOrderTrans(t, mid, t'.searches, head, SearchesRecorded(engine, keywords[1..]), now);
    }
  }

  // ================================================================ publish_to_blog

  /** `generate_blog_post` on the dictionary `get_pending_articles` returned: it has no `description`. */
  function BlogPostFor(engine: SearchEngine, row: PendingArticle): BlogPost {
    GenerateBlogPost(engine, ArticleFields(Some(row.title), None, row.content))
  }

  /**
   * The `post_data` sent for one article, or `None` when building it raises
   * `KeyError` because the generated post has no `title` or no
   * `meta_description`.
   */
  function BlogRequest(engine: SearchEngine, row: PendingArticle): (r: Option<PostData>)
    ensures var post := BlogPostFor(engine, row);
      && (r.Some? <==> post.title.Some? && post.metaDescription.Some?)
      && (r.Some? ==>
            && r.value.title == post.title
            && r.value.content == Some(FormatBlogPost(post))
            && r.value.excerpt == post.metaDescription
            && r.value.status == Some("draft")
            && r.value.tags == post.tags
            && r.value.categories == [])
  {
    var post := BlogPostFor(engine, row);
    if post.title.None? || post.metaDescription.None? then None
    else Some(PostData(post.title, Some(FormatBlogPost(post)), post.metaDescription, Some("draft"), post.tags, []))
  }

  /** The blog stage so far: the tables, `published_count`, and the posts sent to the blog. */
  datatype BlogRun = BlogRun(tables: Tables, published: nat, requests: seq<PostData>)

  /** One selected article: its id, and the post built for it (`None` when building it raised). */
  datatype BlogItem = BlogItem(articleId: int, request: Option<PostData>)

  /** The posts built for the selected articles, in order. */
  function BlogPlan(engine: SearchEngine, rows: seq<PendingArticle>): seq<BlogItem> {
    seq(|rows|, k requires 0 <= k < |rows| => BlogItem(rows[k].id, BlogRequest(engine, rows[k])))
  }

  /**
   * One article of `publish_to_blog`: when its post was built it is sent; on
   * a truthy post id its status becomes `'published'`, a `'wordpress'`
   * publication is recorded and the count grows; otherwise the store is left
   * as it was.
   */
  function BlogNext(run: BlogRun, api: RestApi, item: BlogItem, now: int): BlogRun {
    match item.request
    case None => run
    case Some(data) =>
      var postId := CreatePost(api, data);
      if Truthy(postId) then
        BlogRun(AppendPublication(SetStatus(run.tables, item.articleId, "published"), item.articleId, "wordpress", postId.value, now),
                run.published + 1, run.requests + [data])
      else
        run.(requests := run.requests + [data])
  }

  /** The loop of `publish_to_blog`, over the selected articles in order. */
  function BlogFrom(run: BlogRun, api: RestApi, plan: seq<BlogItem>, now: int): BlogRun
    decreases |plan|
  {
    if plan == [] then run
    else BlogFrom(BlogNext(run, api, plan[0], now), api, plan[1..], now)
  }

  /** A wordpress publication that carries a non-empty post id. */
  predicate BlogPublication(p: Publication) {
    p.platform == "wordpress" && p.postId != "" && p.status == "success"
  }

  /** Same rows in the same order; a status is either kept or set to `'published'`, and no other column changes. */
  predicate OnlyPublishedStatus(before: seq<Article>, after: seq<Article>) {
    && |after| == |before|
    && forall k :: 0 <= k < |before| ==>
         after[k].(status := before[k].status) == before[k]
         && (after[k].status == before[k].status || after[k].status == "published")
  }

  /** `after` is `before` followed by `n` wordpress publications. */
  predicate AppendsBlogPublications(before: seq<Publication>, after: seq<Publication>, n: int) {
    && 0 <= n && |after| == |before| + n
    && after[..|before|] == before
    && forall k :: |before| <= k < |after| ==> BlogPublication(after[k])
  }

  /** The blog stage so far, from `run` to `r`, within at most `steps` articles. */
  ghost predicate BlogProgress(run: BlogRun, r: BlogRun, steps: int) {
    && WellFormed(r.tables)
    && run.published <= r.published
    && |run.requests| <= |r.requests|
    && r.published - run.published <= |r.requests| - |run.requests| <= steps
    && r.requests[..|run.requests|] == run.requests
    && r.tables.searches == run.tables.searches
    && OnlyPublishedStatus(run.tables.articles, r.tables.articles)
    && AppendsBlogPublications(run.tables.publications, r.tables.publications, r.published - run.published)
  }

  lemma BlogNextSpec(run: BlogRun, api: RestApi, item: BlogItem, now: int)
    requires WellFormed(run.tables)
    ensures BlogProgress(run, BlogNext(run, api, item, now), 1)
  {
    SetStatusSpec(run.tables, item.articleId, "published");
    var r := BlogNext(run, api, item, now);
    assert r.requests[..|run.requests|] == run.requests;
    assert r.tables.publications[..|run.tables.publications|] == run.tables.publications;
  }

  lemma BlogProgressTrans(a: BlogRun, b: BlogRun, c: BlogRun, m: int, n: int)
    requires BlogProgress(a, b, m) && BlogProgress(b, c, n)
    ensures BlogProgress(a, c, m + n)
  {
    assert c.requests[..|a.requests|] == c.requests[..|b.requests|][..|a.requests|];
    var pa, pb, pc := a.tables.publications, b.tables.publications, c.tables.publications;
    assert pc[..|pa|] == pc[..|pb|][..|pa|];
    forall k | |pa| <= k < |pc|
      ensures BlogPublication(pc[k])
    {
      if k < |pb| {
        assert pc[k] == pc[..|pb|][k];
      }
    }
  }

  /**
   * The blog stage makes at most one post per article and counts only the
   * successful ones; each success adds exactly one wordpress publication, rows
   * are neither added nor removed, and a status only ever changes to
   * `'published'`.
   */
  lemma {:induction false} BlogSpec(run: BlogRun, api: RestApi, plan: seq<BlogItem>, now: int)
    requires WellFormed(run.tables)
    ensures BlogProgress(run, BlogFrom(run, api, plan, now), |plan|)
    decreases |plan|
  {
    if plan == [] {
      var pubs := run.tables.publications;
      assert pubs[..|pubs|] == pubs;
      assert run.requests[..|run.requests|] == run.requests;
    } else {
      var next := BlogNext(run, api, plan[0], now);
      BlogNextSpec(run, api, plan[0], now);
      BlogSpec(next, api, plan[1..], now);
      BlogProgressTrans(run, next, BlogFrom(next, api, plan[1..], now), 1, |plan| - 1);
    }
  }

  /** An article the blog or a social network accepted, with the post id it answered. */
  datatype Posted = Posted(articleId: int, postId: string)

  /**
   * `after` is `before`'s publications followed by one `platform` publication
   * per entry of `posts`, in order, with the ids `before` would hand out next.
   */
  predicate PublishedInOrder(before: Tables, after: seq<Publication>, posts: seq<Posted>, platform: string, now: int) {
    && |after| == |before.publications| + |posts|
    && after[..|before.publications|] == before.publications
    && forall k :: 0 <= k < |posts| ==>
         after[|before.publications| + k] == Publication(before.nextPublicationId + k, posts[k].articleId, platform, posts[k].postId, now, "success")
  }

  lemma PublishedInOrderTrans(a: Tables, b: Tables, c: seq<Publication>, p: seq<Posted>, q: seq<Posted>, platform: string, now: int)
    requires PublishedInOrder(a, b.publications, p, platform, now) && b.nextPublicationId == a.nextPublicationId + |p|
    requires PublishedInOrder(b, c, q, platform, now)
    ensures PublishedInOrder(a, c, p + q, platform, now)
  {
    var n := |a.publications|;
    assert c[..n] == c[..|b.publications|][..n];
    forall k | 0 <= k < |p + q|
      ensures c[n + k] == Publication(a.nextPublicationId + k, (p + q)[k].articleId, platform, (p + q)[k].postId, now, "success")
    {
      if k < |p| {
        assert c[n + k] == c[..|b.publications|][n + k];
      } else {
        assert c[n + k] == c[|b.publications| + (k - |p|)];
      }
    }
  }

  /** Some entry of `posts` names article `id`. */
  predicate Among(posts: seq<Posted>, id: int) {
    exists j :: 0 <= j < |posts| && posts[j].articleId == id
  }

  lemma AmongConcat(p: seq<Posted>, q: seq<Posted>, id: int)
    ensures Among(p + q, id) <==> Among(p, id) || Among(q, id)
  {
    if Among(p + q, id) {
      var j :| 0 <= j < |p + q| && (p + q)[j].articleId == id;
      if j >= |p| {
        assert q[j - |p|].articleId == id;
      }
    }
    if Among(p, id) {
      var j :| 0 <= j < |p| && p[j].articleId == id;
      assert (p + q)[j] == p[j];
    }
    if Among(q, id) {
      var j :| 0 <= j < |q| && q[j].articleId == id;
      assert (p + q)[|p| + j] == q[j];
    }
  }

  /** The post id of `item` when its post was built and the blog answered with a truthy id. */
  function BlogPostId(api: RestApi, item: BlogItem): Option<string> {
    if item.request.Some? && Truthy(CreatePost(api, item.request.value)) then CreatePost(api, item.request.value) else None
  }

  /** The articles of `plan` the blog accepted, in order, with their post ids. */
  function BlogSuccesses(api: RestApi, plan: seq<BlogItem>): seq<Posted>
    decreases |plan|
  {
    if plan == [] then []
    else
      var head := if BlogPostId(api, plan[0]).Some? then [Posted(plan[0].articleId, BlogPostId(api, plan[0]).value)] else [];
      head + BlogSuccesses(api, plan[1..])
  }

  /**
   * One article of the blog stage: a post that was not built, or whose id is
   * falsy, leaves the tables and the count as they were; an accepted one sets
   * the status of the article with that id to `'published'`, touches no other
   * column or row, appends one `'wordpress'` publication naming the article
   * and the post id, and counts one more.
   */
  lemma BlogNextEffect(run: BlogRun, api: RestApi, item: BlogItem, now: int)
    ensures var r := BlogNext(run, api, item, now);
      && r.requests == run.requests + (if item.request.Some? then [item.request.value] else [])
      && (BlogPostId(api, item).None? ==> r.tables == run.tables && r.published == run.published)
      && (BlogPostId(api, item).Some? ==>
            && r.published == run.published + 1
            && r.tables.publications == run.tables.publications
                 + [Publication(run.tables.nextPublicationId, item.articleId, "wordpress", BlogPostId(api, item).value, now, "success")]
            && r.tables.nextPublicationId == run.tables.nextPublicationId + 1
            && r.tables.searches == run.tables.searches
            && |r.tables.articles| == |run.tables.articles|
            && forall k :: 0 <= k < |run.tables.articles| ==>
                 r.tables.articles[k] == if run.tables.articles[k].id == item.articleId
                                         then run.tables.articles[k].(status := "published")
                                         else run.tables.articles[k])
  {
  }

  /**
   * The publications side of the blog stage: the count grows by the number of
   * accepted articles, and the publications are the earlier ones followed by
   * one `'wordpress'` publication per accepted article, in order, naming the
   * article and its post id.
   */
  lemma {:induction false} BlogPublished(run: BlogRun, api: RestApi, plan: seq<BlogItem>, now: int)
    ensures var r := BlogFrom(run, api, plan, now);
      var s := BlogSuccesses(api, plan);
      && r.published == run.published + |s|
      && PublishedInOrder(run.tables, r.tables.publications, s, "wordpress", now)
    decreases |plan|
  {
    if plan == [] {
      assert run.tables.publications[..|run.tables.publications|] == run.tables.publications;
    } else {
      var next := BlogNext(run, api, plan[0], now);
      BlogNextEffect(run, api, plan[0], now);
      var head := if BlogPostId(api, plan[0]).Some? then [Posted(plan[0].articleId, BlogPostId(api, plan[0]).value)] else [];
      assert PublishedInOrder(run.tables, next.tables.publications, head, "wordpress", now) by {
        assert next.tables.publications[..|run.tables.publications|] == run.tables.publications;
      }
      BlogPublished(next, api, plan[1..], now);
      PublishedInOrderTrans(run.tables, next.tables, BlogFrom(next, api, plan[1..], now).tables.publications,
                            head, BlogSuccesses(api, plan[1..]), "wordpress", now);
    }
  }

  /**
   * The articles side of the blog stage: no row is added or removed, an
   * article becomes `'published'` exactly when the blog accepted a post for
   * its id, and every other article keeps its status; no other column changes.
   */
  lemma {:induction false} BlogStatuses(run: BlogRun, api: RestApi, plan: seq<BlogItem>, now: int)
    ensures var r := BlogFrom(run, api, plan, now);
      var s := BlogSuccesses(api, plan);
      && |r.tables.articles| == |run.tables.articles|
      && forall k :: 0 <= k < |run.tables.articles| ==>
           r.tables.articles[k] == if Among(s, run.tables.articles[k].id)
                                   then run.tables.articles[k].(status := "published")
                                   else run.tables.articles[k]
    decreases |plan|
  {
    if plan != [] {
      var next := BlogNext(run, api, plan[0], now);
      BlogNextEffect(run, api, plan[0], now);
      var head := if BlogPostId(api, plan[0]).Some? then [Posted(plan[0].articleId, BlogPostId(api, plan[0]).value)] else [];
      var rest := BlogSuccesses(api, plan[1..]);
      assert BlogSuccesses(api, plan) == head + rest;
      BlogStatuses(next, api, plan[1..], now);
      var r := BlogFrom(next, api, plan[1..], now);
      forall k | 0 <= k < |run.tables.articles|
        ensures r.tables.articles[k] == if Among(head + rest, run.tables.articles[k].id)
                                        then run.tables.articles[k].(status := "published")
                                        else run.tables.articles[k]
      {
        var row := run.tables.articles[k];
        AmongConcat(head, rest, row.id);
        assert Among(head, row.id) <==> head != [] && plan[0].articleId == row.id by {
          if Among(head, row.id) {
            var j :| 0 <= j < |head| && head[j].articleId == row.id;
          }
          if head != [] && plan[0].articleId == row.id {
            assert head[0].articleId == row.id;
          }
        }
      }
    }
  }

  // ================================================================ publish_to_facebook

  /** The address shared with every Facebook post: `article.get('blog_url', config.WORDPRESS_URL)` never finds the key. */
  const FacebookLink: Option<string> := Some(Config.WordpressUrl)

  /** The feed post made for one selected article; its message has no description. */
  function FacebookRequest(row: PendingArticle): FeedRequest {
    NewFeedRequest(FormatPostMessage(ArticleFields(Some(row.title), None, row.content), FacebookLink), FacebookLink)
  }

  /** One selected article: its id and the feed post made for it. */
  datatype FacebookItem = FacebookItem(articleId: int, request: FeedRequest)

  /** The feed posts made for the selected articles, in order. */
  function FacebookPlan(rows: seq<PendingArticle>): seq<FacebookItem> {
    seq(|rows|, k requires 0 <= k < |rows| => FacebookItem(rows[k].id, FacebookRequest(rows[k])))
  }

  /** The loop of `publish_to_facebook`: a `'facebook'` publication for each truthy post id. */
  function FacebookFrom(t: Tables, net: SocialNetwork, plan: seq<FacebookItem>, now: int): Tables
    decreases |plan|
  {
    if plan == [] then
      t
    else
      var postId := net.feedPost(plan[0].request);
      var t' := if Truthy(postId) then AppendPublication(t, plan[0].articleId, "facebook", postId.value, now) else t;
      FacebookFrom(t', net, plan[1..], now)
  }

  /**
   * The Facebook stage changes no article and no search record; it adds at
   * most one publication per article, each a `'facebook'` one with a
   * non-empty post id.
   */
  lemma {:induction false} FacebookSpec(t: Tables, net: SocialNetwork, plan: seq<FacebookItem>, now: int)
    requires WellFormed(t)
    ensures var r := FacebookFrom(t, net, plan, now);
      && WellFormed(r)
      && r.articles == t.articles && r.searches == t.searches
      && |t.publications| <= |r.publications| <= |t.publications| + |plan|
      && r.publications[..|t.publications|] == t.publications
      && (forall k :: |t.publications| <= k < |r.publications| ==>
            r.publications[k].platform == "facebook" && r.publications[k].postId != "")
    decreases |plan|
  {
    if plan != [] {
      var postId := net.feedPost(plan[0].request);
      var t' := if Truthy(postId) then AppendPublication(t, plan[0].articleId, "facebook", postId.value, now) else t;
      FacebookSpec(t', net, plan[1..], now);
      var r := FacebookFrom(t', net, plan[1..], now);
      assert r == FacebookFrom(t, net, plan, now);
      assert r.publications[..|t.publications|] == r.publications[..|t'.publications|][..|t.publications|];
      forall k | |t.publications| <= k < |r.publications|
        ensures r.publications[k].platform == "facebook" && r.publications[k].postId != ""
      {
        if k < |t'.publications| {
          assert r.publications[k] == r.publications[..|t'.publications|][k];
        }
      }
    }
  }

  /** The articles of `plan` the network accepted, in order, with their post ids. */
  function FacebookPosts(net: SocialNetwork, plan: seq<FacebookItem>): seq<Posted>
    decreases |plan|
  {
    if plan == [] then []
    else
      var postId := net.feedPost(plan[0].request);
      var head := if Truthy(postId) then [Posted(plan[0].articleId, postId.value)] else [];
      head + FacebookPosts(net, plan[1..])
  }

  /**
   * The publications of the Facebook stage: the earlier ones followed by one
   * `'facebook'` publication per article whose feed post got a truthy id, in
   * order, naming the article and that id; a falsy id records nothing.
   */
  lemma {:induction false} FacebookOutcome(t: Tables, net: SocialNetwork, plan: seq<FacebookItem>, now: int)
    ensures PublishedInOrder(t, FacebookFrom(t, net, plan, now).publications, FacebookPosts(net, plan), "facebook", now)
    decreases |plan|
  {
    if plan == [] {
      assert t.publications[..|t.publications|] == t.publications;
    } else {
      var postId := net.feedPost(plan[0].request);
      var t' := if Truthy(postId) then AppendPublication(t, plan[0].articleId, "facebook", postId.value, now) else t;
      var head := if Truthy(postId) then [Posted(plan[0].articleId, postId.value)] else [];
      assert PublishedInOrder(t, t'.publications, head, "facebook", now) by {
        assert t'.publications[..|t.publications|] == t.publications;
      }
      assert t'.nextPublicationId == t.nextPublicationId + |head|;
      FacebookOutcome(t', net, plan[1..], now);
      PublishedInOrderTrans(t, t', FacebookFrom(t', net, plan[1..], now).publications, head, FacebookPosts(net, plan[1..]), "facebook", now);
    }
  }

  // ================================================================ the stages as run each day

  /**
   * A day's blog run: at most `MAX_ARTICLES_PER_DAY` posts are sent, the
   * count is at most the posts sent, and it equals the wordpress publications
   * recorded.
   */
  lemma BlogStageBounds(t: Tables, engine: SearchEngine, api: RestApi, now: int)
    requires WellFormed(t)
    ensures var rows := PendingViews(SelectPending(t, Config.MinArticleScore, Some(Config.MaxArticlesPerDay)));
      var r := BlogFrom(BlogRun(t, 0, []), api, BlogPlan(engine, rows), now);
      && r.published <= |r.requests| <= Config.MaxArticlesPerDay
      && |r.tables.publications| == |t.publications| + r.published
      && OnlyPublishedStatus(t.articles, r.tables.articles)
  {
    var rows := PendingViews(SelectPending(t, Config.MinArticleScore, Some(Config.MaxArticlesPerDay)));
    BlogSpec(BlogRun(t, 0, []), api, BlogPlan(engine, rows), now);
  }

  /** A day's Facebook run posts about at most one article and changes no article. */
  lemma FacebookStageBounds(t: Tables, net: SocialNetwork, now: int)
    requires WellFormed(t)
    ensures var plan := FacebookPlan(PendingViews(SelectPending(t, Config.MinArticleScore, Some(1))));
      var r := FacebookFrom(t, net, plan, now);
      && r.articles == t.articles
      && |t.publications| <= |r.publications| <= |t.publications| + 1
  {
    FacebookSpec(t, net, FacebookPlan(PendingViews(SelectPending(t, Config.MinArticleScore, Some(1)))), now);
  }

  // ================================================================ setup_schedule

  /** `f"{n:02d}"`: at least two characters, a leading zero for one-digit non-negative numbers. */
  function Pad2(n: int): (s: string)
    ensures |s| >= 2
    ensures 0 <= n < 100 ==> |s| == 2 && AllDigits(s) && DecimalValue(s) == n
    ensures n < 0 ==> s == IntToString(n)
  {
    if 0 <= n < 10 then
      var d := NatToString(n);
      assert d == [DigitChar(n)];
      var s := "0" + d;
      assert s[..1] == "0";
      s
    else
      var s := IntToString(n);
      assert n >= 10 ==> s == NatToString(n) && |s| != 1;
      s
  }

  /** `HH:MM` as the schedule library is given it. */
  function FormatTime(hour: int, minute: int): string {
    Pad2(hour) + ":" + Pad2(minute)
  }

  /** A time of day reads back as the hour and minute it was built from. */
  lemma TimeRoundTrip(hour: int, minute: int)
    requires 0 <= hour < 100 && 0 <= minute < 100
    ensures var s := FormatTime(hour, minute);
      && |s| == 5 && s[2] == ':'
      && AllDigits(s[..2]) && DecimalValue(s[..2]) == hour
      && AllDigits(s[3..]) && DecimalValue(s[3..]) == minute
  {
    var s := FormatTime(hour, minute);
    assert s[..2] == Pad2(hour);
    assert s[3..] == Pad2(minute);
  }

  /** Different times of day give different schedule strings. */
  lemma FormatTimeInjective(h1: int, m1: int, h2: int, m2: int)
    requires 0 <= h1 < 100 && 0 <= m1 < 100 && 0 <= h2 < 100 && 0 <= m2 < 100
    requires FormatTime(h1, m1) == FormatTime(h2, m2)
    ensures h1 == h2 && m1 == m2
  {
    TimeRoundTrip(h1, m1);
    TimeRoundTrip(h2, m2);
  }

  /** The four daily jobs. */
  datatype Job = SearchJob | BlogJob | FacebookJob | InstagramJob

  /** A single digit is padded with a leading zero. */
  lemma PadOneDigit(n: int)
    requires 0 <= n < 10
    ensures Pad2(n) == ['0', DigitChar(n)]
  {
  }

  /** Two digits are written as they are, tens first. */
  lemma PadTwoDigits(n: int)
    requires 10 <= n < 100
    ensures Pad2(n) == [DigitChar(n / 10), DigitChar(n % 10)]
  {
    assert NatToString(n / 10) == [DigitChar(n / 10)];
  }

  /** The four times of day of the default configuration. */
  lemma ScheduleTimes()
    ensures FormatTime(9, 0) == "09:00" && FormatTime(10, 0) == "10:00"
    ensures FormatTime(12, 0) == "12:00" && FormatTime(14, 0) == "14:00"
  {
    PadOneDigit(0);
    PadOneDigit(9);
    PadTwoDigits(10);
    PadTwoDigits(12);
    PadTwoDigits(14);
    assert DigitChar(0) == '0' && DigitChar(1) == '1' && DigitChar(2) == '2';
    assert DigitChar(4) == '4' && DigitChar(9) == '9';
  }

  /** `setup_schedule`: each job at its configured time, in registration order. */
  function Schedule(): (jobs: seq<(string, Job)>)
    ensures jobs == [("09:00", SearchJob), ("10:00", BlogJob), ("12:00", FacebookJob), ("14:00", InstagramJob)]
  {
    ScheduleTimes();
    [(FormatTime(Config.SearchHour, Config.SearchMinute), SearchJob),
     (FormatTime(Config.BlogPostHour, Config.BlogPostMinute), BlogJob),
     (FormatTime(Config.FacebookPostHour, Config.FacebookPostMinute), FacebookJob),
     (FormatTime(Config.InstagramPostHour, Config.InstagramPostMinute), InstagramJob)]
  }

  // ================================================================ the scheduler

  class ContentScheduler {
    const db: ArticleDatabase
    const engine: SearchEngine
    const wordpress: RestApi
    const social: SocialNetwork
    /** The search phrases, read from the configuration. */
    const keywords: seq<string>

    constructor (db: ArticleDatabase, engine: SearchEngine, wordpress: RestApi, social: SocialNetwork)
      ensures this.db == db && this.engine == engine && this.wordpress == wordpress && this.social == social
      ensures keywords == Config.Keywords
    {
      this.keywords := Config.Keywords;
      this.db := db;
      this.engine := engine;
      this.wordpress := wordpress;
      this.social := social;
    }

    /**
     * One search result inside the `try` block: its record is built and, when
     * that does not raise, inserted and counted when the insert gives a
     * positive id (`stored` is false when building the record raised).
     */
    method StoreOne(keyword: string, c: Candidate, now: int, found: nat)
      returns (totalFound: nat, stored: bool)
      requires db.Valid()
      modifies db
      ensures db.Valid()
      ensures var record := CandidateRecord(engine, keyword, c);
        && stored == record.Some?
        && (!stored ==> db.Snapshot() == old(db.Snapshot()) && totalFound == found)
        && (stored ==> var (t', id) := InsertArticle(old(db.Snapshot()), record.value, now);
              db.Snapshot() == t' && totalFound == if id > 0 then found + 1 else found)
    {
      totalFound := found;
      var record := CandidateRecord(engine, keyword, c);
      stored := record.Some?;
      if stored {
        var id := db.AddArticle(record.value, now);
        if id > 0 {
          totalFound := totalFound + 1;
        }
      }
    }

    /**
     * The `try` block for one keyword: each result stored in order, until one
     * whose record cannot be built ends it early (`completed` is then false).
     */
    method StoreResults(keyword: string, articles: seq<Candidate>, now: int, found: nat)
      returns (totalFound: nat, completed: bool)
      requires db.Valid()
      modifies db
      ensures db.Valid()
      ensures Progress(db.Snapshot(), totalFound, completed)
           == IngestFrom(old(db.Snapshot()), found, Records(engine, keyword, articles), now)
    {
      ghost var records := Records(engine, keyword, articles);
      totalFound, completed := found, true;
      var i := 0;
      assert records[i..] == records;
      while i < |articles| && completed
        invariant 0 <= i <= |articles|
        invariant db.Valid()
        invariant IngestFrom(old(db.Snapshot()), found, records, now)
               == if completed then IngestFrom(db.Snapshot(), totalFound, records[i..], now)
                  else Progress(db.Snapshot(), totalFound, false)
        decreases |articles| - i, completed
      {
        assert records[i..][0] == records[i] && records[i..][1..] == records[i + 1..];
        assert records[i] == CandidateRecord(engine, keyword, articles[i]);
        var stored;
        totalFound, stored := StoreOne(keyword, articles[i], now, totalFound);
        if stored {
          i := i + 1;
        } else {
          completed := false;
        }
      }
      assert completed ==> records[i..] == [];
    }

    /**
     * `search_and_collect_articles`: every keyword in order, every result of
     * its search in order; returns `total_found`, which is the number of rows
     * added.
     */
    method SearchAndCollectArticles(now: int) returns (totalFound: nat)
      requires db.Valid()
      modifies db
      ensures db.Valid()
      ensures (db.Snapshot(), totalFound) == CollectFrom(old(db.Snapshot()), 0, engine, keywords, now)
    {
      totalFound := 0;
      var ks := 0;
      while ks < |keywords|
        invariant 0 <= ks <= |keywords|
        invariant db.Valid()
        invariant CollectFrom(db.Snapshot(), totalFound, engine, keywords[ks..], now)
               == CollectFrom(old(db.Snapshot()), 0, engine, keywords, now)
      {
        var keyword := keywords[ks];
        ghost var before, foundBefore := db.Snapshot(), totalFound;
        var articles := SearchArticles(engine, keyword);
        var completed;
        totalFound, completed := StoreResults(keyword, articles, now, totalFound);
        if completed {
          db.AddSearchHistory(keyword, |articles|, now);
        }
        assert keywords[ks..][0] == keyword && keywords[ks..][1..] == keywords[ks + 1..];
        assert CollectFrom(before, foundBefore, engine, keywords[ks..], now)
            == CollectFrom(db.Snapshot(), totalFound, engine, keywords[ks + 1..], now);
        ks := ks + 1;
      }
      assert keywords[ks..] == [];
    }

    /**
     * The body of the `publish_to_blog` loop for one article: generate and
     * format its post, send it when `title` and `meta_description` exist,
     * and on a truthy post id mark the article published and record the
     * publication. `count` and `sent` are the count and the posts so far.
     */
    method PublishOne(article: PendingArticle, now: int, count: nat, sent: seq<PostData>)
      returns (publishedCount: nat, requests: seq<PostData>)
      requires db.Valid()
      modifies db
      ensures db.Valid()
      ensures BlogRun(db.Snapshot(), publishedCount, requests)
           == BlogNext(BlogRun(old(db.Snapshot()), count, sent), wordpress, BlogItem(article.id, BlogRequest(engine, article)), now)
    {
      publishedCount, requests := count, sent;
      var blogPost := GenerateBlogPost(engine, ArticleFields(Some(article.title), None, article.content));
      var contentHtml := FormatBlogPost(blogPost);
      if blogPost.title.Some? && blogPost.metaDescription.Some? {
        var postData := PostData(blogPost.title, Some(contentHtml), blogPost.metaDescription, Some("draft"), blogPost.tags, []);
        var postId := CreatePost(wordpress, postData);
        requests := requests + [postData];
        if Truthy(postId) {
          db.UpdateArticleStatus(article.id, "published");
          db.AddPublication(article.id, "wordpress", postId.value, now);
          publishedCount := publishedCount + 1;
        }
      }
    }

    /**
     * `publish_to_blog`: the best eligible articles, at most
     * `MAX_ARTICLES_PER_DAY` of them, are each sent to the blog once their post
     * is built. Returns `published_count` and the posts sent.
     */
    method PublishToBlog(now: int) returns (publishedCount: nat, requests: seq<PostData>)
      requires db.Valid()
      modifies db
      ensures db.Valid()
      ensures var rows := PendingViews(SelectPending(old(db.Snapshot()), Config.MinArticleScore, Some(Config.MaxArticlesPerDay)));
        BlogFrom(BlogRun(old(db.Snapshot()), 0, []), wordpress, BlogPlan(engine, rows), now) == BlogRun(db.Snapshot(), publishedCount, requests)
    {
      var articles := db.GetPendingArticles(Some(Config.MaxArticlesPerDay));
      ghost var plan := BlogPlan(engine, articles);
      ghost var start := db.Snapshot();
      if |articles| == 0 {
        return 0, [];
      }
      publishedCount, requests := 0, [];
      var i := 0;
      while i < |articles|
        invariant 0 <= i <= |articles|
        invariant db.Valid()
        invariant BlogFrom(BlogRun(start, 0, []), wordpress, plan, now)
               == BlogFrom(BlogRun(db.Snapshot(), publishedCount, requests), wordpress, plan[i..], now)
      {
        assert plan[i..][0] == plan[i] && plan[i..][1..] == plan[i + 1..];
        publishedCount, requests := PublishOne(articles[i], now, publishedCount, requests);
        i := i + 1;
      }
      assert plan[i..] == [];
    }

    /**
     * `publish_to_facebook`: the single best eligible article, if any, is
     * posted with the site address as its link; a truthy post id is recorded.
     */
    method PublishToFacebook(now: int)
      requires db.Valid()
      modifies db
      ensures db.Valid()
      ensures var rows := PendingViews(SelectPending(old(db.Snapshot()), Config.MinArticleScore, Some(1)));
        |rows| <= 1 && db.Snapshot() == FacebookFrom(old(db.Snapshot()), social, FacebookPlan(rows), now)
    {
      var articles := db.GetPendingArticles(Some(1));
      ghost var plan := FacebookPlan(articles);
      ghost var start := db.Snapshot();
      if |articles| == 0 {
        return;
      }
      var i := 0;
      while i < |articles|
        invariant 0 <= i <= |articles|
        invariant db.Valid()
        invariant FacebookFrom(start, social, plan, now) == FacebookFrom(db.Snapshot(), social, plan[i..], now)
      {
        assert plan[i..][0] == plan[i] && plan[i..][1..] == plan[i + 1..];
        var article := articles[i];
        var blogUrl := FacebookLink;
        var message := FormatPostMessage(ArticleFields(Some(article.title), None, article.content), blogUrl);
        var fbPostId := social.feedPost(NewFeedRequest(message, blogUrl));
        if Truthy(fbPostId) {
          db.AddPublication(article.id, "facebook", fbPostId.value, now);
        }
        i := i + 1;
      }
      assert plan[i..] == [];
    }

    /** `publish_to_instagram`: only logs that images are needed; the store is not touched. */
    method PublishToInstagram()
      ensures db.Snapshot() == old(db.Snapshot())
    {
    }
  }
}
