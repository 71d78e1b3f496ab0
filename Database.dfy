/**
 * The article store (database.py): three tables, `articles`, `publications`
 * and `search_history`, held in memory. The pure functions on `Tables` say
 * what each statement does to the tables; the class `ArticleDatabase` holds
 * the tables as fields and its methods update them as the statements do.
 * `CURRENT_TIMESTAMP` is a parameter `now` of the operations that write it.
 */
module Database {
  import opened Common
  import opened Query
  import opened Payloads
  import Config

  /** A row of `articles`. The title is `NOT NULL`; the url may be `NULL`. */
  datatype Article = Article(
    id: int,
    title: string,
    url: Option<string>,
    content: Option<string>,
    source: Option<string>,
    keywords: seq<string>,
    aiScore: real,
    relevanceScore: real,
    foundDate: int,
    status: string,
    analysis: Analysis)

  /** A row of `publications`. */
  datatype Publication = Publication(
    id: int,
    articleId: int,
    platform: string,
    postId: string,
    publishedDate: int,
    status: string)

  /** A row of `search_history`. */
  datatype SearchRecord = SearchRecord(id: int, keyword: string, searchDate: int, resultsCount: int)

  /** The dictionary handed to `add_article`; an absent key is `None`. */
  datatype NewArticle = NewArticle(
    title: Option<string>,
    url: Option<string>,
    content: Option<string>,
    source: Option<string>,
    keywords: seq<string>,
    aiScore: real,
    relevanceScore: real,
    analysis: Analysis)

  /** The three tables and the next id each `AUTOINCREMENT` key will hand out. */
  datatype Tables = Tables(
    articles: seq<Article>,
    publications: seq<Publication>,
    searches: seq<SearchRecord>,
    nextArticleId: nat,
    nextPublicationId: nat,
    nextSearchId: nat)

  /** A freshly created database file. */
  const EmptyTables: Tables := Tables([], [], [], 1, 1, 1)

  // ---------------------------------------------------------------- invariants

  /** `url TEXT UNIQUE`: no two rows share a url; any number of rows may have none. */
  ghost predicate UniqueUrls(articles: seq<Article>) {
    forall i, j :: 0 <= i < j < |articles| && articles[i].url.Some? ==> articles[i].url != articles[j].url
  }

  /** Ids are positive, strictly increasing in table order, and below the next id to hand out. */
  ghost predicate AscendingIds(articles: seq<Article>, next: int) {
    && (forall i :: 0 <= i < |articles| ==> 1 <= articles[i].id < next)
    && (forall i, j :: 0 <= i < j < |articles| ==> articles[i].id < articles[j].id)
  }

  ghost predicate WellFormed(t: Tables) {
    && t.nextArticleId >= 1 && t.nextPublicationId >= 1 && t.nextSearchId >= 1
    && UniqueUrls(t.articles)
    && AscendingIds(t.articles, t.nextArticleId)
  }

  lemma EmptyIsWellFormed()
    ensures WellFormed(EmptyTables)
  {
  }

  // ---------------------------------------------------------------- add_article

  /** Some row already holds `url`; a missing url collides with nothing. */
  predicate UrlTaken(articles: seq<Article>, url: Option<string>) {
    url.Some? && exists i :: 0 <= i < |articles| && articles[i].url == url
  }

  /** The row `add_article` inserts: the given columns, `found_date` now and status `'pending'`. */
  function NewRow(id: int, a: NewArticle, now: int): (row: Article)
    requires a.title.Some?
    ensures row.id == id && row.status == "pending" && row.foundDate == now
    ensures row.title == a.title.value && row.url == a.url && row.aiScore == a.aiScore
  {
    Article(id, a.title.value, a.url, a.content, a.source, a.keywords,
            a.aiScore, a.relevanceScore, now, "pending", a.analysis)
  }

  /**
   * `add_article`: a row is inserted and its id returned, unless the title is
   * missing or the url is taken; that `IntegrityError` is answered with `-1`
   * and the tables stay as they were.
   */
  function InsertArticle(t: Tables, a: NewArticle, now: int): (r: (Tables, int))
    ensures r.0.publications == t.publications && r.0.searches == t.searches
    ensures r.1 == -1 ==> r.0 == t
    ensures a.title.None? || UrlTaken(t.articles, a.url) ==> r == (t, -1)
    ensures a.title.Some? && !UrlTaken(t.articles, a.url) ==>
      r.1 == t.nextArticleId && r.0.articles == t.articles + [NewRow(r.1, a, now)]
  {
    if a.title.None? || UrlTaken(t.articles, a.url) then
      (t, -1)
    else
      var id: int := t.nextArticleId;
      (t.(articles := t.articles + [NewRow(id, a, now)], nextArticleId := id + 1), id)
  }

  /**
   * On a well-formed store, an insert either fails with `-1` and changes
   * nothing, or appends exactly one `'pending'` row whose id is positive and
   * used by no existing row; either way the store stays well-formed.
   */
  lemma InsertArticleSpec(t: Tables, a: NewArticle, now: int)
    requires WellFormed(t)
    ensures var (t', id) := InsertArticle(t, a, now);
      && WellFormed(t')
      && (id == -1 <==> a.title.None? || UrlTaken(t.articles, a.url))
      && (id == -1 ==> t' == t)
      && (id != -1 ==>
            && id >= 1
            && (forall i :: 0 <= i < |t.articles| ==> t.articles[i].id != id)
            && |t'.articles| == |t.articles| + 1
            && t'.articles[..|t.articles|] == t.articles
            && t'.articles[|t.articles|].id == id
            && t'.articles[|t.articles|].status == "pending")
  {
    var (t', id) := InsertArticle(t, a, now);
    if id != -1 {
      var row := NewRow(id, a, now);
      assert t'.articles == t.articles + [row];
      forall i, j | 0 <= i < j < |t'.articles| && t'.articles[i].url.Some?
        ensures t'.articles[i].url != t'.articles[j].url
      {
        if j == |t.articles| {
          assert t'.articles[i] == t.articles[i];
        }
      }
      assert t'.articles[..|t.articles|] == t.articles;
    }
  }

  // ---------------------------------------------------------------- update_article_status

  /** `UPDATE articles SET status = ? WHERE id = ?` */
  function SetStatus(t: Tables, id: int, status: string): (r: Tables)
    ensures |r.articles| == |t.articles|
    ensures forall k :: 0 <= k < |t.articles| ==>
      r.articles[k] == if t.articles[k].id == id then t.articles[k].(status := status) else t.articles[k]
    ensures r.publications == t.publications && r.searches == t.searches
    ensures r.nextArticleId == t.nextArticleId
    ensures r.nextPublicationId == t.nextPublicationId && r.nextSearchId == t.nextSearchId
  {
    var rows := seq(|t.articles|, k requires 0 <= k < |t.articles| =>
      if t.articles[k].id == id then t.articles[k].(status := status) else t.articles[k]);
    t.(articles := rows)
  }

  /**
   * A status update keeps the store well-formed, changes nothing when no row
   * has the id, and leaves every other column of the matching row alone.
   */
  lemma SetStatusSpec(t: Tables, id: int, status: string)
    requires WellFormed(t)
    ensures WellFormed(SetStatus(t, id, status))
    ensures (forall k :: 0 <= k < |t.articles| ==> t.articles[k].id != id) ==> SetStatus(t, id, status) == t
    ensures forall k :: 0 <= k < |t.articles| ==>
      SetStatus(t, id, status).articles[k].(status := t.articles[k].status) == t.articles[k]
  {
    var r := SetStatus(t, id, status);
    assert forall k :: 0 <= k < |t.articles| ==> r.articles[k].url == t.articles[k].url && r.articles[k].id == t.articles[k].id;
    if forall k :: 0 <= k < |t.articles| ==> t.articles[k].id != id {
      assert r.articles == t.articles;
    }
  }

  // ---------------------------------------------------------------- add_publication, add_search_history

  /** `add_publication`: one more publication row; the articles are not touched. */
  function AppendPublication(t: Tables, articleId: int, platform: string, postId: string, now: int, status: string := "success"): (r: Tables)
    ensures r.articles == t.articles && r.searches == t.searches && r.nextArticleId == t.nextArticleId
    ensures r.publications == t.publications + [Publication(t.nextPublicationId, articleId, platform, postId, now, status)]
    ensures WellFormed(t) ==> WellFormed(r)
  {
    t.(publications := t.publications + [Publication(t.nextPublicationId, articleId, platform, postId, now, status)],
       nextPublicationId := t.nextPublicationId + 1)
  }

  /** `add_search_history`: one more search record; the articles are not touched. */
  function AppendSearch(t: Tables, keyword: string, resultsCount: int, now: int): (r: Tables)
    ensures r.articles == t.articles && r.publications == t.publications && r.nextArticleId == t.nextArticleId
    ensures r.searches == t.searches + [SearchRecord(t.nextSearchId, keyword, now, resultsCount)]
    ensures WellFormed(t) ==> WellFormed(r)
  {
    t.(searches := t.searches + [SearchRecord(t.nextSearchId, keyword, now, resultsCount)],
       nextSearchId := t.nextSearchId + 1)
  }

  // ---------------------------------------------------------------- get_pending_articles

  /** `WHERE status = 'pending' AND ai_score >= ?` */
  predicate Eligible(row: Article, minScore: real) {
    row.status == "pending" && row.aiScore >= minScore
  }

  /** The rows the `WHERE` clause keeps, in table order. */
  function EligibleRows(t: Tables, minScore: real): seq<Article> {
    Filter(t.articles, row => Eligible(row, minScore))
  }

  /** `ORDER BY ai_score DESC, relevance_score DESC` */
  function EligibilityKey(row: Article): Key {
    Key(row.aiScore, row.relevanceScore)
  }

  /**
   * The rows `get_pending_articles` returns: the eligible rows, best first,
   * cut to `limit` when it is truthy. Every row returned is an eligible row of
   * the table; with a positive limit there are at most that many and they
   * begin the unlimited answer; without a truthy limit every eligible row is
   * returned, each as often as it occurs in the table.
   */
  function SelectPending(t: Tables, minScore: real, limit: Option<int>): (r: seq<Article>)
    ensures forall k :: 0 <= k < |r| ==> r[k] in t.articles && Eligible(r[k], minScore)
    ensures SortedDesc(r, EligibilityKey)
    ensures limit.Some? && limit.value > 0 ==> |r| <= limit.value
    ensures limit.None? || limit.value <= 0 ==>
      multiset(r) == multiset(EligibleRows(t, minScore))
    ensures limit.None? || limit.value <= 0 ==>
      forall k :: 0 <= k < |t.articles| && Eligible(t.articles[k], minScore) ==> t.articles[k] in r
  {
    var eligible := EligibleRows(t, minScore);
    SortDescMembers(eligible, EligibilityKey);
    OptionalLimit(SortDesc(eligible, EligibilityKey), limit)
  }

  /**
   * A truthy limit only cuts the unlimited answer short: the rows kept are its
   * first ones, as many as the limit allows or every eligible row when there
   * are fewer.
   */
  lemma SelectPendingPrefix(t: Tables, minScore: real, limit: Option<int>)
    ensures SelectPending(t, minScore, limit) <= SelectPending(t, minScore, None)
    ensures |SelectPending(t, minScore, None)| == |EligibleRows(t, minScore)|
    ensures limit.Some? && limit.value > 0 ==>
      |SelectPending(t, minScore, limit)|
        == if limit.value < |EligibleRows(t, minScore)| then limit.value else |EligibleRows(t, minScore)|
  {
  }

  /** A row that is not `'pending'` (approved, rejected, published) is never selected. */
  lemma OnlyPendingSelected(t: Tables, minScore: real, limit: Option<int>, row: Article)
    requires row.status != "pending"
    ensures row !in SelectPending(t, minScore, limit)
  {
  }

  /**
   * Once an article's status is set to anything but `'pending'` (published,
   * approved, rejected), no row with its id is selected any more.
   */
  lemma StatusChangeLeavesQueue(t: Tables, id: int, status: string, minScore: real, limit: Option<int>)
    requires status != "pending"
    ensures var r := SelectPending(SetStatus(t, id, status), minScore, limit);
      forall k :: 0 <= k < |r| ==> r[k].id != id
  {
    var t' := SetStatus(t, id, status);
    var r := SelectPending(t', minScore, limit);
    forall k | 0 <= k < |r|
      ensures r[k].id != id
    {
      var j :| 0 <= j < |t'.articles| && t'.articles[j] == r[k];
    }
  }

  /** `get_pending_articles` returns these keys of each row. */
  datatype PendingArticle = PendingArticle(
    id: int,
    title: string,
    url: Option<string>,
    content: Option<string>,
    source: Option<string>,
    keywords: seq<string>,
    aiScore: real,
    relevanceScore: real,
    analysis: Analysis)

  function PendingView(row: Article): PendingArticle {
    PendingArticle(row.id, row.title, row.url, row.content, row.source, row.keywords,
                   row.aiScore, row.relevanceScore, row.analysis)
  }

  function PendingViews(rows: seq<Article>): (r: seq<PendingArticle>)
    ensures |r| == |rows|
    ensures forall k :: 0 <= k < |rows| ==> r[k] == PendingView(rows[k])
  {
    seq(|rows|, k requires 0 <= k < |rows| => PendingView(rows[k]))
  }

  // ---------------------------------------------------------------- get_article_by_url

  /** `get_article_by_url` returns these keys of the row. */
  datatype ArticleSummary = ArticleSummary(
    id: int,
    title: string,
    url: Option<string>,
    content: Option<string>,
    source: Option<string>,
    keywords: seq<string>,
    aiScore: real,
    relevanceScore: real)

  /** `SELECT * FROM articles WHERE url = ?` then `fetchone()`: the first row with that url. */
  function FindByUrl(articles: seq<Article>, url: string): (r: Option<Article>)
    ensures r.Some? <==> UrlTaken(articles, Some(url))
    ensures r.Some? ==> r.value in articles && r.value.url == Some(url)
  {
    if articles == [] then
      None
    else if articles[0].url == Some(url) then
      Some(articles[0])
    else
      var r := FindByUrl(articles[1..], url);
      assert forall i :: 1 <= i < |articles| ==> articles[i] == articles[1..][i - 1];
      assert articles[0].url != Some(url);
      r
  }

  /** Under the `UNIQUE` constraint the row found is the only one with that url. */
  lemma {:induction false} FindByUrlUnique(articles: seq<Article>, url: string)
    requires UniqueUrls(articles)
    ensures FindByUrl(articles, url).Some? ==>
      forall k :: 0 <= k < |articles| && articles[k].url == Some(url) ==> articles[k] == FindByUrl(articles, url).value
  {
    if articles != [] && articles[0].url != Some(url) {
      var tail := articles[1..];
      assert forall i, j :: 0 <= i < j < |tail| ==> tail[i] == articles[i + 1] && tail[j] == articles[j + 1];
      FindByUrlUnique(tail, url);
      assert forall k :: 1 <= k < |articles| ==> articles[k] == tail[k - 1];
    }
  }

  function Summary(row: Article): ArticleSummary {
    ArticleSummary(row.id, row.title, row.url, row.content, row.source, row.keywords,
                   row.aiScore, row.relevanceScore)
  }

  // ---------------------------------------------------------------- the store

  class ArticleDatabase {
    var articles: seq<Article>
    var publications: seq<Publication>
    var searches: seq<SearchRecord>
    var nextArticleId: nat
    var nextPublicationId: nat
    var nextSearchId: nat

    /** The tables as they stand. */
    function Snapshot(): Tables
      reads this
    {
      Tables(articles, publications, searches, nextArticleId, nextPublicationId, nextSearchId)
    }

    ghost predicate Valid()
      reads this
    {
      WellFormed(Snapshot())
    }

    /** `ArticleDatabase()` on a new file: `_init_database` creates three empty tables. */
    constructor ()
      ensures Valid() && Snapshot() == EmptyTables
    {
      articles, publications, searches := [], [], [];
      nextArticleId, nextPublicationId, nextSearchId := 1, 1, 1;
    }

    /** `add_article` */
    method AddArticle(a: NewArticle, now: int) returns (id: int)
      requires Valid()
      modifies this
      ensures Valid()
      ensures (Snapshot(), id) == InsertArticle(old(Snapshot()), a, now)
    {
      InsertArticleSpec(Snapshot(), a, now);
      if a.title.None? || UrlTaken(articles, a.url) {
        return -1;
      }
      id := nextArticleId;
      articles := articles + [NewRow(id, a, now)];
      nextArticleId := nextArticleId + 1;
    }

    /**
     * `get_pending_articles`: the selected rows, in order, each turned into
     * the dictionary the caller receives.
     */
    method GetPendingArticles(limit: Option<int>) returns (result: seq<PendingArticle>)
      ensures result == PendingViews(SelectPending(Snapshot(), Config.MinArticleScore, limit))
    {
      var rows := SelectPending(Snapshot(), Config.MinArticleScore, limit);
      result := [];
      var i := 0;
      while i < |rows|
        invariant 0 <= i <= |rows|
        invariant result == PendingViews(rows[..i])
      {
        result := result + [PendingView(rows[i])];
        i := i + 1;
      }
      assert rows[..i] == rows;
    }

    /** `update_article_status`: an unconditional overwrite of one row's status. */
    method UpdateArticleStatus(id: int, status: string)
      requires Valid()
      modifies this
      ensures Valid()
      ensures Snapshot() == SetStatus(old(Snapshot()), id, status)
    {
      SetStatusSpec(Snapshot(), id, status);
      articles := SetStatus(Snapshot(), id, status).articles;
    }

    /** `add_publication`, whose status defaults to `'success'`. */
    method AddPublication(articleId: int, platform: string, postId: string, now: int, status: string := "success")
      requires Valid()
      modifies this
      ensures Valid()
      ensures Snapshot() == AppendPublication(old(Snapshot()), articleId, platform, postId, now, status)
    {
      publications := publications + [Publication(nextPublicationId, articleId, platform, postId, now, status)];
      nextPublicationId := nextPublicationId + 1;
    }

    /** `add_search_history` */
    method AddSearchHistory(keyword: string, resultsCount: int, now: int)
      requires Valid()
      modifies this
      ensures Valid()
      ensures Snapshot() == AppendSearch(old(Snapshot()), keyword, resultsCount, now)
    {
      searches := searches + [SearchRecord(nextSearchId, keyword, now, resultsCount)];
      nextSearchId := nextSearchId + 1;
    }

    /** `get_article_by_url`: the row with that url, if any, without its status, date and analysis. */
    function GetArticleByUrl(url: string): (r: Option<ArticleSummary>)
      reads this
      ensures r.Some? <==> UrlTaken(articles, Some(url))
      ensures r.Some? ==> exists k :: 0 <= k < |articles| && articles[k].url == Some(url) && r.value == Summary(articles[k])
    {
      match FindByUrl(articles, url)
      case None => None
      case Some(row) => Some(Summary(row))
    }
  }
}
