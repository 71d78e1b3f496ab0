/**
 * The dashboard back end (api_server.py): the counts of `get_stats`, the
 * article listing of `get_articles`, the activity log of `get_logs`,
 * approve/reject, and the `.env` rewrite of `update_settings`. The queries
 * run against the store's tables; the `.env` file is its list of lines, or
 * `None` when it does not exist.
 */
module ApiServer {
  import opened Common
  import opened Strings
  import opened Query
  import opened Database

  /** The body of a successful action. */
  datatype ActionResponse = ActionResponse(success: bool, message: string)

  // ---------------------------------------------------------------- get_stats

  /** `SELECT COUNT(*) FROM articles WHERE status = ?` */
  function CountStatus(rows: seq<Article>, status: string): (n: nat)
    ensures n <= |rows|
  {
    if rows == [] then 0
    else (if rows[0].status == status then 1 else 0) + CountStatus(rows[1..], status)
  }

  /** The count is the number of rows the `WHERE` clause keeps. */
  lemma {:induction false} CountStatusIsFilter(rows: seq<Article>, status: string)
    ensures CountStatus(rows, status) == |Filter(rows, (row: Article) => row.status == status)|
  {
    if rows != [] {
      CountStatusIsFilter(rows[1..], status);
      assert rows == [rows[0]] + rows[1..];
    }
  }

  /** Rows of two different statuses are counted apart: together they are never more than all rows. */
  lemma {:induction false} CountTwoStatuses(rows: seq<Article>, a: string, b: string)
    requires a != b
    ensures CountStatus(rows, a) + CountStatus(rows, b) <= |rows|
  {
    if rows != [] {
      CountTwoStatuses(rows[1..], a, b);
    }
  }

  /** The counts `get_stats` reports; `avg_score` is not part of this model. */
  datatype Stats = Stats(totalArticles: nat, pendingArticles: nat, publishedArticles: nat)

  function GetStats(t: Tables): (s: Stats)
    ensures s.totalArticles == |t.articles|
    ensures s.pendingArticles + s.publishedArticles <= s.totalArticles
    ensures s.pendingArticles == |Filter(t.articles, (row: Article) => row.status == "pending")|
    ensures s.publishedArticles == |Filter(t.articles, (row: Article) => row.status == "published")|
  {
    CountTwoStatuses(t.articles, "pending", "published");
    CountStatusIsFilter(t.articles, "pending");
    CountStatusIsFilter(t.articles, "published");
    Stats(|t.articles|, CountStatus(t.articles, "pending"), CountStatus(t.articles, "published"))
  }

  // ---------------------------------------------------------------- get_articles

  /** `if status and status != 'all': WHERE status = ?` */
  predicate Listed(status: Option<string>, row: Article) {
    !Truthy(status) || status.value == "all" || row.status == status.value
  }

  /** The rows the `WHERE` clause keeps, in table order. */
  function ListedRows(t: Tables, status: Option<string>): seq<Article> {
    Filter(t.articles, row => Listed(status, row))
  }

  /** `ORDER BY ai_score DESC, found_date DESC` */
  function ListingKey(row: Article): Key {
    Key(row.aiScore, row.foundDate as real)
  }

  /**
   * The rows `get_articles` returns: those of the requested status (all of
   * them for no status or `'all'`), best score first and then newest first,
   * cut to `limit` when it is truthy.
   */
  function ListArticles(t: Tables, status: Option<string>, limit: Option<int>): (r: seq<Article>)
    ensures forall k :: 0 <= k < |r| ==> r[k] in t.articles && Listed(status, r[k])
    ensures Truthy(status) && status.value != "all" ==> forall k :: 0 <= k < |r| ==> r[k].status == status.value
    ensures SortedDesc(r, ListingKey)
    ensures limit.Some? && limit.value > 0 ==> |r| <= limit.value
    ensures limit.None? || limit.value <= 0 ==>
      multiset(r) == multiset(ListedRows(t, status))
  {
    var kept := ListedRows(t, status);
    SortDescMembers(kept, ListingKey);
    OptionalLimit(SortDesc(kept, ListingKey), limit)
  }

  /**
   * A truthy limit only cuts the unlimited listing short: the rows kept are
   * its first ones, as many as the limit allows or every listed row when
   * there are fewer.
   */
  lemma ListArticlesPrefix(t: Tables, status: Option<string>, limit: Option<int>)
    ensures ListArticles(t, status, limit) <= ListArticles(t, status, None)
    ensures |ListArticles(t, status, None)| == |ListedRows(t, status)|
    ensures limit.Some? && limit.value > 0 ==>
      |ListArticles(t, status, limit)|
        == if limit.value < |ListedRows(t, status)| then limit.value else |ListedRows(t, status)|
  {
  }

  /** No status, an empty status and `'all'` all list every row. */
  lemma {:induction false} AllStatusesListed(t: Tables, limit: Option<int>)
    ensures ListArticles(t, None, limit) == ListArticles(t, Some("all"), limit) == ListArticles(t, Some(""), limit)
    ensures ListArticles(t, None, None) == SortDesc(t.articles, ListingKey)
  {
    FilterAll(t.articles, row => Listed(None, row));
    FilterAll(t.articles, row => Listed(Some("all"), row));
    FilterAll(t.articles, row => Listed(Some(""), row));
  }

  /** A filter that keeps every row returns the table. */
  lemma {:induction false} FilterAll(s: seq<Article>, p: Article -> bool)
    requires forall row :: p(row)
    ensures Filter(s, p) == s
  {
    if s != [] {
      FilterAll(s[1..], p);
      assert s == [s[0]] + s[1..];
    }
  }

  /** The keys of each listed row, in the order the dashboard reads them. */
  datatype ArticleListing = ArticleListing(
    id: int,
    title: string,
    url: Option<string>,
    content: Option<string>,
    source: Option<string>,
    keywords: seq<string>,
    aiScore: real,
    relevanceScore: real,
    foundDate: int,
    status: string)

  function Listing(row: Article): ArticleListing {
    ArticleListing(row.id, row.title, row.url, row.content, row.source, row.keywords,
                   row.aiScore, row.relevanceScore, row.foundDate, row.status)
  }

  /**
   * `get_articles`: the listed rows, in order, each turned into its
   * dictionary.
   */
  method GetArticles(db: ArticleDatabase, status: Option<string>, limit: Option<int>) returns (articles: seq<ArticleListing>)
    ensures var rows := ListArticles(db.Snapshot(), status, limit);
      |articles| == |rows| && forall k :: 0 <= k < |rows| ==> articles[k] == Listing(rows[k])
  {
    var rows := ListArticles(db.Snapshot(), status, limit);
    articles := Listings(rows);
  }

  /** The loop of `get_articles` that turns each fetched row into its dictionary. */
  method Listings(rows: seq<Article>) returns (articles: seq<ArticleListing>)
    ensures |articles| == |rows| && forall k :: 0 <= k < |rows| ==> articles[k] == Listing(rows[k])
  {
    articles := [];
    var i := 0;
    while i < |rows|
      invariant 0 <= i <= |rows|
      invariant |articles| == i
      invariant forall k :: 0 <= k < i ==> articles[k] == Listing(rows[k])
    {
      articles := articles + [Listing(rows[i])];
      i := i + 1;
    }
  }

  // ---------------------------------------------------------------- get_logs

  /** `"success" if row[4] == "success" else "error"` */
  function LogStatus(stored: string): (r: string)
    ensures r == "success" <==> stored == "success"
    ensures r == "success" || r == "error"
  {
    if stored == "success" then "success" else "error"
  }

  /** One entry of the activity log. */
  datatype LogEntry = LogEntry(id: int, action: string, message: string, timestamp: int, status: string)

  const LogPrefix: string := "Опубликовано в "

  function LogEntryOf(p: Publication): (e: LogEntry)
    ensures e.id == p.id && e.action == p.platform && e.timestamp == p.publishedDate
    ensures e.message == LogPrefix + p.platform + ": " + p.postId
    ensures e.status == LogStatus(p.status)
  {
    LogEntry(p.id, p.platform, LogPrefix + p.platform + ": " + p.postId, p.publishedDate, LogStatus(p.status))
  }

  /** `ORDER BY published_date DESC` */
  function PublicationKey(p: Publication): Key {
    Key(p.publishedDate as real, 0.0)
  }

  /**
   * The publications `get_logs` reads: newest first, at most `limit` of them
   * (`LIMIT ?` is bound, so `0` gives none and a negative limit no bound).
   */
  function RecentPublications(t: Tables, limit: int): (r: seq<Publication>)
    ensures limit >= 0 ==> |r| <= limit
    ensures limit >= 0 ==> |r| == if limit < |t.publications| then limit else |t.publications|
    ensures limit < 0 || |t.publications| <= limit ==> multiset(r) == multiset(t.publications)
    ensures forall i, j :: 0 <= i < j < |r| ==> r[i].publishedDate >= r[j].publishedDate
    ensures forall k :: 0 <= k < |r| ==> r[k] in t.publications
  {
    var sorted := SortDesc(t.publications, PublicationKey);
    SortDescMembers(t.publications, PublicationKey);
    var r := LimitRows(sorted, limit);
    NewestFirstPrefix(sorted, r);
    r
  }

  /** A prefix of the publications sorted by date is newest first and holds only sorted ones. */
  lemma NewestFirstPrefix(sorted: seq<Publication>, r: seq<Publication>)
    requires SortedDesc(sorted, PublicationKey) && r <= sorted
    ensures forall i, j :: 0 <= i < j < |r| ==> r[i].publishedDate >= r[j].publishedDate
    ensures forall k :: 0 <= k < |r| ==> r[k] in sorted
  {
    assert forall i, j :: 0 <= i < j < |r| ==> AtLeast(PublicationKey(r[i]), PublicationKey(r[j])) by {
      assert forall k :: 0 <= k < |r| ==> r[k] == sorted[k];
    }
  }

  /** No publication left out of the log is newer than one kept in it. */
  lemma RecentAreNewest(t: Tables, limit: int, p: Publication)
    requires p in t.publications && p !in RecentPublications(t, limit)
    ensures forall k :: 0 <= k < |RecentPublications(t, limit)| ==>
      RecentPublications(t, limit)[k].publishedDate >= p.publishedDate
  {
    var sorted := SortDesc(t.publications, PublicationKey);
    var r := RecentPublications(t, limit);
    assert r == LimitRows(sorted, limit);
    assert p in multiset(sorted);
    var i :| 0 <= i < |sorted| && sorted[i] == p;
    assert i >= |r|;
    forall k | 0 <= k < |r|
      ensures r[k].publishedDate >= p.publishedDate
    {
      assert r[k] == sorted[k];
      assert AtLeast(PublicationKey(sorted[k]), PublicationKey(sorted[i]));
    }
  }

  /** `get_logs`: the recent publications, each turned into a log entry. */
  method GetLogs(db: ArticleDatabase, limit: int) returns (logs: seq<LogEntry>)
    ensures var rows := RecentPublications(db.Snapshot(), limit);
      |logs| == |rows| && forall k :: 0 <= k < |rows| ==> logs[k] == LogEntryOf(rows[k])
  {
    var rows := RecentPublications(db.Snapshot(), limit);
    logs := [];
    var i := 0;
    while i < |rows|
      invariant 0 <= i <= |rows|
      invariant |logs| == i
      invariant forall k :: 0 <= k < i ==> logs[k] == LogEntryOf(rows[k])
    {
      logs := logs + [LogEntryOf(rows[i])];
      i := i + 1;
    }
  }

  /** Every log entry is `'success'` or `'error'`, and newer entries come first. */
  lemma LogsWellOrdered(t: Tables, limit: int)
    ensures var logs := seq(|RecentPublications(t, limit)|, k requires 0 <= k < |RecentPublications(t, limit)| =>
                              LogEntryOf(RecentPublications(t, limit)[k]));
      && (forall k :: 0 <= k < |logs| ==> logs[k].status in {"success", "error"})
      && (forall i, j :: 0 <= i < j < |logs| ==> logs[i].timestamp >= logs[j].timestamp)
      && (limit >= 0 ==> |logs| <= limit)
  {
  }

  // ---------------------------------------------------------------- approve / reject

  /** `approve_article`: an unconditional overwrite of the status with `'approved'`. */
  method ApproveArticle(db: ArticleDatabase, articleId: int) returns (response: ActionResponse)
    requires db.Valid()
    modifies db
    ensures db.Valid()
    ensures db.Snapshot() == SetStatus(old(db.Snapshot()), articleId, "approved")
    ensures response == ActionResponse(true, "Статья одобрена для публикации")
  {
    db.UpdateArticleStatus(articleId, "approved");
    response := ActionResponse(true, "Статья одобрена для публикации");
  }

  /** `reject_article`: an unconditional overwrite of the status with `'rejected'`. */
  method RejectArticle(db: ArticleDatabase, articleId: int) returns (response: ActionResponse)
    requires db.Valid()
    modifies db
    ensures db.Valid()
    ensures db.Snapshot() == SetStatus(old(db.Snapshot()), articleId, "rejected")
    ensures response == ActionResponse(true, "Статья отклонена")
  {
    db.UpdateArticleStatus(articleId, "rejected");
    response := ActionResponse(true, "Статья отклонена");
  }

  /**
   * An approved article is never published by the scheduler: the
   * eligibility query asks for `'pending'` rows only.
   */
  lemma ApprovedNeverSelected(t: Tables, articleId: int, minScore: real, limit: Option<int>)
    ensures var r := SelectPending(SetStatus(t, articleId, "approved"), minScore, limit);
      forall k :: 0 <= k < |r| ==> r[k].id != articleId
  {
    StatusChangeLeavesQueue(t, articleId, "approved", minScore, limit);
  }

  // ---------------------------------------------------------------- update_settings

  /**
   * The settings form. `min_article_score` is carried as the text `str()`
   * gives for it: float formatting is not part of this model.
   */
  datatype Settings = Settings(
    searchHour: int,
    searchMinute: int,
    blogPostHour: int,
    blogPostMinute: int,
    facebookPostHour: int,
    facebookPostMinute: int,
    instagramPostHour: int,
    instagramPostMinute: int,
    maxArticlesPerDay: int,
    minArticleScore: string)

  /** The ten `.env` keys, in the order of `settings_map`. */
  const SettingKeys: seq<string> := [
    "SEARCH_HOUR", "SEARCH_MINUTE", "BLOG_POST_HOUR", "BLOG_POST_MINUTE",
    "FACEBOOK_POST_HOUR", "FACEBOOK_POST_MINUTE", "INSTAGRAM_POST_HOUR", "INSTAGRAM_POST_MINUTE",
    "MAX_ARTICLES_PER_DAY", "MIN_ARTICLE_SCORE"
  ]

  /** `settings_map`, as its items in iteration order. */
  function SettingsMap(s: Settings): (entries: seq<(string, string)>)
    ensures |entries| == |SettingKeys|
    ensures forall k :: 0 <= k < |entries| ==> entries[k].0 == SettingKeys[k]
  {
    var values := [
      IntToString(s.searchHour), IntToString(s.searchMinute),
      IntToString(s.blogPostHour), IntToString(s.blogPostMinute),
      IntToString(s.facebookPostHour), IntToString(s.facebookPostMinute),
      IntToString(s.instagramPostHour), IntToString(s.instagramPostMinute),
      IntToString(s.maxArticlesPerDay), s.minArticleScore];
    seq(|SettingKeys|, k requires 0 <= k < |SettingKeys| => (SettingKeys[k], values[k]))
  }

  /** `f"{key}="`, the prefix a line must have for `key` to replace it. */
  function Assignment(key: string): string {
    key + "="
  }

  /** The line written for `key`: `f"{key}={value}\n"`. */
  function SettingLine(entry: (string, string)): string {
    Assignment(entry.0) + entry.1 + "\n"
  }

  /** Some entry's key assigns on this line. */
  predicate Matches(line: string, entries: seq<(string, string)>) {
    exists k :: 0 <= k < |entries| && StartsWith(line, Assignment(entries[k].0))
  }

  /** Entry `k` is the first whose key assigns on this line. */
  predicate FirstMatch(line: string, entries: seq<(string, string)>, k: int) {
    && 0 <= k < |entries|
    && StartsWith(line, Assignment(entries[k].0))
    && forall j :: 0 <= j < k ==> !StartsWith(line, Assignment(entries[j].0))
  }

  /**
   * The inner loop for one line: the first entry whose key assigns on the
   * line replaces it; a line no key assigns on is kept.
   */
  function RewriteLine(line: string, entries: seq<(string, string)>): string
    decreases |entries|
  {
    if entries == [] then line
    else if StartsWith(line, Assignment(entries[0].0)) then SettingLine(entries[0])
    else RewriteLine(line, entries[1..])
  }

  /**
   * A line on which a mapped key assigns becomes exactly `KEY=<value>\n` for
   * the first such key; any other line is copied unchanged.
   */
  lemma {:induction false} RewriteLineSpec(line: string, entries: seq<(string, string)>)
    ensures !Matches(line, entries) ==> RewriteLine(line, entries) == line
    ensures Matches(line, entries) ==>
      exists k :: FirstMatch(line, entries, k) && RewriteLine(line, entries) == SettingLine(entries[k])
    decreases |entries|
  {
    if entries == [] {
    } else if StartsWith(line, Assignment(entries[0].0)) {
      assert FirstMatch(line, entries, 0);
    } else {
      var rest := entries[1..];
      RewriteLineSpec(line, rest);
      if Matches(line, entries) {
        var k :| 0 <= k < |entries| && StartsWith(line, Assignment(entries[k].0));
        assert rest[k - 1] == entries[k];
        var k' :| FirstMatch(line, rest, k') && RewriteLine(line, rest) == SettingLine(rest[k']);
        forall j | 0 <= j < k' + 1
          ensures !StartsWith(line, Assignment(entries[j].0))
        {
          if j > 0 {
            assert entries[j] == rest[j - 1];
          }
        }
        assert FirstMatch(line, entries, k' + 1);
      } else {
        forall k | 0 <= k < |rest|
          ensures !StartsWith(line, Assignment(rest[k].0))
        {
          assert rest[k] == entries[k + 1];
        }
      }
    }
  }

  /** The new file: every line rewritten, none added or removed. */
  function RewriteLines(lines: seq<string>, entries: seq<(string, string)>): (r: seq<string>)
    ensures |r| == |lines|
    ensures forall k :: 0 <= k < |lines| ==> r[k] == RewriteLine(lines[k], entries)
  {
    seq(|lines|, k requires 0 <= k < |lines| => RewriteLine(lines[k], entries))
  }

  /** No key contains `=`, so a line assigns to at most one key. */
  predicate PlainKeys(entries: seq<(string, string)>) {
    forall k :: 0 <= k < |entries| ==> '=' !in entries[k].0
  }

  /** Two `=`-free keys that both assign on one line are the same key. */
  lemma SameAssignment(line: string, a: string, b: string)
    requires '=' !in a && '=' !in b
    requires StartsWith(line, Assignment(a)) && StartsWith(line, Assignment(b))
    ensures a == b
  {
    assert line[|a|] == '=' && line[|b|] == '=';
    forall i | 0 <= i < |a|
      ensures line[i] != '='
    {
      assert line[i] == a[i];
    }
    forall i | 0 <= i < |b|
      ensures line[i] != '='
    {
      assert line[i] == b[i];
    }
    assert a == line[..|a|] && b == line[..|b|];
  }

  /** A line already written for a key is written again unchanged. */
  lemma RewriteLineIdempotent(line: string, entries: seq<(string, string)>)
    requires PlainKeys(entries)
    ensures RewriteLine(RewriteLine(line, entries), entries) == RewriteLine(line, entries)
  {
    var r := RewriteLine(line, entries);
    RewriteLineSpec(line, entries);
    RewriteLineSpec(r, entries);
    if Matches(line, entries) {
      var k :| FirstMatch(line, entries, k) && r == SettingLine(entries[k]);
      assert r == Assignment(entries[k].0) + (entries[k].1 + "\n");
      assert StartsWith(r, Assignment(entries[k].0));
      var j :| FirstMatch(r, entries, j) && RewriteLine(r, entries) == SettingLine(entries[j]);
      SameAssignment(r, entries[j].0, entries[k].0);
      assert j <= k;
      assert StartsWith(line, Assignment(entries[j].0));
    }
  }

  /** Rewriting twice with the same settings gives what rewriting once gave. */
  lemma RewriteIdempotent(lines: seq<string>, entries: seq<(string, string)>)
    requires PlainKeys(entries)
    ensures RewriteLines(RewriteLines(lines, entries), entries) == RewriteLines(lines, entries)
  {
    forall k | 0 <= k < |lines|
      ensures RewriteLine(RewriteLine(lines[k], entries), entries) == RewriteLine(lines[k], entries)
    {
      RewriteLineIdempotent(lines[k], entries);
    }
  }

  /** The first five keys contain no `=`. */
  lemma FirstKeysPlain()
    ensures forall k :: 0 <= k < 5 ==> '=' !in SettingKeys[k]
  {
    assert '=' !in SettingKeys[0] && '=' !in SettingKeys[1];
    assert '=' !in SettingKeys[2] && '=' !in SettingKeys[3];
    assert '=' !in SettingKeys[4];
  }

  /** Nor do the last five. */
  lemma LastKeysPlain()
    ensures forall k :: 5 <= k < |SettingKeys| ==> '=' !in SettingKeys[k]
  {
    assert '=' !in SettingKeys[5] && '=' !in SettingKeys[6];
    assert '=' !in SettingKeys[7] && '=' !in SettingKeys[8];
    assert '=' !in SettingKeys[9];
  }

  /** No key of the settings file contains `=`. */
  lemma SettingKeysPlain()
    ensures forall k :: 0 <= k < |SettingKeys| ==> '=' !in SettingKeys[k]
  {
    FirstKeysPlain();
    LastKeysPlain();
  }

  /** `update_settings` applied twice with the same settings leaves the file as the first call left it. */
  lemma UpdateSettingsIdempotent(lines: seq<string>, s: Settings)
    ensures RewriteLines(RewriteLines(lines, SettingsMap(s)), SettingsMap(s)) == RewriteLines(lines, SettingsMap(s))
  {
    SettingKeysPlain();
    assert PlainKeys(SettingsMap(s));
    RewriteIdempotent(lines, SettingsMap(s));
  }

  /** The write-back loop of `update_settings`: for each line, the first key that assigns on it, if any. */
  method RewriteEnv(lines: seq<string>, settingsMap: seq<(string, string)>) returns (newLines: seq<string>)
    ensures newLines == RewriteLines(lines, settingsMap)
  {
    newLines := [];
    var i := 0;
    while i < |lines|
      invariant 0 <= i <= |lines|
      invariant newLines == RewriteLines(lines[..i], settingsMap)
    {
      var line := lines[i];
      var updated := false;
      var e := 0;
      while e < |settingsMap|
        invariant 0 <= e <= |settingsMap|
        invariant !updated
        invariant RewriteLine(line, settingsMap) == RewriteLine(line, settingsMap[e..])
        invariant newLines == RewriteLines(lines[..i], settingsMap)
      {
        var (key, value) := settingsMap[e];
        assert settingsMap[e..][0] == (key, value) && settingsMap[e..][1..] == settingsMap[e + 1..];
        if StartsWith(line, key + "=") {
          newLines := newLines + [key + "=" + value + "\n"];
          updated := true;
          break;
        }
        e := e + 1;
      }
      if !updated {
        newLines := newLines + [line];
      }
      assert newLines == RewriteLines(lines[..i], settingsMap) + [RewriteLine(line, settingsMap)];
      assert lines[..i + 1] == lines[..i] + [line];
      i := i + 1;
    }
    assert lines[..i] == lines;
  }

  /**
   * `update_settings`: the lines of the `.env` file, or none when it does not
   * exist, rewritten with the new settings; returns the lines written back.
   */
  method UpdateSettings(file: Option<seq<string>>, settings: Settings) returns (newLines: seq<string>, response: ActionResponse)
    ensures newLines == RewriteLines(file.GetOr([]), SettingsMap(settings))
    ensures file.None? ==> newLines == []
    ensures response == ActionResponse(true, "Настройки обновлены")
  {
    var lines: seq<string> := [];
    if file.Some? {
      lines := file.value;
    }
    newLines := RewriteEnv(lines, SettingsMap(settings));
    response := ActionResponse(true, "Настройки обновлены");
  }
}
