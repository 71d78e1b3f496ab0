# Article pipeline model

A Dafny model of the content pipeline of an energy-audit company's site. Each day the
pipeline does four things:

- It asks a language model (Gemini) for articles on a fixed list of search phrases.
- It scores each candidate and stores it in an SQLite article store.
- It turns the best pending articles into WordPress posts.
- It shares the best one on Facebook.

A small web dashboard lists the stored articles, the publication log and some counts. It
can approve or reject an article and rewrites the schedule settings in the `.env` file.

The model has one module per component:

- `Database` covers the article store (`database.py`). It has three tables and the
  `ArticleDatabase` class, whose methods update them. Each statement is specified by a
  function on the `Tables` value.
- `Scheduler` covers the daily stages (`scheduler.py`). The search stage, the blog stage
  and the Facebook stage are methods of `ContentScheduler` whose loops follow the
  source. Their effect on the store is stated by recursive functions over the items they
  visit. Lemmas state what those stages guarantee: rows already stored stay, the count is
  the number of rows added, one search record is kept per keyword that ran to the end, and
  each accepted post sets its article to `'published'` and records one publication.
- `Gemini` covers the search engine's reply handling (`gemini_search.py`). It takes the
  text from the first `{` to the last `}`, decodes it, and falls back to fixed values.
- `WordPress` covers the blog publisher (`wordpress_publisher.py`): the REST address, the
  request body of a post, and the HTML rendering of a generated post.
- `Social` covers the Facebook message, the Instagram caption and `publish_to_all`
  (`social_media_publisher.py`).
- `ApiServer` covers the dashboard routes (`api_server.py`): statistics, the article
  listing, logs, approve and reject, and the `.env` rewrite, which is idempotent.
- `Query` gives the meaning of the SQL the store and the dashboard issue: `WHERE`,
  `ORDER BY … DESC`, `LIMIT`.
- `Strings` holds the Python string operations the code relies on.
- `Common`, `Payloads` and `Config` hold shared types and the configured defaults.

The language model, the WordPress REST API and the Graph API are collaborators. Each is a
datatype of functions from the request to the reply, and a reply of `None` stands for a
failed call. Timestamps (`CURRENT_TIMESTAMP`, `datetime.now()`) are an integer parameter
`now`.

## Model

| member | source | states |
|---|---|---|
| Query.Insert | database.py:99-100 | inserting into a descending sequence keeps it descending and adds exactly that element (multiset) |
| Query.SortDesc | database.py:99-100 | `ORDER BY … DESC` yields a sorted permutation of the rows |
| Query.Filter | database.py:99 | `WHERE` keeps exactly the rows satisfying the condition, no more rows than the table |
| Query.LimitRows | api_server.py:146-151 | `LIMIT n` gives a prefix of length `n`, the whole answer when `n` is negative or large |
| Query.OptionalLimit | database.py:103-104 | the f-string `LIMIT` only applies for a truthy limit; `None` and `0` return every row |
| Database.EmptyIsWellFormed | database.py:15-61 | freshly created tables satisfy the `UNIQUE` url and ascending id invariant |
| Database.NewRow | database.py:69-82 | the inserted row has the given columns, `found_date` now and status `'pending'` |
| Database.InsertArticle | database.py:63-89 | a missing title or a taken url gives `-1` and no change; otherwise one row with the next id is appended; other tables untouched |
| Database.InsertArticleSpec | database.py:63-89 | on a well-formed store an insert either fails and changes nothing or appends one fresh positive-id pending row, keeping the store well-formed |
| Database.SetStatus | database.py:126-132 | the status update changes only the status of rows with that id; row count and other tables unchanged |
| Database.SetStatusSpec | database.py:126-132 | a status update keeps the store well-formed and changes nothing when no row has the id |
| Database.AppendPublication | database.py:134-143 | exactly one publication row is appended with the next id; articles untouched; well-formedness kept |
| Database.AppendSearch | database.py:145-154 | exactly one search record is appended with the next id; articles and publications untouched |
| Database.SelectPending | database.py:91-108 | only pending rows scoring at least the minimum, best first; at most `limit` rows for a positive limit; every eligible row without one |
| Database.SelectPendingPrefix | database.py:91-108 | a truthy limit gives the first `min(limit, eligible rows)` rows of the unlimited answer; without one, every eligible row |
| Database.OnlyPendingSelected | database.py:99 | a row whose status is not `'pending'` is never selected |
| Database.StatusChangeLeavesQueue | database.py:91-132 | after its status is set to anything but `'pending'`, no row with that id is selected |
| Database.PendingViews | database.py:110-124 | one dictionary per selected row, in order |
| Database.FindByUrl | database.py:156-175 | a row is found exactly when some row has the url, and it is a row with that url |
| Database.FindByUrlUnique | database.py:156-175 | under the `UNIQUE` constraint the row found is the only one with that url |
| Database.ArticleDatabase.constructor | database.py:11-61 | a new store has three empty, well-formed tables |
| Database.ArticleDatabase.AddArticle | database.py:63-89 | the tables and the returned id are those of `InsertArticle` |
| Database.ArticleDatabase.GetPendingArticles | database.py:91-124 | returns the views of `SelectPending` at the configured minimum score |
| Database.ArticleDatabase.UpdateArticleStatus | database.py:126-132 | the tables become `SetStatus` of the old ones |
| Database.ArticleDatabase.AddPublication | database.py:134-143 | the tables become `AppendPublication` of the old ones |
| Database.ArticleDatabase.AddSearchHistory | database.py:145-154 | the tables become `AppendSearch` of the old ones |
| Database.ArticleDatabase.GetArticleByUrl | database.py:156-175 | a summary is returned exactly when a row has the url, and it is that row's summary |
| Gemini.NewSearchEngine | gemini_search.py:14-19 | construction fails exactly when the API key is empty |
| Gemini.ExtractJsonSpan | gemini_search.py:61-65 | a span exists exactly when some `}` follows some `{`; it starts with `{`, ends with `}`, and has no `{` before it or `}` after it |
| Gemini.BraceOrder | gemini_search.py:61-64 | when some `}` follows some `{`, the last `}` follows the first `{` |
| Gemini.Decoded | gemini_search.py:55-70 | a reply decodes exactly when the call succeeded, a brace span exists and the span decodes, and then it is the decoding of that span |
| Gemini.SearchArticlesDecoded | gemini_search.py:55-74 | any failure (call, span or decode) gives `[]`; a decoded reply gives its `articles`, `[]` when the key is absent |
| Gemini.SearchArticles | gemini_search.py:21-74 | a non-empty result needs a model reply with a brace span |
| Gemini.DefaultAnalysis | gemini_search.py:138-153 | every score is 5.0 and there are no key topics |
| Gemini.AnalyzeArticle | gemini_search.py:76-136 | a non-object candidate raises; a failed model call or a missing span give the default analysis |
| Gemini.AnalyzeArticleDecoded | gemini_search.py:118-136 | for an object, any failure (call, span or decode) gives the default analysis; otherwise the decoded analysis |
| Gemini.DefaultBlogPost | gemini_search.py:205-214 | the article's title (or the fixed one), description as intro, content as body, meta description at most 160 characters and a prefix of the description, no tags |
| Gemini.GenerateBlogPost | gemini_search.py:155-203 | a failed model call gives the article's default post |
| Gemini.GenerateBlogPostDecoded | gemini_search.py:186-203 | any failure (call, span or decode) gives the article's default post; otherwise the decoded post |
| Gemini.NoSpanMeansFallback | gemini_search.py:21-214 | replies without `{` give the empty search result, the default analysis and the default post |
| WordPress.TrimTrailingSlashes | wordpress_publisher.py:15 | `rstrip('/')`: a prefix of the url, not ending in `/`, with only slashes removed |
| WordPress.TrailingSlashesIgnored | wordpress_publisher.py:15 | any number of trailing slashes gives the same base address |
| WordPress.NewPublisher | wordpress_publisher.py:14-19 | the base address is the site url without trailing slashes and the REST root is below it |
| WordPress.BuildPayload | wordpress_publisher.py:40-54 | missing text fields become `''`, a missing status is `'draft'`, tags and categories are sent exactly when non-empty |
| WordPress.NonBlank | wordpress_publisher.py:164 | the kept paragraphs are no more than the segments |
| WordPress.NonBlankIsStrippedFilter | wordpress_publisher.py:164 | the kept paragraphs are exactly the segments that are not all whitespace, each stripped, in order |
| WordPress.NonBlankStripped | wordpress_publisher.py:164 | every kept paragraph is non-empty and has no surrounding whitespace |
| WordPress.NonBlankEmpty | wordpress_publisher.py:164 | no paragraph survives exactly when every segment is whitespace only |
| WordPress.NonBlankKeepsNoBlankLines | wordpress_publisher.py:163-164 | stripping and dropping segments cannot create a blank line |
| WordPress.ParagraphTexts | wordpress_publisher.py:163-164 | paragraphs are stripped, non-empty, hold no blank line, and none exist exactly when all segments are blank |
| WordPress.TextToHtml | wordpress_publisher.py:158-165 | a missing or empty text renders to `''`; otherwise the result is empty exactly when there are no paragraphs |
| WordPress.TextToHtmlParagraphs | wordpress_publisher.py:158-165 | a non-empty text renders as one `<p>` per non-blank blank-line-separated segment, stripped, in order, joined by newlines |
| WordPress.ParagraphsOfSegments | wordpress_publisher.py:163-164 | a text joined from blank-line-free segments splits back into those segments, stripped and without the blank ones |
| WordPress.SingleParagraph | wordpress_publisher.py:158-165 | a text without blank lines that is not all whitespace renders as one `<p>` of its stripped self |
| WordPress.FormatBlogPost | wordpress_publisher.py:134-156 | the intro, body and conclusion HTML appear after their opening tags, in order, followed by the call to action |
| WordPress.FormatIgnoresOtherFields | wordpress_publisher.py:134-156 | title, meta description and tags do not affect the rendered page |
| WordPress.BlankPostRendersFrame | wordpress_publisher.py:134-165 | a post whose sections are missing or blank renders as the bare frame |
| WordPress.BlankRendersEmpty | wordpress_publisher.py:158-165 | a missing text or one of only whitespace renders to nothing |
| Social.LinkLine | social_media_publisher.py:92-93 | the link line is present exactly when the blog address is truthy |
| Social.FormatPostMessage | social_media_publisher.py:80-97 | the message starts with the marker and the title, ends with the hashtags, and holds the link line exactly between head and hashtags |
| Social.MessageSeesOnlyExcerpt | social_media_publisher.py:83 | only the first 200 characters of the description can affect the message |
| Social.MessageExcerptBounded | social_media_publisher.py:83-90 | the excerpt in the message has at most 200 characters and begins the description |
| Social.LinkLineOnlyForAddress | social_media_publisher.py:92-93 | a missing and an empty address give the same message; a non-empty one adds its own line |
| Social.NewFeedRequest | social_media_publisher.py:32-38 | the link is sent exactly when it is truthy |
| Social.FormatPostCaption | social_media_publisher.py:159-173 | the caption is the title, a blank line, at most 150 description characters, then the fixed trailer |
| Social.CaptionSeesOnlyExcerpt | social_media_publisher.py:162 | only the first 150 characters of the description can affect the caption |
| Social.CreateCarouselPost | social_media_publisher.py:175-180 | never posts |
| Social.PublishToAll | social_media_publisher.py:188-217 | with an image, a photo post and an Instagram post; without one, a link post and no Instagram call; both keys always reported |
| Scheduler.CandidateRecord | scheduler.py:39-54 | building a record raises exactly for a non-object result or an analysis without both scores; otherwise the stored fields come from the result and its analysis |
| Scheduler.RecordsFromSearch | scheduler.py:39-54 | one record per result, each carrying the keyword and the search engine as its source |
| Scheduler.IngestSpec | scheduler.py:37-64 | one keyword keeps the existing rows, adds rows carrying the keyword, and counts exactly the rows added |
| Scheduler.CollectArticlesSpec | scheduler.py:28-75 | the search stage keeps existing rows and publications, counts exactly the rows added, and every added row is gathered for a keyword |
| Scheduler.CollectSearchesSpec | scheduler.py:28-75 | at most one search record per keyword, each naming a keyword with the size of its search result |
| Scheduler.CollectSpec | scheduler.py:28-75 | both halves of the search stage together |
| Scheduler.IngestCompleted | scheduler.py:37-73 | a keyword's loop runs to the end exactly when every one of its records builds |
| Scheduler.SearchHistoryRecorded | scheduler.py:34-73 | the history gains exactly one record per keyword whose loop ran to the end, in order, with the keyword, its number of results and consecutive ids; an aborted keyword adds none |
| Scheduler.BlogRequest | scheduler.py:92-105 | a post is built exactly when the generated post has a title and a meta description, with the formatted content, the meta description as excerpt, status `'draft'` and the post's tags |
| Scheduler.BlogNextSpec | scheduler.py:92-127 | one article of the blog loop sends at most one post, adds at most one wordpress publication, counts it, and changes a status only to `'published'` |
| Scheduler.BlogProgressTrans | scheduler.py:92-127 | the blog stage's progress composes over consecutive articles |
| Scheduler.BlogSpec | scheduler.py:77-131 | at most one post per article; the count equals the wordpress publications added; rows kept; status only changes to `'published'` |
| Scheduler.BlogNextEffect | scheduler.py:92-127 | an unbuilt post or a falsy id leaves the tables and count alone; a truthy id sets that article to `'published'`, appends one `'wordpress'` publication with the article and post id, and counts one more |
| Scheduler.BlogPublished | scheduler.py:88-129 | the count grows by the accepted articles, and one `'wordpress'` publication per accepted article is appended, in order, with its article and post id |
| Scheduler.BlogStatuses | scheduler.py:88-129 | an article becomes `'published'` exactly when a post for its id was accepted; every other row and column is unchanged |
| Scheduler.FacebookSpec | scheduler.py:133-160 | no article or search record changes; at most one `'facebook'` publication with a non-empty post id per article |
| Scheduler.FacebookOutcome | scheduler.py:144-158 | one `'facebook'` publication per article whose feed post got a truthy id is appended, in order, with the article and that id |
| Scheduler.BlogStageBounds | scheduler.py:81-131 | a day's blog run sends at most `MAX_ARTICLES_PER_DAY` posts, and its count matches the publications recorded |
| Scheduler.FacebookStageBounds | scheduler.py:137-160 | a day's Facebook run posts about at most one article and changes no article |
| Scheduler.Pad2 | scheduler.py:176-187 | `{:02d}` gives two decimal digits reading back as the number for 0..99 |
| Scheduler.TimeRoundTrip | scheduler.py:176-187 | an `HH:MM` string reads back as its hour and minute |
| Scheduler.FormatTimeInjective | scheduler.py:176-187 | different times give different schedule strings |
| Scheduler.ScheduleTimes | scheduler.py:176-187 | the configured times read `09:00`, `10:00`, `12:00`, `14:00` |
| Scheduler.Schedule | scheduler.py:170-190 | the four jobs at their configured times, in registration order |
| Scheduler.ContentScheduler.constructor | scheduler.py:21-26 | the scheduler holds its collaborators and the configured keywords |
| Scheduler.ContentScheduler.StoreOne | scheduler.py:39-61 | a result whose record builds is inserted and counted when the id is positive; otherwise nothing changes |
| Scheduler.ContentScheduler.StoreResults | scheduler.py:37-64 | one keyword's results give the progress of `IngestFrom` |
| Scheduler.ContentScheduler.SearchAndCollectArticles | scheduler.py:28-75 | the new tables and `total_found` are those of `CollectFrom` |
| Scheduler.ContentScheduler.PublishOne | scheduler.py:92-127 | one article's step is `BlogNext` |
| Scheduler.ContentScheduler.PublishToBlog | scheduler.py:77-131 | the new tables, count and posts sent are those of `BlogFrom` over the selected articles |
| Scheduler.ContentScheduler.PublishToFacebook | scheduler.py:133-160 | at most one article is selected, and the new tables are those of `FacebookFrom` |
| Scheduler.ContentScheduler.PublishToInstagram | scheduler.py:162-168 | the store is not touched |
| ApiServer.CountStatus | api_server.py:71-77 | a status count is at most the number of rows |
| ApiServer.CountStatusIsFilter | api_server.py:71-77 | the count is the size of the `WHERE status = ?` filter |
| ApiServer.CountTwoStatuses | api_server.py:71-77 | two different status counts together never exceed all rows |
| ApiServer.GetStats | api_server.py:59-93 | total is the row count; pending and published are the filter sizes, together at most the total |
| ApiServer.ListArticles | api_server.py:96-113 | rows of the requested status (all for none or `'all'`), sorted by score then date, at most `limit` for a truthy limit |
| ApiServer.AllStatusesListed | api_server.py:106-108 | no status, `''` and `'all'` list the same rows; with no limit, every row in order |
| ApiServer.FilterAll | api_server.py:106-108 | a filter keeping every row returns the table |
| ApiServer.ListArticlesPrefix | api_server.py:103-116 | a truthy limit gives the first `min(limit, listed rows)` rows of the unlimited listing; without one, every listed row |
| ApiServer.GetArticles | api_server.py:96-136 | one listing per listed row, in order |
| ApiServer.Listings | api_server.py:119-132 | one listing per fetched row, in order |
| ApiServer.LogStatus | api_server.py:163 | the log status is `'success'` exactly for a stored `'success'`, else `'error'` |
| ApiServer.LogEntryOf | api_server.py:156-164 | a log entry carries the publication's id, platform, date, the message text and the status |
| ApiServer.RecentPublications | api_server.py:146-151 | newest first, exactly `min(limit, publications)` entries for a non-negative limit, all publications when the limit is negative or large enough |
| ApiServer.RecentAreNewest | api_server.py:146-151 | no publication left out is newer than one kept |
| ApiServer.GetLogs | api_server.py:139-168 | one entry per recent publication, in order |
| ApiServer.LogsWellOrdered | api_server.py:146-164 | every log entry is `'success'` or `'error'`, newest first |
| ApiServer.ApproveArticle | api_server.py:171-180 | the status is overwritten with `'approved'` and the fixed success response is returned |
| ApiServer.RejectArticle | api_server.py:183-192 | the status is overwritten with `'rejected'` and the fixed success response is returned |
| ApiServer.ApprovedNeverSelected | api_server.py:171-180 | an approved article is never selected for publishing |
| ApiServer.SettingsMap | api_server.py:225-236 | the ten `.env` keys, in order |
| ApiServer.RewriteLineSpec | api_server.py:239-247 | a line starting with a mapped `KEY=` becomes `KEY=value\n` for the first such key; other lines are unchanged |
| ApiServer.RewriteLines | api_server.py:238-248 | every line is rewritten; none is added or removed |
| ApiServer.SameAssignment | api_server.py:243 | two `=`-free keys that both assign on one line are the same key |
| ApiServer.RewriteLineIdempotent | api_server.py:239-247 | rewriting a rewritten line changes nothing |
| ApiServer.RewriteIdempotent | api_server.py:238-248 | rewriting a file twice with the same entries gives the first result |
| ApiServer.SettingKeysPlain | api_server.py:225-236 | no settings key contains `=` |
| ApiServer.UpdateSettingsIdempotent | api_server.py:211-258 | saving the same settings twice leaves the file as the first save did |
| ApiServer.RewriteEnv | api_server.py:238-248 | the write-back loop gives `RewriteLines` |
| ApiServer.UpdateSettings | api_server.py:211-258 | the lines written are the existing lines rewritten; a missing file gives none; the fixed response is returned |
| Strings.Take | social_media_publisher.py:83 | slicing `[:n]` is the prefix of length `min(n, len)` |
| Strings.Strip | wordpress_publisher.py:164 | `strip()` gives a slice of the text with only whitespace before and after it and none at its own ends; empty exactly when the text is all whitespace |
| Strings.SplitOn | wordpress_publisher.py:163 | `split` pieces rejoin to the text and contain no separator |
| Strings.SplitOnLeftmost | wordpress_publisher.py:163 | each `split` piece but the last ends at the leftmost separator of what remains |
| Strings.Find | gemini_search.py:61 | `find` gives the first index of the character, `-1` when absent |
| Strings.RFind | gemini_search.py:62 | `rfind` gives the last index of the character, `-1` when absent |
| Strings.IntToString | api_server.py:227-235 | `str()` of an integer: the decimal digits, with `-` for negatives |

## Left out

- The language model, the WordPress REST API and the Graph API are not modelled. They are deterministic function parameters, so two calls with the same request give the same reply. The prompt texts are not modelled; each reply is indexed by what the prompt is built from.
- `json.loads` is not modelled: it is a decoder parameter that returns `None` on failure. A key present with JSON `null` is treated like an absent key.
- The decoders return typed records, so values of the wrong JSON type are not modelled. Three raising paths are therefore missing. An `articles` value that is not a list fails at gemini_search.py:67. A candidate `content` that cannot be sliced raises at gemini_search.py:86, before the `try`, and aborts the keyword. A generated section that is not a string makes `text.split` raise at wordpress_publisher.py:163, and scheduler.py:127 then skips the article.
- `_get_or_create_tags` is not modelled. It is part of the REST collaborator: tag names go in, ids come out.
- `update_post` (wordpress_publisher.py:111-132) is never called by the pipeline and is not modelled.
- `FacebookPublisher.create_photo_post` and the two Instagram requests (container, then publish) are each one collaborator call.
- The publisher constructors' tokens and account ids are not modelled.
- The clock is a parameter `now`. The `schedule` library, `time.sleep`, the run loop, `run_scheduler` and `main.py` are left out. `Schedule` only lists the jobs and their times.
- Logging, `print` and `logger` calls are left out. They change no state.
- Exceptions are modelled only where the source catches them and goes on, as a `None` or `Err`. A failing SQLite connection is not modelled.
- The database file, connections and commits are not modelled. The tables are values held by `ArticleDatabase`.
- `keywords` is stored as a JSON text and read back with `eval` in `get_articles`. The model keeps it as a list of strings.
- `ApiServer.GetStats`: `avg_score` (floating-point `AVG`) is not modelled.
- `ApiServer.SettingsMap` states only the keys and their order, not the values. `min_article_score` is carried as the text `str()` gives for the float, because float formatting is not modelled.
- The dashboard routes `/`, `GET /api/settings`, `trigger_search`, `trigger_publish` and the second `POST /api/settings` handler are not modelled. The first three only read configuration or start the stages modelled in `Scheduler`. The last is shadowed by `update_settings`.
- SQL leaves the order of rows with equal sort keys unspecified. `Query.SortDesc` sorts stably, so tied rows keep insertion order.
- `publish_to_blog` stores the post address in the local article dictionary. No later stage reads it, so it is not modelled. `publish_to_facebook` therefore always links `WORDPRESS_URL`.
- The `.env` file is a list of lines. Reading and writing it is not modelled.
