# vnexpress-summary, modelled in Dafny

vnexpress-summary is a bot that crawls the listing pages of the VnExpress
news site. It:

- skips every article URL already recorded in its SQLite table;
- extracts the title, description and body of each new article;
- asks a hosted language model for a summary of four to ten sentences,
  and asks again while the reply has fewer than three periods;
- posts the article with its summary to a Telegram channel;
- records the URL, so that the listings of later categories and later
  cycles skip it.

The repository holds two versions of this pipeline:

- `main.py` is asynchronous. It crawls three feeds, assembles an article
  from a description and a body, and caches summaries for the duration of
  one cycle.
- `test_mvp.py` is the earlier synchronous version. It crawls eleven news
  sections, assembles articles from lazily evaluated generators, has no
  summary cache, and can also write an article to a text file.

The model covers the decisions of both versions. The outside world becomes
inputs:

- A listing fetch is a function from a page URL to the headlines found on
  it, or to a failure.
- Content extraction is a function from an article URL to what the
  extractor returns.
- The language model is the sequence of replies it gives, in order. Each
  reply is a completion or a failure.
- `datetime.now()` is a `now` parameter.

| file | module | models |
|---|---|---|
| `wrappers.dfy` | `Wrappers` | `Option` |
| `text.dfy` | `Text` | The Python string operations used: `split` and `join` on one character, `strip()`, counting, `str(n)`. |
| `store.dfy` | `Store` | `DatabaseManager`: the `articles` table as a class over a `map` from URL to row. `INSERT OR REPLACE` is an upsert. |
| `listing.dfy` | `Listing` | The page URL template, and `get_urls_of_type_thread` as a loop that consults the store. Both versions share it. |
| `summarizer.dfy` | `Summarizer` | The `len(s.split(".")) >= 4` gate. `summarize` without a cache (`test_mvp.py`) and with one, the `GroqSummarizer` class (`main.py`). |
| `telegram.dfy` | `Telegram` | The emoji tables and the message text built by `post_update`. |
| `journal.dfy` | `Journal` | A cycle's log of posts and writes, and the store replayed from it. |
| `pipeline.dfy` | `Pipeline` | `main.py`: `process_article`, `get_latest_articles` and `process_articles`. |
| `mvp.dfy` | `Mvp` | `test_mvp.py`: `write_content`, `get_latest_articles` and `process_articles`. |

Each loop of the source is a Dafny `method` with its loop. Each method is
proved equal to a specification function, and lemmas prove what that
function guarantees. A cycle's effects are recorded as a log of
`Posted(article, summary)` and `Inserted(url, row)` events. The main
results about the log are:

- `CycleSound` holds for every listing, extraction and reply sequence:
  - every post is of an article of a crawled category that was not in the
    store before the cycle;
  - every post carries a summary that passed the gate;
  - every write follows the post of the same article, and every post is
    immediately followed by that write;
  - no row that was in the store before the cycle is overwritten;
  - no row with an empty summary is written.
- `NextCycleSkipsWritten`: the next cycle never posts an article that
  this cycle wrote, whatever the site lists in between.

## Model

| member | source | states |
|---|---|---|
| Store.Upserted | main.py:54-70 | After an upsert, the article's URL maps to a row holding its title, category, publication date, the crawl date and the summary. Every other URL keeps its row, and at most one URL is added. |
| Store.UpsertLastWriteWins | main.py:56-60 | Inserting the same URL twice leaves a single row, the one written last. |
| Store.DatabaseManager.constructor | test_mvp.py:39-57 | Opening the table with `CREATE TABLE IF NOT EXISTS` keeps the rows already stored. |
| Store.DatabaseManager.InsertArticle | test_mvp.py:59-75 | `insert_article` turns the table into the upsert of the article and summary. |
| Store.DatabaseManager.IsArticleCrawled | main.py:72-77 | The `SELECT` answers the store query `Crawled` on the current table and changes nothing. |
| Store.CrawledAfterUpsert | main.py:54-77 | After inserting an article, its URL is crawled, and any other href is crawled exactly when it was before. A missing href (SQL NULL) never counts as crawled. |
| Text.Split | main.py:229 | `split` on one character gives one more piece than there are separators, and no piece contains the separator. |
| Text.SplitJoin | main.py:266-272 | Splitting a text joined on a character gives back the parts, when no part contains that character. |
| Text.Strip | main.py:227 | After `strip()`, the text neither starts nor ends with whitespace. |
| Text.StripCounts | main.py:227 | `strip()` removes only whitespace: every other character keeps its count. |
| Text.StripLeftSuffix | main.py:227 | `lstrip()` keeps a suffix of the text, and everything it cuts off is whitespace. |
| Text.StripRightPrefix | main.py:227 | `rstrip()` keeps a prefix of the text, and everything it cuts off is whitespace. |
| Text.StripIsInfix | main.py:227 | `strip()` keeps one contiguous piece of the text, and only whitespace comes before or after it. Inner whitespace is kept. |
| Text.ParseNatToString | main.py:150 | The decimal rendering of a page number reads back as that number. |
| Listing.PageUrlRoundTrip | main.py:150 | A listing URL parses back to its category and page number. |
| Listing.PageUrlInjective | test_mvp.py:175 | Two different (category, page) pairs never give the same listing URL. |
| Listing.FirstHrefs | main.py:161-163 | Gives `None` exactly when some headline has no anchor (an IndexError). Otherwise gives each headline's first href, in order. |
| Listing.FilterUncrawledSpec | main.py:160-167 | The filter keeps exactly the hrefs not in the store, each as often as it occurs. Duplicates are not removed. |
| Listing.FilterAppend | main.py:161-165 | The filter distributes over concatenation, so it keeps the page order. |
| Listing.UrlsOfPageSpec | main.py:149-170 | A failed fetch, a page with no headlines, or a headline without an anchor gives `[]`. Otherwise the result is the uncrawled first hrefs, with their multiplicities. |
| Listing.UrlsOfPageUncrawled | test_mvp.py:184-191 | No href handed on by the listing step is in the store. |
| Listing.PagedSpec | main.py:176-179 | A result is gathered exactly when some page from 1 to `pages` produced it. |
| Listing.PagedPrefix | test_mvp.py:199-201 | The results of fewer pages are a prefix of the results of more pages. |
| Listing.GetUrlsOfTypeThread | main.py:146-170 | The loop returns the listing result for the fetched page. The loop of test_mvp.py:173-194 is identical. |
| Summarizer.Accepts | main.py:229 | A summary passes the gate exactly when it contains at least three `.` characters. |
| Summarizer.Summarize | test_mvp.py:236-268 | The uncached summarizer never consumes more replies than it was given. |
| Summarizer.SummarizeSpec | test_mvp.py:251-265 | The first reply the gate does not reject decides the outcome: a failure gives "", an accepted reply gives its stripped text. Every earlier reply was rejected. The call is unfinished exactly when every reply is rejected. |
| Summarizer.ReturnedPassesGate | test_mvp.py:258-268 | A returned summary is "" or a stripped text that passes the gate. |
| Summarizer.SummarizeCached | main.py:201-237 | A cache hit returns the stored summary and consumes no reply. Otherwise the cache either stays the same or gains exactly this text, mapped to an accepted summary. A failure ("") leaves the cache unchanged. |
| Summarizer.CachedIsMemoized | main.py:202-234 | On a cache miss, the cached summarizer is the uncached one followed by storing a non-empty result under the text. |
| Summarizer.CacheStaysValid | main.py:233 | The cache only ever holds summaries that passed the gate. |
| Summarizer.SecondCallHitsCache | main.py:202-203 | Once a call has produced a summary, a second call with the same text returns it without asking the service. |
| Summarizer.TwoSentencesRejected | main.py:229-231 | A two-sentence reply is sent back for another attempt. |
| Summarizer.ThreeSentencesAccepted | main.py:229-234 | A three-sentence reply is accepted as it is. |
| Summarizer.RetryOnce | test_mvp.py:261-263 | After a rejected reply, the next reply that is not rejected decides, after two calls. |
| Summarizer.RetriesShortReply | test_mvp.py:258-265 | A two-sentence reply followed by a three-sentence reply returns the second, after exactly two calls. |
| Summarizer.GroqSummarizer.constructor | main.py:197-199 | A new summarizer starts with an empty cache. |
| Summarizer.GroqSummarizer.Summarize | main.py:201-237 | The recursive method's outcome, new cache and replies consumed are those of the cached summarizer. |
| Telegram.MainEmojisExtendMvp | main.py:247-264 | main.py's emoji table agrees with test_mvp.py's on every section and adds exactly the three feeds. |
| Telegram.EmojiTablesSingleLine | test_mvp.py:278-290 | No emoji in either table contains a line break. |
| Telegram.MessageVerbatim | main.py:264-272 | Whatever the summary holds, line breaks included, the message is a head that depends only on the article, then the summary verbatim, then a tail that depends only on the article. |
| Telegram.MessageLayout | main.py:264-272 | Read back line by line, the message gives the emoji and bold title, a blank line, the header, the summary, a blank line, the link, the category and the date, in that order. This holds when none of the fields contains a line break. |
| Journal.WellFormedPost | main.py:305-306 | Posting a new article of a crawled category with an accepted summary keeps the log well formed. |
| Journal.WellFormedInsert | main.py:306-307 | Writing the article just posted, with that summary, keeps the log well formed. |
| Journal.PostsWrittenAppend | main.py:305-307 | Logging a post together with the write of that article and summary keeps every post written. |
| Journal.PostedStored | main.py:305-307 | When every post is followed by its write, every posted article's URL is in the replayed store. |
| Journal.ReplaySpec | main.py:302-307 | Under a well-formed log, no row present before the cycle changes. Every added row holds an accepted summary and this cycle's crawl date, and belongs to an article the cycle posted. |
| Journal.ReplayKeys | main.py:54-70 | A URL is in the replayed store exactly when it was there before or some write of the log is for it. |
| Pipeline.ProcessArticle | main.py:182-193 | A produced article comes from the given href, with its category, the current date, and a non-empty title and content. |
| Pipeline.ProcessArticleSpec | main.py:182-193 | An article is produced exactly when there is an href and the extraction gives a non-empty title and a non-empty description or body. Its content is the description, one line break and the body, whatever they hold. When the description has no line break of its own, splitting the content at line breaks gives the description and then the body's lines. |
| Pipeline.PresentAppend | main.py:180 | Dropping the `None` results distributes over concatenation. |
| Pipeline.PresentSpec | main.py:180 | The filter keeps exactly the articles that are present, and never more results than it was given. |
| Pipeline.LatestArticlesByPage | main.py:176-180 | The articles of `pages` pages are those of `pages - 1` pages followed by those of the last page. |
| Pipeline.PageResultsSpec | main.py:177-179 | A page's results contain an article exactly when one of the page's listed hrefs yields it. |
| Pipeline.LatestArticlesSpec | main.py:172-180 | An article is returned exactly when some page from 1 to `pages` yields it. |
| Pipeline.LatestArticlesSound | main.py:172-193 | Every returned article is of the requested category, comes from a URL not in the store, is dated now, and has a title and content. |
| Pipeline.GetLatestArticles | main.py:172-180 | The page loop returns the latest articles of the category. |
| Pipeline.ArticleTypesHaveEmojis | main.py:106-110 | Each of the three feeds has its own emoji, not the default one. |
| Pipeline.ListingsListNew | main.py:300 | The listing step of the cycle yields only new articles of the category asked for, dated now. |
| Pipeline.ArticleStepPosts | main.py:302-307 | An article step changes the log exactly when the article has content and its summary is non-empty. It then appends the post of that summary followed by the write of that article and summary. |
| Pipeline.CachedArticlePosted | main.py:202-203 | An article whose text already has a non-empty cached summary is posted with it and written, and no reply is consumed. |
| Pipeline.ListedTwicePostedTwice | main.py:300-307 | An article listed twice in one listing is posted and written twice, the second time with the cached summary and no further reply. |
| Pipeline.ArticleStepSound | main.py:302-307 | One article step keeps the log well formed in both directions (each write follows its post, each post is followed by its write) and keeps the cache valid. |
| Pipeline.DrainSound | main.py:302-309 | The article loop over new articles of a feed keeps the log well formed in both directions and the cache valid. |
| Pipeline.CycleUpToSound | main.py:298-311 | The log stays well formed in both directions, and the cache valid, after every prefix of the feeds. |
| Pipeline.CycleSound | main.py:285-318 | For any listing, extraction and replies, a cycle's log is well formed: every post is followed by its write, and every write follows its post. Rows present before the cycle are kept, and every new row holds a non-empty summary that passed the gate. A URL not in the store before gets a row exactly when its article was posted. |
| Pipeline.NextCycleSkipsWritten | main.py:164-165 | The next cycle, over any listing, extraction and replies of its own, posts nothing that was stored before this cycle or written by it. |
| Pipeline.HandleArticle | main.py:302-309 | The loop body (summarize, then post and write on a non-empty summary) does one article step. The store is the log replayed. |
| Pipeline.HandleArticles | main.py:302-309 | The article loop equals the article-loop function, stopping when the replies run out. |
| Pipeline.HandleCategory | main.py:298-311 | One feed lists its articles against the current store and runs the article loop. On a stop, the whole cycle is settled. |
| Pipeline.HandleCategories | main.py:297-313 | The feed loop, in dict order, equals the cycle function. |
| Pipeline.ProcessArticles | main.py:285-318 | `process_articles` with a fresh summarizer produces the cycle's log. The store ends as that log replayed. |
| Mvp.LinesJoin | test_mvp.py:130-136 | Writing lines one by one gives the lines joined by line breaks, plus a final one. |
| Mvp.FileLayout | test_mvp.py:126-136 | Read back line by line, the file gives the title, a blank line, the optional description block, `Content:` and the paragraphs. This holds when no piece contains a line break. |
| Mvp.WriteEach | test_mvp.py:130-131 | The `for ... f.write` loop appends each item followed by a line break. |
| Mvp.WriteDescription | test_mvp.py:128-132 | The description block is a heading, the pieces one per line, and a blank line. |
| Mvp.WriteFile | test_mvp.py:126-136 | The writes produce the file layout. The content heading is always written, because a generator is truthy. |
| Mvp.WriteContent | test_mvp.py:119-144 | `write_content` succeeds exactly when the page has a title, the file can be opened and the generators do not raise. On success the file holds the layout. |
| Mvp.AssembleSpec | test_mvp.py:202-220 | An article is made exactly when the page has a non-empty title; the `description or paragraphs` test cannot fail on generators. The call raises exactly when such a page's generators fail. |
| Mvp.ContentSpec | test_mvp.py:204-208 | The content always contains a space, so it is never empty. When a description is present, both lists are non-empty and no piece contains a space, splitting the content at spaces gives the description pieces and then the paragraphs. |
| Mvp.CollectedSpec | test_mvp.py:197-229 | The accumulated list is discarded exactly when some URL raised. Otherwise it holds exactly the articles made. |
| Mvp.CollectedPrefix | test_mvp.py:225-229 | Once a URL has raised, later pages cannot bring the list back. |
| Mvp.LatestArticlesSpec | test_mvp.py:196-229 | One raising URL on any page gives `[]`. Otherwise an article is returned exactly when some URL of some page yields it. |
| Mvp.LatestArticlesSound | test_mvp.py:196-229 | Every returned article is of the requested section, comes from a URL not in the store, is dated now, and has a title and content. |
| Mvp.AssembleOne | test_mvp.py:202-220 | The step-by-step `content +=` build gives the assembled article. |
| Mvp.CollectPage | test_mvp.py:201-222 | The URL loop of one page extends the accumulated articles, or reports that the page raised. |
| Mvp.GetLatestArticles | test_mvp.py:196-229 | The page loop with its discard-all handler returns the latest articles of the section. |
| Mvp.CategoriesHaveEmojis | test_mvp.py:104-116 | Each of the eleven sections has its own emoji, not the default one. |
| Mvp.ListingsListNew | test_mvp.py:323 | The listing step of the cycle yields only new articles of the section asked for, dated now. |
| Mvp.ArticleStepPosts | test_mvp.py:325-332 | An article step changes the log exactly when the article has content and its summary is non-empty. It then appends the post of that summary followed by the write of that article and summary. |
| Mvp.ArticleStepSound | test_mvp.py:325-330 | One article step keeps the log well formed in both directions: each write follows its post, and each post is followed by its write. |
| Mvp.DrainSound | test_mvp.py:325-332 | The article loop over new articles of a section keeps the log well formed in both directions. |
| Mvp.CycleUpToSound | test_mvp.py:321-334 | The log stays well formed in both directions after every prefix of the sections. |
| Mvp.CycleSound | test_mvp.py:313-339 | For any listing, extraction and replies, a cycle's log is well formed: every post is followed by its write, and every write follows its post. Rows present before the cycle are kept, and every new row holds a non-empty summary that passed the gate. A URL not in the store before gets a row exactly when its article was posted. |
| Mvp.NextCycleSkipsWritten | test_mvp.py:188-189 | The next cycle, over any listing, extraction and replies of its own, posts nothing that was stored before this cycle or written by it. |
| Mvp.HandleArticle | test_mvp.py:325-332 | The loop body (summarize, then post and write on a non-empty summary) does one article step. The store is the log replayed. |
| Mvp.HandleArticles | test_mvp.py:325-332 | The article loop equals the article-loop function, stopping when the replies run out. |
| Mvp.HandleCategory | test_mvp.py:321-334 | One section lists its articles against the current store and runs the article loop. On a stop, the whole cycle is settled. |
| Mvp.HandleCategories | test_mvp.py:321-336 | The section loop, in dict order 0 to 10, equals the cycle function. |
| Mvp.ProcessArticles | test_mvp.py:313-339 | `process_articles` produces the cycle's log. The store ends as that log replayed. |

## Where the code and its design description differ

The model follows the code.

- **Retries.** The design asks for a capped number of summary retries with
  backoff. Neither summarizer counts its retries: each too-short reply
  recurses, with no backoff. The only limit is Python's recursion limit.
  Its `RecursionError` is an `Exception`, so the handler at main.py:235-237
  (test_mvp.py:266-268) catches it and the call returns "". In the model,
  the retry bound is the number of scripted replies: when they run out, the
  call is `Unfinished`.
- **Failed posts.** The design skips persistence when posting fails.
  `post_update` swallows every delivery error, so the article is written
  anyway.
- **Cache lifetime.** The design keeps the summary cache for the life of
  the process. `process_articles` in main.py builds a new `GroqSummarizer`
  on every call, so the cache lasts one cycle.
- **Concurrency.** The design bounds concurrency at five workers. The
  `num_workers` and `total_pages` keyword arguments are stored and never
  read, and `get_latest_articles` always uses its default of two pages.
- **Posting once.** The design publishes each new article exactly once.
  Within one cycle the code does not: a category's listing is taken once
  (main.py:300, test_mvp.py:323), and the article loop never asks the store
  again (main.py:302-307, test_mvp.py:325-330). So an href listed twice,
  on both pages or twice on one page, is posted and written twice; in
  main.py the second summary comes from the cache. `ListedTwicePostedTwice`
  states this.
- **Idempotence.** The design says a second cycle over an unchanged
  listing posts nothing. That does not hold for the code: an article whose
  summary came back empty is neither posted nor stored, so the next cycle
  tries it again. What does hold is `NextCycleSkipsWritten`.

## Left out

- HTTP fetching, timeouts and BeautifulSoup parsing: these are foreign
  code. A listing fetch is a function from page URL to headlines or
  failure, and extraction is a function from URL to its result.
- The Groq client: a foreign, non-deterministic service. It is a sequence
  of replies, each a completion or a failure.
- Telegram delivery and its Markdown parse mode: a foreign call whose
  failures are swallowed. The log records the post as
  `Posted(article, summary)`, and `Telegram.Message` is the text sent. The
  log does not hold the text.
- SQLite connections, commits, the table schema and `close()`: storage
  plumbing. Only the map semantics are kept.
- Concurrency: `asyncio.gather`, `asyncio.to_thread`, the async database
  calls and `create_session`/`close_session`. The tasks of one page run
  concurrently; the model runs them in URL order. That gives the same list,
  because `gather` returns results in argument order and no task writes the
  store.
- The `asyncio.sleep`/`time.sleep` pacing, the hourly `main` loop,
  logging setup and the environment-variable check: timing and process
  setup.
- Summarizer.Summarize: after enough too-short replies, the source hits the
  interpreter's recursion depth and gives up with "". The model does not
  bound retries that way: it has no recursion limit and retries until an
  accepted reply or a failure, or until the scripted replies run out.
- Summarizer.SummarizeCached: the same. The source gives up with "" at the
  interpreter's recursion depth, and the model does not bound retries that
  way.
- Pipeline.ProcessArticles: a single `now` stands for every
  `datetime.now()` of a cycle. Also not modelled: an exception escaping the
  article loop, such as an unreachable database, which the outer handler
  catches to end the cycle early.
- Mvp.ProcessArticles: a single `now` stands for every `datetime.now()` of
  a cycle. An exception escaping the article loop is not modelled.
- Mvp.WriteContent: when the generators raise while the file is open, the
  source leaves a partly written file and returns False. The model returns
  no file content for that case.
- Duplicate hrefs within one cycle: extraction is a function of the URL,
  so an href listed twice extracts the same way both times. The source
  fetches the page again and could get a different result.
- The prompt text and the sampling parameters of the summary request have
  no effect on the decisions modelled.
- `BaseCrawler`, the keyword-argument configuration and the ignored
  `total_pages`/`num_workers` arguments: no behaviour to model.
- `test.py`: a one-off script that calls the Telegram API and prints the
  result. It has no logic to verify.
