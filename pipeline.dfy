/**
 * The hourly pipeline of main.py: for each of the three feeds, the first
 * two listing pages are crawled, each new article is assembled from its
 * extracted parts, summarized (with a cache that lives for one cycle),
 * posted, and recorded in the store.
 */
module Pipeline {
  import opened Wrappers
  import opened Text
  import opened Store
  import opened Listing
  import opened Summarizer
  import opened Telegram
  import opened Journal

  /** `article_type_dict.values()`, in key order 0, 1, 2. */
  const ArticleTypes: seq<string> := ["tin-xem-nhieu", "tin-nong", "tin-tuc-24h"]

  /** The feeds as a set, for stating which categories a cycle can post. */
  const Feeds: set<string> := set t | t in ArticleTypes

  /**
   * The default `pages` of `get_latest_articles`; `process_articles` does
   * not pass it (its `total_pages=1` goes to a constructor that ignores it).
   */
  const DefaultPages: nat := 2

  /**
   * What `extract_content` gives for an article URL: nothing usable (no
   * `h1.title-detail`, or any exception), or the stripped title, the stripped
   * description ("" when the tag is missing) and the stripped paragraph texts
   * joined by spaces.
   */
  datatype Extraction =
    | NotArticle
    | Extracted(title: string, description: string, paragraphs: string)

  /**
   * `process_article`. An href of `None` makes the request raise inside
   * `extract_content`, so it yields nothing, as does a page with no title.
   */
  function ProcessArticle(href: Href, articleType: string, extract: string -> Extraction, now: string)
    : (r: Option<Article>)
    ensures r.Some? ==>
      && href == Some(r.value.url)
      && r.value.category == articleType
      && r.value.publishedDate == now
      && r.value.title != ""
      && r.value.content != ""
  {
    if href.None? then None
    else match extract(href.value)
      case NotArticle => None
      case Extracted(title, description, paragraphs) =>
        if title != "" && (description != "" || paragraphs != "") then
          Some(Article(title, description + "\n" + paragraphs, href.value, articleType, now))
        else None
  }

  /**
   * An article comes out exactly when the page has a non-empty title and a
   * non-empty description or body. Its content is the description, one
   * line break and the body, whatever they hold; when the description has
   * no line break of its own, reading the content back at the first line
   * break gives the description and then the body.
   */
  lemma ProcessArticleSpec(href: Href, articleType: string, extract: string -> Extraction, now: string)
    ensures ProcessArticle(href, articleType, extract, now).Some? <==>
      && href.Some?
      && extract(href.value).Extracted?
      && extract(href.value).title != ""
      && (extract(href.value).description != "" || extract(href.value).paragraphs != "")
    ensures ProcessArticle(href, articleType, extract, now).Some? ==>
      var e := extract(href.value);
      var a := ProcessArticle(href, articleType, extract, now).value;
      && a.title == e.title
      && |a.content| == |e.description| + 1 + |e.paragraphs|
      && a.content[..|e.description|] == e.description
      && a.content[|e.description|] == '\n'
      && a.content[|e.description| + 1..] == e.paragraphs
      && ('\n' !in e.description ==> Split(a.content, '\n') == [e.description] + Split(e.paragraphs, '\n'))
  {
    var r := ProcessArticle(href, articleType, extract, now);
    if r.Some? && '\n' !in extract(href.value).description {
      var e := extract(href.value);
      SplitAfterPiece(e.description, '\n', e.paragraphs);
    }
  }

  /** `asyncio.gather` over `process_article`: one result per URL, in URL order. */
  function ProcessAll(hrefs: seq<Href>, articleType: string, extract: string -> Extraction, now: string)
    : seq<Option<Article>>
  {
    seq(|hrefs|, i requires 0 <= i < |hrefs| => ProcessArticle(hrefs[i], articleType, extract, now))
  }

  /** `[article for article in articles if article is not None]` */
  function Present(xs: seq<Option<Article>>): seq<Article>
  {
    if xs == [] then []
    else
      var init := Present(xs[..|xs| - 1]);
      if xs[|xs| - 1].Some? then init + [xs[|xs| - 1].value] else init
  }

  lemma {:induction false} PresentAppend(xs: seq<Option<Article>>, ys: seq<Option<Article>>)
    ensures Present(xs + ys) == Present(xs) + Present(ys)
  {
    if ys == [] {
      assert xs + ys == xs;
    } else {
      var ys' := ys[..|ys| - 1];
      assert (xs + ys)[..|xs + ys| - 1] == xs + ys';
      PresentAppend(xs, ys');
    }
  }

  /** The filter keeps exactly the articles that are there, in order. */
  lemma {:induction false} PresentSpec(xs: seq<Option<Article>>, a: Article)
    ensures a in Present(xs) <==> Some(a) in xs
    ensures |Present(xs)| <= |xs|
  {
    if xs != [] {
      var init := xs[..|xs| - 1];
      assert xs == init + [xs[|xs| - 1]];
      PresentSpec(init, a);
    }
  }

  /** The results of one listing page, read against the store as it is. */
  function PageResults(rows: map<string, Row>, articleType: string, page: nat,
                       fetch: string -> ListingFetch, extract: string -> Extraction, now: string)
    : seq<Option<Article>>
  {
    ProcessAll(UrlsOfPage(rows, fetch(PageUrl(articleType, page))), articleType, extract, now)
  }

  /** The results of each listing page of one category. */
  function ResultsByPage(rows: map<string, Row>, articleType: string,
                         fetch: string -> ListingFetch, extract: string -> Extraction, now: string)
    : nat -> seq<Option<Article>>
  {
    (p: nat) => PageResults(rows, articleType, p, fetch, extract, now)
  }

  /** The results of pages 1 to `pages` of one category, page after page. */
  function Gathered(rows: map<string, Row>, articleType: string, pages: nat,
                    fetch: string -> ListingFetch, extract: string -> Extraction, now: string)
    : seq<Option<Article>>
  {
    Paged(ResultsByPage(rows, articleType, fetch, extract, now), pages)
  }

  /** What `get_latest_articles(article_type, pages)` returns. */
  function LatestArticles(rows: map<string, Row>, articleType: string, pages: nat,
                          fetch: string -> ListingFetch, extract: string -> Extraction, now: string)
    : seq<Article>
  {
    Present(Gathered(rows, articleType, pages, fetch, extract, now))
  }

  /** Pages are visited in increasing order and their articles concatenated. */
  lemma LatestArticlesByPage(rows: map<string, Row>, articleType: string, pages: nat,
                             fetch: string -> ListingFetch, extract: string -> Extraction, now: string)
    requires pages > 0
    ensures LatestArticles(rows, articleType, pages, fetch, extract, now)
         == LatestArticles(rows, articleType, pages - 1, fetch, extract, now)
          + Present(PageResults(rows, articleType, pages, fetch, extract, now))
  {
    assert Gathered(rows, articleType, pages, fetch, extract, now)
        == Gathered(rows, articleType, pages - 1, fetch, extract, now)
         + PageResults(rows, articleType, pages, fetch, extract, now);
    PresentAppend(Gathered(rows, articleType, pages - 1, fetch, extract, now),
                  PageResults(rows, articleType, pages, fetch, extract, now));
  }

  /** A page's results hold an article exactly when one of its listed hrefs assembles into it. */
  lemma PageResultsSpec(rows: map<string, Row>, articleType: string, page: nat,
                        fetch: string -> ListingFetch, extract: string -> Extraction, now: string, a: Article)
    ensures Some(a) in PageResults(rows, articleType, page, fetch, extract, now) <==>
      exists h :: h in UrlsOfPage(rows, fetch(PageUrl(articleType, page)))
        && ProcessArticle(h, articleType, extract, now) == Some(a)
  {
    var urls := UrlsOfPage(rows, fetch(PageUrl(articleType, page)));
    var last := PageResults(rows, articleType, page, fetch, extract, now);
    if Some(a) in last {
      var k :| 0 <= k < |last| && last[k] == Some(a);
      assert urls[k] in urls;
    }
    if exists h :: h in urls && ProcessArticle(h, articleType, extract, now) == Some(a) {
      var h :| h in urls && ProcessArticle(h, articleType, extract, now) == Some(a);
      var k :| 0 <= k < |urls| && urls[k] == h;
      assert last[k] == Some(a);
    }
  }

  /**
   * An article is returned exactly when it is among the results of some
   * page from 1 to `pages`.
   */
  lemma LatestArticlesSpec(rows: map<string, Row>, articleType: string, pages: nat,
                           fetch: string -> ListingFetch, extract: string -> Extraction,
                           now: string, a: Article)
    ensures a in LatestArticles(rows, articleType, pages, fetch, extract, now) <==>
      exists p: nat :: 1 <= p <= pages && Some(a) in PageResults(rows, articleType, p, fetch, extract, now)
  {
    var results := ResultsByPage(rows, articleType, fetch, extract, now);
    PresentSpec(Paged(results, pages), a);
    PagedSpec(results, pages, Some(a));
    if a in LatestArticles(rows, articleType, pages, fetch, extract, now) {
      var p: nat :| 1 <= p <= pages && Some(a) in results(p);
      assert results(p) == PageResults(rows, articleType, p, fetch, extract, now);
    }
    if exists p: nat :: 1 <= p <= pages && Some(a) in PageResults(rows, articleType, p, fetch, extract, now) {
      var p: nat :| 1 <= p <= pages && Some(a) in PageResults(rows, articleType, p, fetch, extract, now);
      assert results(p) == PageResults(rows, articleType, p, fetch, extract, now);
    }
  }

  /**
   * Every returned article belongs to the requested category, comes from a
   * URL not in the store, and has a title and non-empty content.
   */
  lemma LatestArticlesSound(rows: map<string, Row>, articleType: string, pages: nat,
                            fetch: string -> ListingFetch, extract: string -> Extraction,
                            now: string, a: Article)
    requires a in LatestArticles(rows, articleType, pages, fetch, extract, now)
    ensures a.category == articleType && a.url !in rows && a.publishedDate == now
    ensures a.title != "" && a.content != ""
  {
    LatestArticlesSpec(rows, articleType, pages, fetch, extract, now, a);
    var p: nat :| 1 <= p <= pages && Some(a) in PageResults(rows, articleType, p, fetch, extract, now);
    PageResultsSpec(rows, articleType, p, fetch, extract, now, a);
    var h :| h in UrlsOfPage(rows, fetch(PageUrl(articleType, p)))
      && ProcessArticle(h, articleType, extract, now) == Some(a);
    UrlsOfPageUncrawled(rows, fetch(PageUrl(articleType, p)), h);
  }

  /** `get_latest_articles`: the page loop, extending the results page by page. */
  method GetLatestArticles(db: DatabaseManager, articleType: string, pages: nat,
                           fetch: string -> ListingFetch, extract: string -> Extraction, now: string)
    returns (articles: seq<Article>)
    ensures articles == LatestArticles(db.rows, articleType, pages, fetch, extract, now)
  {
    var results: seq<Option<Article>> := [];
    for page := 1 to pages + 1
      invariant results == Gathered(db.rows, articleType, page - 1, fetch, extract, now)
    {
      var urls := GetUrlsOfTypeThread(db, articleType, page, fetch);
      results := results + ProcessAll(urls, articleType, extract, now);
    }
    articles := Present(results);
  }

  /** Every feed main.py crawls has its own emoji in the message. */
  lemma ArticleTypesHaveEmojis()
    ensures forall i :: 0 <= i < |ArticleTypes| ==>
      ArticleTypes[i] in MainEmojis && CategoryEmoji(MainEmojis, ArticleTypes[i]) != DefaultEmoji
  {
  }

  /**
   * Where a cycle stands: what it has posted and written so far, the
   * summarizer's cache, the service replies not yet consumed, and whether
   * it is still running (false once the replies ran out mid-retry).
   */
  datatype Progress = Progress(events: seq<Event>, cache: map<string, string>,
                               replies: seq<Reply>, finished: bool)

  /**
   * The body of the article loop: an article with content is summarized;
   * a non-empty summary is posted and then written to the store.
   */
  function ArticleStep(p: Progress, a: Article, now: string): Progress
  {
    if a.content == "" then p
    else
      var (o, cache, used) := SummarizeCached(p.cache, a.content, p.replies);
      var rest := p.replies[used..];
      if o.Unfinished? then Progress(p.events, cache, rest, false)
      else if o.summary == "" then Progress(p.events, cache, rest, true)
      else
        var posted := Posted(a, o.summary);
        var written := Inserted(a.url, RowOf(a, o.summary, now));
        Progress(p.events + [posted, written], cache, rest, true)
  }

  /** The article loop over `articles`, in order, stopping when the cycle stops. */
  function Drain(p: Progress, articles: seq<Article>, now: string): Progress
  {
    if articles == [] then p
    else
      var q := Drain(p, articles[..|articles| - 1], now);
      if !q.finished then q else ArticleStep(q, articles[|articles| - 1], now)
  }

  /** `get_latest_articles(category)` with its default two pages, as a listing step. */
  function Listings(fetch: string -> ListingFetch, extract: string -> Extraction, now: string): Lister
  {
    (rows: map<string, Row>, category: string) => LatestArticles(rows, category, DefaultPages, fetch, extract, now)
  }

  lemma ListingNew(fetch: string -> ListingFetch, extract: string -> Extraction, now: string,
                    rows: map<string, Row>, category: string, a: Article)
    requires a in Listings(fetch, extract, now)(rows, category)
    ensures a.category == category && a.url !in rows && a.publishedDate == now
  {
    assert Listings(fetch, extract, now)(rows, category)
        == LatestArticles(rows, category, DefaultPages, fetch, extract, now);
    LatestArticlesSound(rows, category, DefaultPages, fetch, extract, now, a);
  }

  lemma ListingsListNew(fetch: string -> ListingFetch, extract: string -> Extraction, now: string)
    ensures ListsNew(Listings(fetch, extract, now), now)
  {
    forall rows, category, a | a in Listings(fetch, extract, now)(rows, category)
      ensures a.category == category && a.url !in rows && a.publishedDate == now
    {
      ListingNew(fetch, extract, now, rows, category, a);
    }
  }

  /**
   * The first `k` categories of a cycle that started with `rows0` in the
   * store: each category's articles are listed against the store as the
   * earlier categories left it.
   */
  function CycleUpTo(rows0: map<string, Row>, k: nat, list: Lister, replies: seq<Reply>, now: string): Progress
    requires k <= |ArticleTypes|
  {
    if k == 0 then Progress([], map[], replies, true)
    else
      var p := CycleUpTo(rows0, k - 1, list, replies, now);
      if !p.finished then p
      else Drain(p, list(Replay(rows0, p.events), ArticleTypes[k - 1]), now)
  }

  /** A whole cycle of `process_articles`. */
  function Cycle(rows0: map<string, Row>, fetch: string -> ListingFetch,
                 extract: string -> Extraction, replies: seq<Reply>, now: string): Progress
  {
    CycleUpTo(rows0, |ArticleTypes|, Listings(fetch, extract, now), replies, now)
  }

  /** Once the article loop has stopped, the remaining articles change nothing. */
  lemma {:induction false} DrainStopped(p: Progress, articles: seq<Article>, n: nat, now: string)
    requires n <= |articles| && !Drain(p, articles[..n], now).finished
    ensures Drain(p, articles, now) == Drain(p, articles[..n], now)
    decreases |articles| - n
  {
    if n < |articles| {
      assert articles[..n + 1][..n] == articles[..n];
      DrainStopped(p, articles, n + 1, now);
    } else {
      assert articles[..n] == articles;
    }
  }

  /** Once a category has stopped the cycle, the later categories change nothing. */
  lemma {:induction false} CycleStopped(rows0: map<string, Row>, k: nat, m: nat,
                                        list: Lister, replies: seq<Reply>, now: string)
    requires k <= m <= |ArticleTypes|
    requires !CycleUpTo(rows0, k, list, replies, now).finished
    ensures CycleUpTo(rows0, m, list, replies, now) == CycleUpTo(rows0, k, list, replies, now)
    decreases m - k
  {
    if k < m {
      CycleStopped(rows0, k + 1, m, list, replies, now);
    }
  }

  lemma CycleUpToStep(rows0: map<string, Row>, k: nat, list: Lister, replies: seq<Reply>, now: string)
    requires k < |ArticleTypes| && CycleUpTo(rows0, k, list, replies, now).finished
    ensures var p := CycleUpTo(rows0, k, list, replies, now);
      CycleUpTo(rows0, k + 1, list, replies, now)
        == Drain(p, list(Replay(rows0, p.events), ArticleTypes[k]), now)
  {
  }

  lemma DrainStep(p: Progress, articles: seq<Article>, j: nat, now: string)
    requires j < |articles| && Drain(p, articles[..j], now).finished
    ensures Drain(p, articles[..j + 1], now) == ArticleStep(Drain(p, articles[..j], now), articles[j], now)
  {
    assert articles[..j + 1][..j] == articles[..j];
  }

  /**
   * The state a cycle keeps: its log follows the discipline in both
   * directions and its cache only holds accepted summaries.
   */
  predicate Sound(p: Progress, rows0: map<string, Row>, now: string)
  {
    WellFormed(p.events, rows0, Feeds, now) && PostsWritten(p.events, now) && CacheValid(p.cache)
  }

  /**
   * One article step logs something exactly when the article has content
   * and its summary comes back non-empty, and then it logs the post of that
   * summary followed by its write; otherwise the log is unchanged.
   */
  lemma ArticleStepPosts(p: Progress, a: Article, now: string)
    ensures var q := ArticleStep(p, a, now);
      var o := SummarizeCached(p.cache, a.content, p.replies).0;
      && (q.events != p.events <==> a.content != "" && o.Returned? && o.summary != "")
      && (q.events != p.events ==>
            q.events == p.events + [Posted(a, o.summary), Inserted(a.url, RowOf(a, o.summary, now))])
  {
    var q := ArticleStep(p, a, now);
    if |q.events| == |p.events| + 2 {
      assert q.events != p.events;
    }
  }

  /**
   * An article whose text already has a non-empty summary in the cache is
   * posted with that summary and written, and the step consumes no
   * service reply.
   */
  lemma CachedArticlePosted(p: Progress, a: Article, now: string)
    requires a.content != "" && a.content in p.cache && p.cache[a.content] != ""
    ensures var s := p.cache[a.content];
      ArticleStep(p, a, now)
        == Progress(p.events + [Posted(a, s), Inserted(a.url, RowOf(a, s, now))], p.cache, p.replies, true)
  {
    assert p.replies[0..] == p.replies;
  }

  /**
   * The article loop does not consult the store again: an article listed
   * twice in one listing (the same href on both pages, or twice on one
   * page) is posted and written twice, the second time with the summary
   * the cache kept from the first, using no further reply.
   */
  lemma ListedTwicePostedTwice(p: Progress, a: Article, s: string, now: string)
    requires p.finished && a.content != "" && a.content !in p.cache
    requires |p.replies| > 0 && p.replies[0] == Completion(s) && Accepts(Strip(s))
    ensures var t := Strip(s);
      var pair := [Posted(a, t), Inserted(a.url, RowOf(a, t, now))];
      && Drain(p, [a, a], now).events == p.events + pair + pair
      && Drain(p, [a, a], now).replies == p.replies[1..]
  {
    var t := Strip(s);
    CountAbsent(t, '.');
    var q := ArticleStep(p, a, now);
    assert q == Progress(p.events + [Posted(a, t), Inserted(a.url, RowOf(a, t, now))],
                         p.cache[a.content := t], p.replies[1..], true);
    CachedArticlePosted(q, a, now);
    assert [a][..0] == [];
    assert Drain(p, [a], now) == q;
    assert [a, a][..1] == [a];
    assert Drain(p, [a, a], now) == ArticleStep(q, a, now);
  }

  /**
   * One article step keeps the discipline, provided the article is of one
   * of the feeds and is not in the store the cycle started with.
   */
  lemma ArticleStepSound(p: Progress, a: Article, rows0: map<string, Row>, now: string)
    requires Sound(p, rows0, now)
    requires a.url !in rows0 && a.category in Feeds && a.publishedDate == now
    ensures Sound(ArticleStep(p, a, now), rows0, now)
  {
    if a.content != "" {
      CacheStaysValid(p.cache, a.content, p.replies);
      var (o, cache, used) := SummarizeCached(p.cache, a.content, p.replies);
      if o.Returned? && o.summary != "" {
        var posted := Posted(a, o.summary);
        WellFormedPost(p.events, rows0, Feeds, now, a, o.summary);
        WellFormedInsert(p.events + [posted], rows0, Feeds, now);
        assert p.events + [posted] + [Inserted(a.url, RowOf(a, o.summary, now))]
            == p.events + [posted, Inserted(a.url, RowOf(a, o.summary, now))];
        PostsWrittenAppend(p.events, a, o.summary, now);
      }
    }
  }

  lemma {:induction false} DrainSound(p: Progress, articles: seq<Article>, rows0: map<string, Row>, now: string)
    requires Sound(p, rows0, now)
    requires forall i :: 0 <= i < |articles| ==>
      articles[i].url !in rows0 && articles[i].category in Feeds && articles[i].publishedDate == now
    ensures Sound(Drain(p, articles, now), rows0, now)
  {
    if articles != [] {
      var init := articles[..|articles| - 1];
      DrainSound(p, init, rows0, now);
      if Drain(p, init, now).finished {
        ArticleStepSound(Drain(p, init, now), articles[|articles| - 1], rows0, now);
      }
    }
  }

  lemma {:induction false} CycleUpToSound(rows0: map<string, Row>, k: nat, list: Lister,
                                          replies: seq<Reply>, now: string)
    requires k <= |ArticleTypes| && ListsNew(list, now)
    ensures Sound(CycleUpTo(rows0, k, list, replies, now), rows0, now)
  {
    if k > 0 {
      var p := CycleUpTo(rows0, k - 1, list, replies, now);
      CycleUpToSound(rows0, k - 1, list, replies, now);
      if p.finished {
        var rows := Replay(rows0, p.events);
        var category := ArticleTypes[k - 1];
        var articles := list(rows, category);
        forall i | 0 <= i < |articles|
          ensures articles[i].url !in rows0 && articles[i].category in Feeds
          ensures articles[i].publishedDate == now
        {
          assert articles[i] in list(rows, category);
          ReplaySpec(rows0, p.events, Feeds, now, articles[i].url);
        }
        DrainSound(p, articles, rows0, now);
      }
    }
  }

  /**
   * What a cycle does, whatever the pages, the extractions and the service
   * replies: it posts only articles of the three feeds that were not in the
   * store, each with a summary that passed the gate, and writes each one
   * right after posting it, and every write follows the post of its
   * article. So no row with an empty summary is ever written, no row
   * present before the cycle is overwritten, and a URL that was not in the
   * store gets a row exactly when its article was posted.
   */
  lemma CycleSound(rows0: map<string, Row>, fetch: string -> ListingFetch,
                   extract: string -> Extraction, replies: seq<Reply>, now: string, u: string)
    ensures WellFormed(Cycle(rows0, fetch, extract, replies, now).events, rows0, Feeds, now)
    ensures PostsWritten(Cycle(rows0, fetch, extract, replies, now).events, now)
    ensures var p := Cycle(rows0, fetch, extract, replies, now);
      var rows := Replay(rows0, p.events);
      && (u in rows0 ==> u in rows && rows[u] == rows0[u])
      && (u in rows && u !in rows0 ==> Accepts(rows[u].summary) && rows[u].summary != "")
      && (u !in rows0 ==>
            (u in rows <==> exists i :: 0 <= i < |p.events| && p.events[i].Posted? && p.events[i].article.url == u))
  {
    var p := Cycle(rows0, fetch, extract, replies, now);
    ListingsListNew(fetch, extract, now);
    CycleUpToSound(rows0, |ArticleTypes|, Listings(fetch, extract, now), replies, now);
    ReplaySpec(rows0, p.events, Feeds, now, u);
    var rows := Replay(rows0, p.events);
    if u in rows && u !in rows0 {
      CountAbsent(rows[u].summary, '.');
    }
    if exists i :: 0 <= i < |p.events| && p.events[i].Posted? && p.events[i].article.url == u {
      var i :| 0 <= i < |p.events| && p.events[i].Posted? && p.events[i].article.url == u;
      PostedStored(rows0, p.events, now, i);
    }
  }

  /**
   * Two cycles in a row, each over pages, extractions and replies of its
   * own (the site changes between runs): nothing the first cycle wrote, and
   * nothing already in the store before it, is posted again by the second,
   * because the store filters the listings.
   */
  lemma NextCycleSkipsWritten(rows0: map<string, Row>, fetch: string -> ListingFetch,
                              extract: string -> Extraction, first: seq<Reply>,
                              fetch2: string -> ListingFetch, extract2: string -> Extraction,
                              second: seq<Reply>, now: string, later: string, i: nat)
    ensures var p := Cycle(rows0, fetch, extract, first, now);
      var q := Cycle(Replay(rows0, p.events), fetch2, extract2, second, later);
      i < |q.events| && q.events[i].Posted? ==>
        && q.events[i].article.url !in rows0
        && forall j :: 0 <= j < |p.events| && p.events[j].Inserted? ==> p.events[j].url != q.events[i].article.url
  {
    var p := Cycle(rows0, fetch, extract, first, now);
    var rows1 := Replay(rows0, p.events);
    var q := Cycle(rows1, fetch2, extract2, second, later);
    if i < |q.events| && q.events[i].Posted? {
      CycleSound(rows1, fetch2, extract2, second, later, "");
      assert GoodPost(q.events[i], rows1, Feeds, later);
      ReplayKeys(rows0, p.events, q.events[i].article.url);
    }
  }

  /**
   * The body of the article loop of `process_articles`: summarize, and on
   * a non-empty summary post and then write. `events` is the cycle's log so
   * far; the store is that log replayed over `rows0`.
   */
  method HandleArticle(db: DatabaseManager, summarizer: GroqSummarizer, article: Article,
                       ghost rows0: map<string, Row>, events: seq<Event>, pending: seq<Reply>,
                       now: string)
    returns (events': seq<Event>, pending': seq<Reply>, finished: bool)
    modifies db, summarizer
    requires db.rows == Replay(rows0, events)
    ensures Progress(events', summarizer.cache, pending', finished)
         == ArticleStep(Progress(events, old(summarizer.cache), pending, true), article, now)
    ensures db.rows == Replay(rows0, events')
  {
    events', pending', finished := events, pending, true;
    if article.content != "" {
      var outcome, used := summarizer.Summarize(article.content, pending);
      pending' := pending[used..];
      if outcome.Unfinished? {
        finished := false;
        return;
      }
      var summary := outcome.summary;
      if summary != "" {
        ReplayPost(rows0, events', Posted(article, summary));
        events' := events' + [Posted(article, summary)];
        ReplayInsert(rows0, events', article.url, RowOf(article, summary, now));
        db.InsertArticle(article, summary, now);
        events' := events' + [Inserted(article.url, RowOf(article, summary, now))];
      }
    }
  }

  /** The article loop of `process_articles` for one category's articles. */
  method HandleArticles(db: DatabaseManager, summarizer: GroqSummarizer, articles: seq<Article>,
                        ghost rows0: map<string, Row>, events: seq<Event>, pending: seq<Reply>,
                        now: string)
    returns (events': seq<Event>, pending': seq<Reply>, finished: bool)
    modifies db, summarizer
    requires db.rows == Replay(rows0, events)
    ensures Progress(events', summarizer.cache, pending', finished)
         == Drain(Progress(events, old(summarizer.cache), pending, true), articles, now)
    ensures db.rows == Replay(rows0, events')
  {
    ghost var start := Progress(events, summarizer.cache, pending, true);
    events', pending', finished := events, pending, true;
    for j := 0 to |articles|
      invariant db.rows == Replay(rows0, events')
      invariant Drain(start, articles[..j], now) == Progress(events', summarizer.cache, pending', true)
    {
      DrainStep(start, articles, j, now);
      events', pending', finished := HandleArticle(db, summarizer, articles[j], rows0, events', pending', now);
      if !finished {
        DrainStopped(start, articles, j + 1, now);
        return;
      }
    }
    assert articles[..|articles|] == articles;
  }

  /**
   * `list` is `get_latest_articles` with its default two pages. (The fact
   * is used only where a listing is actually taken.)
   */
  ghost predicate ListsLatest(list: Lister, fetch: string -> ListingFetch,
                              extract: string -> Extraction, now: string)
  {
    forall rows, category {:trigger LatestArticles(rows, category, DefaultPages, fetch, extract, now)} ::
      list(rows, category) == LatestArticles(rows, category, DefaultPages, fetch, extract, now)
  }

  lemma ListingsListLatest(fetch: string -> ListingFetch, extract: string -> Extraction, now: string)
    ensures ListsLatest(Listings(fetch, extract, now), fetch, extract, now)
  {
    forall rows, category
      ensures Listings(fetch, extract, now)(rows, category) == LatestArticles(rows, category, DefaultPages, fetch, extract, now)
    {
    }
  }

  /**
   * One category of `process_articles`: list its latest articles against
   * the store as it is now, then run the article loop over them.
   */
  method HandleCategory(db: DatabaseManager, summarizer: GroqSummarizer, c: nat, ghost list: Lister,
                        ghost rows0: map<string, Row>, events: seq<Event>, pending: seq<Reply>,
                        fetch: string -> ListingFetch, extract: string -> Extraction,
                        ghost replies: seq<Reply>, now: string)
    returns (events': seq<Event>, pending': seq<Reply>, finished: bool)
    modifies db, summarizer
    requires ListsLatest(list, fetch, extract, now)
    requires c < |ArticleTypes| && db.rows == Replay(rows0, events)
    requires CycleUpTo(rows0, c, list, replies, now) == Progress(events, summarizer.cache, pending, true)
    ensures CycleUpTo(rows0, c + 1, list, replies, now) == Progress(events', summarizer.cache, pending', finished)
    ensures !finished ==>
      CycleUpTo(rows0, |ArticleTypes|, list, replies, now) == Progress(events', summarizer.cache, pending', false)
    ensures db.rows == Replay(rows0, events')
  {
    var articles := GetLatestArticles(db, ArticleTypes[c], DefaultPages, fetch, extract, now);
    CycleUpToStep(rows0, c, list, replies, now);
    events', pending', finished := HandleArticles(db, summarizer, articles, rows0, events, pending, now);
    if !finished {
      CycleStopped(rows0, c + 1, |ArticleTypes|, list, replies, now);
    }
  }

  /**
   * The category loop of `process_articles`, run with the summarizer it
   * was given; it stops early only when the service replies run out.
   */
  method HandleCategories(db: DatabaseManager, summarizer: GroqSummarizer, ghost list: Lister,
                          fetch: string -> ListingFetch, extract: string -> Extraction,
                          replies: seq<Reply>, now: string)
    returns (events: seq<Event>, finished: bool)
    modifies db, summarizer
    requires ListsLatest(list, fetch, extract, now) && summarizer.cache == map[]
    ensures var p := CycleUpTo(old(db.rows), |ArticleTypes|, list, replies, now);
      events == p.events && finished == p.finished
    ensures db.rows == Replay(old(db.rows), events)
  {
    ghost var rows0 := db.rows;
    events := [];
    finished := true;
    var pending := replies;
    for c := 0 to |ArticleTypes|
      invariant db.rows == Replay(rows0, events)
      invariant CycleUpTo(rows0, c, list, replies, now) == Progress(events, summarizer.cache, pending, true)
    {
      events, pending, finished :=
        HandleCategory(db, summarizer, c, list, rows0, events, pending, fetch, extract, replies, now);
      if !finished {
        return;
      }
    }
  }

  /**
   * `process_articles`: one cycle over the three feeds, in order, with a
   * fresh summarizer whose cache lives for the cycle. The scripted service
   * replies are shared by every summary of the cycle; `finished` is false
   * when they ran out before a summary was settled (the model has no
   * recursion limit to end the retries), and the cycle stops there. The store ends as the cycle's writes replayed.
   */
  method ProcessArticles(db: DatabaseManager, fetch: string -> ListingFetch,
                         extract: string -> Extraction, replies: seq<Reply>, now: string)
    returns (events: seq<Event>, finished: bool)
    modifies db
    ensures events == Cycle(old(db.rows), fetch, extract, replies, now).events
    ensures finished == Cycle(old(db.rows), fetch, extract, replies, now).finished
    ensures db.rows == Replay(old(db.rows), events)
  {
    var summarizer := new GroqSummarizer();
    ListingsListLatest(fetch, extract, now);
    events, finished := HandleCategories(db, summarizer, Listings(fetch, extract, now), fetch, extract, replies, now);
  }
}
