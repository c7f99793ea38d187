/**
 * The seen-URL store: the `articles` table, keyed by `url`, that both
 * pipelines consult before crawling a URL and write once an article has
 * been summarized and posted. Only its map semantics are modelled.
 */
module Store {
  import opened Wrappers

  /** An article as the crawler hands it on (the Python dict of process_article). */
  datatype Article = Article(
    title: string,
    content: string,
    url: string,
    category: string,
    publishedDate: string)

  /** The non-key columns of one row of the `articles` table. */
  datatype Row = Row(
    title: string,
    category: string,
    publishedDate: string,
    crawledDate: string,
    summary: string)

  /** A headline link target: `None` when the anchor has no `href` attribute. */
  type Href = Option<string>

  /**
   * `SELECT url FROM articles WHERE url = ?` finds a row. A missing href
   * is bound as SQL NULL, which equals nothing, so it never counts as crawled.
   */
  predicate Crawled(rows: map<string, Row>, href: Href)
  {
    href.Some? && href.value in rows
  }

  function RowOf(a: Article, summary: string, crawledDate: string): Row
  {
    Row(a.title, a.category, a.publishedDate, crawledDate, summary)
  }

  /**
   * The table after `INSERT OR REPLACE` of `a` with `summary`: the row
   * keyed by `a.url` is exactly the new one, every other URL keeps its
   * row, and the set of URLs grows by at most that one.
   */
  function Upserted(rows: map<string, Row>, a: Article, summary: string, crawledDate: string)
    : (r: map<string, Row>)
    ensures r.Keys == rows.Keys + {a.url}
    ensures r[a.url].title == a.title && r[a.url].category == a.category
    ensures r[a.url].publishedDate == a.publishedDate && r[a.url].summary == summary
    ensures r[a.url].crawledDate == crawledDate
    ensures forall u :: u in rows && u != a.url ==> r[u] == rows[u]
    ensures |r| == if a.url in rows then |rows| else |rows| + 1
  {
    rows[a.url := RowOf(a, summary, crawledDate)]
  }

  /**
   * Replace-on-conflict: a second insert for the same URL leaves one row,
   * the last one written, whatever the first insert wrote.
   */
  lemma UpsertLastWriteWins(rows: map<string, Row>, a: Article, s: string, d: string,
                            b: Article, t: string, e: string)
    requires a.url == b.url
    ensures Upserted(Upserted(rows, a, s, d), b, t, e) == Upserted(rows, b, t, e)
    ensures |Upserted(Upserted(rows, a, s, d), b, t, e)| == |Upserted(rows, a, s, d)|
  {
  }

  /**
   * The query after an insert: the article's URL is now crawled, and any
   * other href is crawled exactly when it was before.
   */
  lemma CrawledAfterUpsert(rows: map<string, Row>, a: Article, summary: string, crawledDate: string, h: Href)
    ensures Crawled(Upserted(rows, a, summary, crawledDate), h) <==> h == Some(a.url) || Crawled(rows, h)
  {
  }

  /** `DatabaseManager`: the durable `articles` table as a map from URL to row. */
  class DatabaseManager {
    var rows: map<string, Row>

    /**
     * Opening the database file and `CREATE TABLE IF NOT EXISTS`: the rows
     * already in the file are kept as they are.
     */
    constructor (existing: map<string, Row>)
      ensures rows == existing
    {
      rows := existing;
    }

    /** `insert_article`: an upsert keyed by the article's URL. */
    method InsertArticle(a: Article, summary: string, crawledDate: string)
      modifies this
      ensures rows == Upserted(old(rows), a, summary, crawledDate)
    {
      rows := rows[a.url := RowOf(a, summary, crawledDate)];
    }

    /** `is_article_crawled`: whether a row with this URL exists. */
    method IsArticleCrawled(url: Href) returns (crawled: bool)
      ensures crawled == Crawled(rows, url)
    {
      crawled := url.Some? && url.value in rows;
    }
  }
}
