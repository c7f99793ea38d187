/**
 * The earlier, synchronous pipeline of test_mvp.py. It crawls the eleven
 * news sections instead of three feeds. It assembles an article from
 * lazily extracted parts, so an article needs only a title, and one failing
 * page discards a whole category. It summarizes without a cache. It can
 * also write one article's text to a file.
 */
module Mvp {
  import opened Wrappers
  import opened Text
  import opened Store
  import opened Listing
  import opened Summarizer
  import opened Telegram
  import opened Journal

  /** `article_type_dict.values()`, in key order 0 to 10. */
  const Categories: seq<string> := [
    "thoi-su", "du-lich", "the-gioi", "kinh-doanh", "khoa-hoc", "giai-tri",
    "the-thao", "phap-luat", "giao-duc", "suc-khoe", "doi-song"]

  /** The sections as a set, for stating which categories a cycle can post. */
  const Sections: set<string> := set c | c in Categories

  /** The default `pages` of `get_latest_articles`, which `process_articles` uses. */
  const DefaultPages: nat := 2

  /**
   * What `extract_content` gives for an article URL:
   * - `NoTitle`: no `h1.title-detail`, or the request raised (`None, None, None`).
   * - `Parts`: the stripped title; the non-blank stripped texts of the
   *   description tag's children, or `None` when there is no such tag; and the
   *   stripped texts of the body paragraphs.
   * - `Faulty`: description and paragraphs are lazy generators in the source,
   *   so an error while reading the page can surface only once a caller
   *   consumes them; such a page has this title, and its generators raise.
   */
  datatype Extraction =
    | NoTitle
    | Parts(title: string, description: Option<seq<string>>, paragraphs: seq<string>)
    | Faulty(title: string)

  // ---------------------------------------------------------------------
  // write_content
  // ---------------------------------------------------------------------

  /** Text made of the given lines, each followed by a line break. */
  function Lines(xs: seq<string>): string
  {
    if xs == [] then "" else Lines(xs[..|xs| - 1]) + xs[|xs| - 1] + "\n"
  }

  lemma {:induction false} LinesAppend(xs: seq<string>, ys: seq<string>)
    ensures Lines(xs + ys) == Lines(xs) + Lines(ys)
  {
    if ys == [] {
      assert xs + ys == xs;
    } else {
      var ys' := ys[..|ys| - 1];
      assert (xs + ys)[..|xs + ys| - 1] == xs + ys';
      LinesAppend(xs, ys');
    }
  }

  lemma LinesSnoc(xs: seq<string>, x: string)
    ensures Lines(xs + [x]) == Lines(xs) + x + "\n"
  {
    assert (xs + [x])[..|xs|] == xs;
  }

  lemma LinesTwo(a: string, b: string)
    ensures Lines([a, b]) == a + "\n" + b + "\n"
  {
    assert [a, b][..1] == [a];
    assert [a][..0] == [];
    assert Lines([a]) == a + "\n";
  }

  /** Lines written one by one are the lines joined by breaks, plus a final break. */
  lemma {:induction false} LinesJoin(xs: seq<string>)
    ensures Lines(xs) == Join("\n", xs + [""])
  {
    if xs != [] {
      var init := xs[..|xs| - 1];
      var last := xs[|xs| - 1];
      LinesJoin(init);
      assert xs == init + [last];
      if init == [] {
        assert Join("\n", xs + [""]) == last + "\n" + Join("\n", [""]);
      } else {
        JoinAppend("\n", init, [""]);
        JoinAppend("\n", init, [last, ""]);
        assert init + [last, ""] == xs + [""];
        assert Join("\n", [last, ""]) == last + "\n" + Join("\n", [""]);
      }
    }
  }

  /**
   * The lines `write_content` writes: the title and a blank line; when the
   * description tag exists, a heading, its pieces and a blank line; then a
   * heading and the paragraphs. The paragraphs are a generator, always
   * truthy, so their heading is written even when there are none.
   */
  function FileLines(title: string, description: Option<seq<string>>, paragraphs: seq<string>)
    : seq<string>
  {
    ["Title: " + title, ""]
    + (if description.Some? then ["Description:"] + description.value + [""] else [])
    + ["Content:"] + paragraphs
  }

  /**
   * Reading the file back line by line gives its layout, provided no piece
   * of the page holds a line break: the line after the last one is empty.
   */
  lemma FileLayout(title: string, description: Option<seq<string>>, paragraphs: seq<string>)
    requires '\n' !in title
    requires description.Some? ==> forall i :: 0 <= i < |description.value| ==> '\n' !in description.value[i]
    requires forall i :: 0 <= i < |paragraphs| ==> '\n' !in paragraphs[i]
    ensures Split(Lines(FileLines(title, description, paragraphs)), '\n')
         == FileLines(title, description, paragraphs) + [""]
  {
    var ls := FileLines(title, description, paragraphs);
    var head := ["Title: " + title, ""];
    var rest := ls[2..];
    assert ls == head + rest;
    assert '\n' !in "Title: " + title;
    forall i | 0 <= i < |ls + [""]| ensures '\n' !in (ls + [""])[i] {
      if 2 <= i < |ls| {
        if description.Some? && i < 3 + |description.value| {
          if 3 <= i {
            assert ls[i] == description.value[i - 3];
          }
        } else {
          var k := if description.Some? then 4 + |description.value| else 2;
          if k < i {
            assert ls[i] == paragraphs[i - k - 1];
          }
        }
      }
    }
    LinesJoin(ls);
    SplitJoin(ls + [""], '\n');
  }

  /** Appends each of `xs` followed by a line break: the `for ... f.write` loops. */
  method WriteEach(file: string, xs: seq<string>) returns (file': string)
    ensures file' == file + Lines(xs)
  {
    file' := file;
    for i := 0 to |xs|
      invariant file' == file + Lines(xs[..i])
    {
      assert xs[..i + 1][..i] == xs[..i];
      file' := file' + xs[i] + "\n";
    }
    assert xs[..|xs|] == xs;
  }

  /** The description block: a heading, each piece on its own line, a blank line. */
  method WriteDescription(file: string, description: seq<string>) returns (file': string)
    ensures file' == file + Lines(["Description:"] + description + [""])
  {
    file' := file + "Description:" + "\n";
    file' := WriteEach(file', description);
    file' := file' + "\n";
    LinesSnoc([], "Description:");
    LinesAppend(["Description:"], description);
    LinesSnoc(["Description:"] + description, "");
  }

  /** The writes inside the `with open(...)` block, in order. */
  method WriteFile(title: string, description: Option<seq<string>>, paragraphs: seq<string>)
    returns (file: string)
    ensures file == Lines(FileLines(title, description, paragraphs))
  {
    var head := ["Title: " + title, ""];
    var block := if description.Some? then ["Description:"] + description.value + [""] else [];
    file := "Title: " + title + "\n" + "\n";
    LinesTwo("Title: " + title, "");
    if description.Some? {
      file := WriteDescription(file, description.value);
    }
    LinesAppend(head, block);
    LinesSnoc(head + block, "Content:");
    file := file + "Content:" + "\n";
    LinesAppend(head + block + ["Content:"], paragraphs);
    file := WriteEach(file, paragraphs);
  }

  /**
   * `write_content`: `ok` is the returned flag and `file` what the output
   * file holds once it is closed. It fails when the page has no title,
   * when the file cannot be opened (`writable` is false) and when the
   * page's generators raise.
   */
  method WriteContent(url: string, extract: string -> Extraction, writable: bool)
    returns (ok: bool, file: Option<string>)
    ensures ok <==> file.Some?
    ensures ok <==> extract(url).Parts? && extract(url).title != "" && writable
    ensures ok ==> file.value == Lines(FileLines(extract(url).title, extract(url).description,
                                                 extract(url).paragraphs))
  {
    match extract(url)
    case NoTitle =>
      return false, None;
    case Faulty(_) =>
      // no title, or an exception once the generators are read
      return false, None;
    case Parts(title, description, paragraphs) =>
      if title == "" || !writable {
        return false, None;
      }
      var text := WriteFile(title, description, paragraphs);
      return true, Some(text);
  }

  // ---------------------------------------------------------------------
  // get_latest_articles
  // ---------------------------------------------------------------------

  /** What the page loop makes of one listed URL. */
  datatype Assembled =
    | Skipped          // no title: nothing is appended
    | Made(article: Article)
    | Raised           // the generators raised: the whole call returns []

  /**
   * The `content +=` steps: the description pieces joined by spaces when
   * the tag exists, then a space and the paragraphs joined by spaces (the
   * paragraph generator is always truthy).
   */
  function Content(description: Option<seq<string>>, paragraphs: seq<string>): string
  {
    (if description.Some? then Join(" ", description.value) else "") + " " + Join(" ", paragraphs)
  }

  /**
   * The body of the URL loop. An href of `None` makes the request raise
   * inside `extract_content`, which then reports no title.
   */
  function Assemble(href: Href, articleType: string, extract: string -> Extraction, now: string)
    : Assembled
  {
    if href.None? then Skipped
    else match extract(href.value)
      case NoTitle => Skipped
      case Faulty(title) => if title != "" then Raised else Skipped
      case Parts(title, description, paragraphs) =>
        if title != "" then Made(Article(title, Content(description, paragraphs), href.value, articleType, now))
        else Skipped
  }

  /**
   * An article is made exactly when the page has a non-empty title: the
   * `description or paragraphs` test cannot fail on generators. The call
   * raises exactly when a page with a title has failing generators.
   */
  lemma AssembleSpec(href: Href, articleType: string, extract: string -> Extraction, now: string)
    ensures Assemble(href, articleType, extract, now).Made? <==>
      href.Some? && extract(href.value).Parts? && extract(href.value).title != ""
    ensures Assemble(href, articleType, extract, now).Raised? <==>
      href.Some? && extract(href.value).Faulty? && extract(href.value).title != ""
    ensures Assemble(href, articleType, extract, now).Made? ==>
      var a := Assemble(href, articleType, extract, now).article;
      var e := extract(href.value);
      && href == Some(a.url) && a.category == articleType && a.publishedDate == now
      && a.title == e.title && a.content == Content(e.description, e.paragraphs)
  {
  }

  /**
   * The content is never empty, so `process_articles` summarizes every
   * article; split at spaces it gives the description pieces and then the
   * paragraphs, when none of them holds a space and both are there.
   */
  lemma ContentSpec(description: Option<seq<string>>, paragraphs: seq<string>)
    ensures ' ' in Content(description, paragraphs)
    ensures description.Some? && |description.value| > 0 && |paragraphs| > 0
         && (forall i :: 0 <= i < |description.value| ==> ' ' !in description.value[i])
         && (forall i :: 0 <= i < |paragraphs| ==> ' ' !in paragraphs[i])
         ==> Split(Content(description, paragraphs), ' ') == description.value + paragraphs
  {
    var c := Content(description, paragraphs);
    var prefix := if description.Some? then Join(" ", description.value) else "";
    assert c == prefix + " " + Join(" ", paragraphs);
    assert c[|prefix|] == ' ';
    if description.Some? && |description.value| > 0 && |paragraphs| > 0
       && (forall i :: 0 <= i < |description.value| ==> ' ' !in description.value[i])
       && (forall i :: 0 <= i < |paragraphs| ==> ' ' !in paragraphs[i])
    {
      var ds := description.value;
      JoinAppend(" ", ds, paragraphs);
      forall i | 0 <= i < |ds + paragraphs| ensures ' ' !in (ds + paragraphs)[i] {
        if i >= |ds| {
          assert (ds + paragraphs)[i] == paragraphs[i - |ds|];
        }
      }
      SplitJoin(ds + paragraphs, ' ');
    }
  }

  /** One result per listed URL, in URL order. */
  function AssembleAll(hrefs: seq<Href>, articleType: string, extract: string -> Extraction, now: string)
    : seq<Assembled>
  {
    seq(|hrefs|, i requires 0 <= i < |hrefs| => Assemble(hrefs[i], articleType, extract, now))
  }

  /** The results of each listing page of one category. */
  function StepsByPage(rows: map<string, Row>, articleType: string,
                       fetch: string -> ListingFetch, extract: string -> Extraction, now: string)
    : nat -> seq<Assembled>
  {
    (p: nat) => AssembleAll(UrlsOfPage(rows, fetch(PageUrl(articleType, p))), articleType, extract, now)
  }

  /**
   * The list the page loop accumulates: the made articles in order, or
   * `None` once some URL raised (the handler then discards the list).
   */
  function Collected(xs: seq<Assembled>): Option<seq<Article>>
  {
    if xs == [] then Some([])
    else
      var init := Collected(xs[..|xs| - 1]);
      match xs[|xs| - 1]
      case Skipped => init
      case Raised => None
      case Made(a) => if init.None? then None else Some(init.value + [a])
  }

  lemma CollectedSnoc(xs: seq<Assembled>, x: Assembled)
    ensures Collected(xs + [x]) ==
      match x
      case Skipped => Collected(xs)
      case Raised => None
      case Made(a) => if Collected(xs).None? then None else Some(Collected(xs).value + [a])
  {
    assert (xs + [x])[..|xs|] == xs;
  }

  /** The list is discarded exactly when some URL raised; otherwise it holds exactly the made articles. */
  lemma {:induction false} CollectedSpec(xs: seq<Assembled>, a: Article)
    ensures Collected(xs).None? <==> Raised in xs
    ensures Collected(xs).Some? ==> (a in Collected(xs).value <==> Made(a) in xs)
  {
    if xs != [] {
      var init := xs[..|xs| - 1];
      assert xs == init + [xs[|xs| - 1]];
      CollectedSpec(init, a);
    }
  }

  /** Once a URL has raised, nothing later brings the list back. */
  lemma {:induction false} CollectedPrefix(xs: seq<Assembled>, ys: seq<Assembled>)
    requires xs <= ys && Collected(xs).None?
    ensures Collected(ys).None?
    decreases |ys|
  {
    if |xs| < |ys| {
      var init := ys[..|ys| - 1];
      assert xs <= init;
      CollectedPrefix(xs, init);
      CollectedSnoc(init, ys[|ys| - 1]);
      assert init + [ys[|ys| - 1]] == ys;
    } else {
      assert xs == ys;
    }
  }

  /** What `get_latest_articles(article_type, pages)` returns. */
  function LatestArticles(rows: map<string, Row>, articleType: string, pages: nat,
                          fetch: string -> ListingFetch, extract: string -> Extraction, now: string)
    : seq<Article>
  {
    var c := Collected(Paged(StepsByPage(rows, articleType, fetch, extract, now), pages));
    if c.Some? then c.value else []
  }

  /**
   * One raising URL on any page gives `[]`, even if articles were collected
   * before it; otherwise an article is returned exactly when some URL of
   * some page from 1 to `pages` assembles into it.
   */
  lemma LatestArticlesSpec(rows: map<string, Row>, articleType: string, pages: nat,
                           fetch: string -> ListingFetch, extract: string -> Extraction,
                           now: string, a: Article)
    ensures (exists p: nat :: 1 <= p <= pages &&
               Raised in StepsByPage(rows, articleType, fetch, extract, now)(p))
        ==> LatestArticles(rows, articleType, pages, fetch, extract, now) == []
    ensures (forall p: nat :: 1 <= p <= pages ==>
               Raised !in StepsByPage(rows, articleType, fetch, extract, now)(p))
        ==> (a in LatestArticles(rows, articleType, pages, fetch, extract, now) <==>
             exists p: nat, h :: 1 <= p <= pages && h in UrlsOfPage(rows, fetch(PageUrl(articleType, p)))
               && Assemble(h, articleType, extract, now) == Made(a))
  {
    var steps := StepsByPage(rows, articleType, fetch, extract, now);
    var all := Paged(steps, pages);
    CollectedSpec(all, a);
    PagedSpec(steps, pages, Raised);
    PagedSpec(steps, pages, Made(a));
    if a in LatestArticles(rows, articleType, pages, fetch, extract, now) {
      var p: nat :| 1 <= p <= pages && Made(a) in steps(p);
      MadeOnPage(rows, articleType, p, fetch, extract, now, a);
    }
    if exists p: nat, h :: 1 <= p <= pages && h in UrlsOfPage(rows, fetch(PageUrl(articleType, p)))
         && Assemble(h, articleType, extract, now) == Made(a) {
      var p: nat, h :| 1 <= p <= pages && h in UrlsOfPage(rows, fetch(PageUrl(articleType, p)))
         && Assemble(h, articleType, extract, now) == Made(a);
      MadeOnPage(rows, articleType, p, fetch, extract, now, a);
    }
  }

  /** A page's results hold an article exactly when one of its listed hrefs assembles into it. */
  lemma MadeOnPage(rows: map<string, Row>, articleType: string, p: nat,
                   fetch: string -> ListingFetch, extract: string -> Extraction, now: string, a: Article)
    ensures Made(a) in StepsByPage(rows, articleType, fetch, extract, now)(p) <==>
      exists h :: h in UrlsOfPage(rows, fetch(PageUrl(articleType, p)))
        && Assemble(h, articleType, extract, now) == Made(a)
  {
    var urls := UrlsOfPage(rows, fetch(PageUrl(articleType, p)));
    var results := StepsByPage(rows, articleType, fetch, extract, now)(p);
    assert results == AssembleAll(urls, articleType, extract, now);
    if Made(a) in results {
      var k :| 0 <= k < |results| && results[k] == Made(a);
      assert urls[k] in urls;
    }
    if exists h :: h in urls && Assemble(h, articleType, extract, now) == Made(a) {
      var h :| h in urls && Assemble(h, articleType, extract, now) == Made(a);
      var k :| 0 <= k < |urls| && urls[k] == h;
      assert results[k] == Made(a);
    }
  }

  /**
   * Every returned article belongs to the requested category, comes from a
   * URL not in the store, and has a title and non-empty content.
   */
  lemma LatestArticlesSound(rows: map<string, Row>, articleType: string, pages: nat,
                            fetch: string -> ListingFetch, extract: string -> Extraction,
                            now: string, a: Article)
    requires a in LatestArticles(rows, articleType, pages, fetch, extract, now)
    ensures a.category == articleType && a.url !in rows && a.publishedDate == now
    ensures a.title != "" && a.content != ""
  {
    LatestArticlesSpec(rows, articleType, pages, fetch, extract, now, a);
    var steps := StepsByPage(rows, articleType, fetch, extract, now);
    var all := Paged(steps, pages);
    CollectedSpec(all, a);
    PagedSpec(steps, pages, Raised);
    var p: nat, h :| 1 <= p <= pages && h in UrlsOfPage(rows, fetch(PageUrl(articleType, p)))
       && Assemble(h, articleType, extract, now) == Made(a);
    UrlsOfPageUncrawled(rows, fetch(PageUrl(articleType, p)), h);
    var e := extract(h.value);
    ContentSpec(e.description, e.paragraphs);
  }

  /**
   * The body of the URL loop: extract the URL and, when the page has a
   * title, build its content step by step.
   */
  method AssembleOne(href: Href, articleType: string, extract: string -> Extraction, now: string)
    returns (r: Assembled)
    ensures r == Assemble(href, articleType, extract, now)
  {
    var extraction := if href.Some? then extract(href.value) else NoTitle;
    match extraction
    case NoTitle =>
      return Skipped;
    case Faulty(title) =>
      return if title != "" then Raised else Skipped;
    case Parts(title, description, paragraphs) =>
      if title == "" {
        return Skipped;
      }
      var content := "";
      if description.Some? {
        content := content + Join(" ", description.value);
      }
      content := content + " " + Join(" ", paragraphs);
      return Made(Article(title, content, href.value, articleType, now));
  }

  /** One more result of a page, seen from the list accumulated before it. */
  lemma CollectedStep(xs: seq<Assembled>, all: seq<Assembled>, j: nat)
    requires j < |all| && Collected(xs + all[..j]).Some?
    ensures var acc := Collected(xs + all[..j]).value;
      Collected(xs + all[..j + 1]) ==
        match all[j]
        case Skipped => Some(acc)
        case Raised => None
        case Made(a) => Some(acc + [a])
  {
    assert xs + all[..j + 1] == (xs + all[..j]) + [all[j]];
    CollectedSnoc(xs + all[..j], all[j]);
  }

  /** A raise part-way through a page discards the page's whole result. */
  lemma CollectedRaisedRest(xs: seq<Assembled>, all: seq<Assembled>, j: nat)
    requires j <= |all| && Collected(xs + all[..j]).None?
    ensures Collected(xs + all).None?
  {
    assert xs + all[..j] <= xs + all;
    CollectedPrefix(xs + all[..j], xs + all);
  }

  /**
   * The URL loop of one page, appending each article made. `ok` is false
   * when a page's generators raised, which abandons the whole call.
   */
  method CollectPage(urls: seq<Href>, articleType: string, extract: string -> Extraction, now: string,
                     ghost before: seq<Assembled>, articles: seq<Article>)
    returns (articles': seq<Article>, ok: bool)
    requires Collected(before) == Some(articles)
    ensures ok ==> Collected(before + AssembleAll(urls, articleType, extract, now)) == Some(articles')
    ensures !ok ==> Collected(before + AssembleAll(urls, articleType, extract, now)).None?
  {
    articles' := articles;
    ghost var all := AssembleAll(urls, articleType, extract, now);
    assert before + all[..0] == before;
    for j := 0 to |urls|
      invariant Collected(before + all[..j]) == Some(articles')
    {
      var r := AssembleOne(urls[j], articleType, extract, now);
      assert all[j] == r;
      CollectedStep(before, all, j);
      if r.Raised? {
        CollectedRaisedRest(before, all, j + 1);
        return articles', false;
      }
      if r.Made? {
        articles' := articles' + [r.article];
      }
    }
    assert all[..|urls|] == all;
    ok := true;
  }

  /** `get_latest_articles`: the page loop, with the handler that discards everything. */
  method GetLatestArticles(db: DatabaseManager, articleType: string, pages: nat,
                           fetch: string -> ListingFetch, extract: string -> Extraction, now: string)
    returns (articles: seq<Article>)
    ensures articles == LatestArticles(db.rows, articleType, pages, fetch, extract, now)
  {
    ghost var steps := StepsByPage(db.rows, articleType, fetch, extract, now);
    articles := [];
    for page := 1 to pages + 1
      invariant Collected(Paged(steps, page - 1)) == Some(articles)
    {
      var urls := GetUrlsOfTypeThread(db, articleType, page, fetch);
      assert Paged(steps, page) == Paged(steps, page - 1) + AssembleAll(urls, articleType, extract, now);
      var ok;
      articles, ok := CollectPage(urls, articleType, extract, now, Paged(steps, page - 1), articles);
      if !ok {
        PagedPrefix(steps, page, pages);
        CollectedPrefix(Paged(steps, page), Paged(steps, pages));
        return [];
      }
    }
  }

  // ---------------------------------------------------------------------
  // process_articles
  // ---------------------------------------------------------------------

  /** Every section has its own emoji in the message. */
  lemma CategoriesHaveEmojis()
    ensures forall i :: 0 <= i < |Categories| ==>
      Categories[i] in MvpEmojis && CategoryEmoji(MvpEmojis, Categories[i]) != DefaultEmoji
  {
  }

  /**
   * Where a cycle stands: what it has posted and written so far, the
   * service replies not yet consumed, and whether it is still running
   * (false once the replies ran out mid-retry).
   */
  datatype Progress = Progress(events: seq<Event>, replies: seq<Reply>, finished: bool)

  /**
   * The body of the article loop: an article with content is summarized
   * (no cache); a non-empty summary is posted and then written.
   */
  function ArticleStep(p: Progress, a: Article, now: string): Progress
  {
    if a.content == "" then p
    else
      var (o, used) := Summarize(a.content, p.replies);
      var rest := p.replies[used..];
      if o.Unfinished? then Progress(p.events, rest, false)
      else if o.summary == "" then Progress(p.events, rest, true)
      else
        var posted := Posted(a, o.summary);
        var written := Inserted(a.url, RowOf(a, o.summary, now));
        Progress(p.events + [posted, written], rest, true)
  }

  /** The article loop over `articles`, in order, stopping when the cycle stops. */
  function Drain(p: Progress, articles: seq<Article>, now: string): Progress
  {
    if articles == [] then p
    else
      var q := Drain(p, articles[..|articles| - 1], now);
      if !q.finished then q else ArticleStep(q, articles[|articles| - 1], now)
  }

  /** `get_latest_articles(category)` with its default two pages, as a listing step. */
  function Listings(fetch: string -> ListingFetch, extract: string -> Extraction, now: string): Lister
  {
    (rows: map<string, Row>, category: string) => LatestArticles(rows, category, DefaultPages, fetch, extract, now)
  }

  lemma ListingNew(fetch: string -> ListingFetch, extract: string -> Extraction, now: string,
                    rows: map<string, Row>, category: string, a: Article)
    requires a in Listings(fetch, extract, now)(rows, category)
    ensures a.category == category && a.url !in rows && a.publishedDate == now
  {
    assert Listings(fetch, extract, now)(rows, category)
        == LatestArticles(rows, category, DefaultPages, fetch, extract, now);
    LatestArticlesSound(rows, category, DefaultPages, fetch, extract, now, a);
  }

  lemma ListingsListNew(fetch: string -> ListingFetch, extract: string -> Extraction, now: string)
    ensures ListsNew(Listings(fetch, extract, now), now)
  {
    forall rows, category, a | a in Listings(fetch, extract, now)(rows, category)
      ensures a.category == category && a.url !in rows && a.publishedDate == now
    {
      ListingNew(fetch, extract, now, rows, category, a);
    }
  }

  /**
   * `list` is `get_latest_articles` with its default two pages. (The fact
   * is used only where a listing is actually taken.)
   */
  ghost predicate ListsLatest(list: Lister, fetch: string -> ListingFetch,
                              extract: string -> Extraction, now: string)
  {
    forall rows, category {:trigger LatestArticles(rows, category, DefaultPages, fetch, extract, now)} ::
      list(rows, category) == LatestArticles(rows, category, DefaultPages, fetch, extract, now)
  }

  lemma ListingsListLatest(fetch: string -> ListingFetch, extract: string -> Extraction, now: string)
    ensures ListsLatest(Listings(fetch, extract, now), fetch, extract, now)
  {
    forall rows, category
      ensures Listings(fetch, extract, now)(rows, category) == LatestArticles(rows, category, DefaultPages, fetch, extract, now)
    {
    }
  }

  /**
   * The first `k` sections of a cycle that started with `rows0` in the
   * store: each section's articles are listed against the store as the
   * earlier sections left it.
   */
  function CycleUpTo(rows0: map<string, Row>, k: nat, list: Lister, replies: seq<Reply>, now: string): Progress
    requires k <= |Categories|
  {
    if k == 0 then Progress([], replies, true)
    else
      var p := CycleUpTo(rows0, k - 1, list, replies, now);
      if !p.finished then p
      else Drain(p, list(Replay(rows0, p.events), Categories[k - 1]), now)
  }

  /** A whole cycle of `process_articles`. */
  function Cycle(rows0: map<string, Row>, fetch: string -> ListingFetch,
                 extract: string -> Extraction, replies: seq<Reply>, now: string): Progress
  {
    CycleUpTo(rows0, |Categories|, Listings(fetch, extract, now), replies, now)
  }

  /** Once the article loop has stopped, the remaining articles change nothing. */
  lemma {:induction false} DrainStopped(p: Progress, articles: seq<Article>, n: nat, now: string)
    requires n <= |articles| && !Drain(p, articles[..n], now).finished
    ensures Drain(p, articles, now) == Drain(p, articles[..n], now)
    decreases |articles| - n
  {
    if n < |articles| {
      assert articles[..n + 1][..n] == articles[..n];
      DrainStopped(p, articles, n + 1, now);
    } else {
      assert articles[..n] == articles;
    }
  }

  /** Once a section has stopped the cycle, the later sections change nothing. */
  lemma {:induction false} CycleStopped(rows0: map<string, Row>, k: nat, m: nat,
                                        list: Lister, replies: seq<Reply>, now: string)
    requires k <= m <= |Categories|
    requires !CycleUpTo(rows0, k, list, replies, now).finished
    ensures CycleUpTo(rows0, m, list, replies, now) == CycleUpTo(rows0, k, list, replies, now)
    decreases m - k
  {
    if k < m {
      CycleStopped(rows0, k + 1, m, list, replies, now);
    }
  }

  lemma CycleUpToStep(rows0: map<string, Row>, k: nat, list: Lister, replies: seq<Reply>, now: string)
    requires k < |Categories| && CycleUpTo(rows0, k, list, replies, now).finished
    ensures var p := CycleUpTo(rows0, k, list, replies, now);
      CycleUpTo(rows0, k + 1, list, replies, now)
        == Drain(p, list(Replay(rows0, p.events), Categories[k]), now)
  {
  }

  lemma DrainStep(p: Progress, articles: seq<Article>, j: nat, now: string)
    requires j < |articles| && Drain(p, articles[..j], now).finished
    ensures Drain(p, articles[..j + 1], now) == ArticleStep(Drain(p, articles[..j], now), articles[j], now)
  {
    assert articles[..j + 1][..j] == articles[..j];
  }

  /** The state a cycle keeps: its log follows the discipline in both directions. */
  predicate Sound(p: Progress, rows0: map<string, Row>, now: string)
  {
    WellFormed(p.events, rows0, Sections, now) && PostsWritten(p.events, now)
  }

  /**
   * One article step logs something exactly when the article has content
   * and its summary comes back non-empty, and then it logs the post of that
   * summary followed by its write; otherwise the log is unchanged.
   */
  lemma ArticleStepPosts(p: Progress, a: Article, now: string)
    ensures var q := ArticleStep(p, a, now);
      var o := Summarize(a.content, p.replies).0;
      && (q.events != p.events <==> a.content != "" && o.Returned? && o.summary != "")
      && (q.events != p.events ==>
            q.events == p.events + [Posted(a, o.summary), Inserted(a.url, RowOf(a, o.summary, now))])
  {
    var q := ArticleStep(p, a, now);
    if |q.events| == |p.events| + 2 {
      assert q.events != p.events;
    }
  }

  /**
   * One article step keeps the discipline, provided the article is of one
   * of the sections and is not in the store the cycle started with.
   */
  lemma ArticleStepSound(p: Progress, a: Article, rows0: map<string, Row>, now: string)
    requires Sound(p, rows0, now)
    requires a.url !in rows0 && a.category in Sections && a.publishedDate == now
    ensures Sound(ArticleStep(p, a, now), rows0, now)
  {
    if a.content != "" {
      var (o, used) := Summarize(a.content, p.replies);
      if o.Returned? && o.summary != "" {
        ReturnedPassesGate(a.content, p.replies);
        var posted := Posted(a, o.summary);
        WellFormedPost(p.events, rows0, Sections, now, a, o.summary);
        WellFormedInsert(p.events + [posted], rows0, Sections, now);
        assert p.events + [posted] + [Inserted(a.url, RowOf(a, o.summary, now))]
            == p.events + [posted, Inserted(a.url, RowOf(a, o.summary, now))];
        PostsWrittenAppend(p.events, a, o.summary, now);
      }
    }
  }

  lemma {:induction false} DrainSound(p: Progress, articles: seq<Article>, rows0: map<string, Row>, now: string)
    requires Sound(p, rows0, now)
    requires forall i :: 0 <= i < |articles| ==>
      articles[i].url !in rows0 && articles[i].category in Sections && articles[i].publishedDate == now
    ensures Sound(Drain(p, articles, now), rows0, now)
  {
    if articles != [] {
      var init := articles[..|articles| - 1];
      DrainSound(p, init, rows0, now);
      if Drain(p, init, now).finished {
        ArticleStepSound(Drain(p, init, now), articles[|articles| - 1], rows0, now);
      }
    }
  }

  lemma {:induction false} CycleUpToSound(rows0: map<string, Row>, k: nat, list: Lister,
                                          replies: seq<Reply>, now: string)
    requires k <= |Categories| && ListsNew(list, now)
    ensures Sound(CycleUpTo(rows0, k, list, replies, now), rows0, now)
  {
    if k > 0 {
      var p := CycleUpTo(rows0, k - 1, list, replies, now);
      CycleUpToSound(rows0, k - 1, list, replies, now);
      if p.finished {
        var rows := Replay(rows0, p.events);
        var category := Categories[k - 1];
        var articles := list(rows, category);
        forall i | 0 <= i < |articles|
          ensures articles[i].url !in rows0 && articles[i].category in Sections
          ensures articles[i].publishedDate == now
        {
          assert articles[i] in list(rows, category);
          ReplaySpec(rows0, p.events, Sections, now, articles[i].url);
        }
        DrainSound(p, articles, rows0, now);
      }
    }
  }

  /**
   * What a cycle does, whatever the pages, the extractions and the service
   * replies: it posts only articles of the eleven sections that were not in
   * the store, each with a summary that passed the gate, and writes each
   * one right after posting it, and every write follows the post of its
   * article. So no row with an empty summary is written, no row present
   * before the cycle is overwritten, and a URL that was not in the store
   * gets a row exactly when its article was posted.
   */
  lemma CycleSound(rows0: map<string, Row>, fetch: string -> ListingFetch,
                   extract: string -> Extraction, replies: seq<Reply>, now: string, u: string)
    ensures WellFormed(Cycle(rows0, fetch, extract, replies, now).events, rows0, Sections, now)
    ensures PostsWritten(Cycle(rows0, fetch, extract, replies, now).events, now)
    ensures var p := Cycle(rows0, fetch, extract, replies, now);
      var rows := Replay(rows0, p.events);
      && (u in rows0 ==> u in rows && rows[u] == rows0[u])
      && (u in rows && u !in rows0 ==> Accepts(rows[u].summary) && rows[u].summary != "")
      && (u !in rows0 ==>
            (u in rows <==> exists i :: 0 <= i < |p.events| && p.events[i].Posted? && p.events[i].article.url == u))
  {
    var p := Cycle(rows0, fetch, extract, replies, now);
    ListingsListNew(fetch, extract, now);
    CycleUpToSound(rows0, |Categories|, Listings(fetch, extract, now), replies, now);
    ReplaySpec(rows0, p.events, Sections, now, u);
    var rows := Replay(rows0, p.events);
    if u in rows && u !in rows0 {
      CountAbsent(rows[u].summary, '.');
    }
    if exists i :: 0 <= i < |p.events| && p.events[i].Posted? && p.events[i].article.url == u {
      var i :| 0 <= i < |p.events| && p.events[i].Posted? && p.events[i].article.url == u;
      PostedStored(rows0, p.events, now, i);
    }
  }

  /**
   * Two cycles in a row, each over pages, extractions and replies of its
   * own (the site changes between runs): nothing the first cycle wrote, and
   * nothing already in the store before it, is posted again by the second,
   * because the store filters the listings.
   */
  lemma NextCycleSkipsWritten(rows0: map<string, Row>, fetch: string -> ListingFetch,
                              extract: string -> Extraction, first: seq<Reply>,
                              fetch2: string -> ListingFetch, extract2: string -> Extraction,
                              second: seq<Reply>, now: string, later: string, i: nat)
    ensures var p := Cycle(rows0, fetch, extract, first, now);
      var q := Cycle(Replay(rows0, p.events), fetch2, extract2, second, later);
      i < |q.events| && q.events[i].Posted? ==>
        && q.events[i].article.url !in rows0
        && forall j :: 0 <= j < |p.events| && p.events[j].Inserted? ==> p.events[j].url != q.events[i].article.url
  {
    var p := Cycle(rows0, fetch, extract, first, now);
    var rows1 := Replay(rows0, p.events);
    var q := Cycle(rows1, fetch2, extract2, second, later);
    if i < |q.events| && q.events[i].Posted? {
      CycleSound(rows1, fetch2, extract2, second, later, "");
      assert GoodPost(q.events[i], rows1, Sections, later);
      ReplayKeys(rows0, p.events, q.events[i].article.url);
    }
  }

  /**
   * The body of the article loop of `process_articles`: summarize, and on
   * a non-empty summary post and then write. The store is the cycle's log
   * replayed over `rows0`.
   */
  method HandleArticle(db: DatabaseManager, article: Article,
                       ghost rows0: map<string, Row>, events: seq<Event>, pending: seq<Reply>,
                       now: string)
    returns (events': seq<Event>, pending': seq<Reply>, finished: bool)
    modifies db
    requires db.rows == Replay(rows0, events)
    ensures Progress(events', pending', finished) == ArticleStep(Progress(events, pending, true), article, now)
    ensures db.rows == Replay(rows0, events')
  {
    events', pending', finished := events, pending, true;
    if article.content != "" {
      var (outcome, used) := Summarize(article.content, pending);
      pending' := pending[used..];
      if outcome.Unfinished? {
        finished := false;
        return;
      }
      var summary := outcome.summary;
      if summary != "" {
        ReplayPost(rows0, events', Posted(article, summary));
        events' := events' + [Posted(article, summary)];
        ReplayInsert(rows0, events', article.url, RowOf(article, summary, now));
        db.InsertArticle(article, summary, now);
        events' := events' + [Inserted(article.url, RowOf(article, summary, now))];
      }
    }
  }

  /** The article loop of `process_articles` for one section's articles. */
  method HandleArticles(db: DatabaseManager, articles: seq<Article>,
                        ghost rows0: map<string, Row>, events: seq<Event>, pending: seq<Reply>,
                        now: string)
    returns (events': seq<Event>, pending': seq<Reply>, finished: bool)
    modifies db
    requires db.rows == Replay(rows0, events)
    ensures Progress(events', pending', finished) == Drain(Progress(events, pending, true), articles, now)
    ensures db.rows == Replay(rows0, events')
  {
    ghost var start := Progress(events, pending, true);
    events', pending', finished := events, pending, true;
    for j := 0 to |articles|
      invariant db.rows == Replay(rows0, events')
      invariant Drain(start, articles[..j], now) == Progress(events', pending', true)
    {
      DrainStep(start, articles, j, now);
      events', pending', finished := HandleArticle(db, articles[j], rows0, events', pending', now);
      if !finished {
        DrainStopped(start, articles, j + 1, now);
        return;
      }
    }
    assert articles[..|articles|] == articles;
  }

  /**
   * One section of `process_articles`: list its latest articles against
   * the store as it is now, then run the article loop over them.
   */
  method HandleCategory(db: DatabaseManager, c: nat, ghost list: Lister,
                        ghost rows0: map<string, Row>, events: seq<Event>, pending: seq<Reply>,
                        fetch: string -> ListingFetch, extract: string -> Extraction,
                        ghost replies: seq<Reply>, now: string)
    returns (events': seq<Event>, pending': seq<Reply>, finished: bool)
    modifies db
    requires ListsLatest(list, fetch, extract, now)
    requires c < |Categories| && db.rows == Replay(rows0, events)
    requires CycleUpTo(rows0, c, list, replies, now) == Progress(events, pending, true)
    ensures CycleUpTo(rows0, c + 1, list, replies, now) == Progress(events', pending', finished)
    ensures !finished ==> CycleUpTo(rows0, |Categories|, list, replies, now) == Progress(events', pending', false)
    ensures db.rows == Replay(rows0, events')
  {
    var articles := GetLatestArticles(db, Categories[c], DefaultPages, fetch, extract, now);
    CycleUpToStep(rows0, c, list, replies, now);
    events', pending', finished := HandleArticles(db, articles, rows0, events, pending, now);
    if !finished {
      CycleStopped(rows0, c + 1, |Categories|, list, replies, now);
    }
  }

  /** The section loop of `process_articles`; it stops early only when the service replies run out. */
  method HandleCategories(db: DatabaseManager, ghost list: Lister,
                          fetch: string -> ListingFetch, extract: string -> Extraction,
                          replies: seq<Reply>, now: string)
    returns (events: seq<Event>, finished: bool)
    modifies db
    requires ListsLatest(list, fetch, extract, now)
    ensures var p := CycleUpTo(old(db.rows), |Categories|, list, replies, now);
      events == p.events && finished == p.finished
    ensures db.rows == Replay(old(db.rows), events)
  {
    ghost var rows0 := db.rows;
    events := [];
    finished := true;
    var pending := replies;
    for c := 0 to |Categories|
      invariant db.rows == Replay(rows0, events)
      invariant CycleUpTo(rows0, c, list, replies, now) == Progress(events, pending, true)
    {
      events, pending, finished :=
        HandleCategory(db, c, list, rows0, events, pending, fetch, extract, replies, now);
      if !finished {
        return;
      }
    }
  }

  /**
   * `process_articles`: one cycle over the eleven sections, in order. The
   * scripted service replies are shared by every summary of the cycle;
   * `finished` is false when they ran out before a summary was settled
   * (the model has no recursion limit to end the retries), and the cycle
   * stops there. The store ends as the cycle's
   * writes replayed.
   */
  method ProcessArticles(db: DatabaseManager, fetch: string -> ListingFetch,
                         extract: string -> Extraction, replies: seq<Reply>, now: string)
    returns (events: seq<Event>, finished: bool)
    modifies db
    ensures events == Cycle(old(db.rows), fetch, extract, replies, now).events
    ensures finished == Cycle(old(db.rows), fetch, extract, replies, now).finished
    ensures db.rows == Replay(old(db.rows), events)
  {
    ListingsListLatest(fetch, extract, now);
    events, finished := HandleCategories(db, Listings(fetch, extract, now), fetch, extract, replies, now);
  }
}
