/**
 * Listing discovery (`get_urls_of_type_thread`, the same in both
 * pipelines): the listing page of a category is fetched, the first anchor
 * of every headline is read, and the URLs not yet in the store are kept.
 * The fetch and the HTML parse are an oracle: the page URL maps to the
 * headlines found on it, or to a failure.
 */
module Listing {
  import opened Wrappers
  import opened Text
  import opened Store

  const SiteRoot: string := "https://vnexpress.net/"

  /** One `.title-news` element: the `href` of each `<a>` inside it, in order. */
  datatype Headline = Headline(anchors: seq<Href>)

  /** What fetching and parsing a listing page gives. */
  datatype ListingFetch =
    | Page(headlines: seq<Headline>)
    | FetchFailed  // network error, timeout or parse failure

  /** `f"https://vnexpress.net/{article_type}-p{page_number}"` */
  function PageUrl(articleType: string, page: nat): string
  {
    SiteRoot + articleType + "-p" + NatToString(page)
  }

  /**
   * Reads a listing URL back into its category and page number: the
   * category is what lies between the site root and the last `-`.
   */
  function ParsePageUrl(u: string): Option<(string, nat)>
  {
    if |u| < |SiteRoot| || u[..|SiteRoot|] != SiteRoot then None
    else
      var k := LastIndexOf(u, '-');
      if k < |SiteRoot| || k + 2 > |u| || u[k + 1] != 'p' then None
      else
        var digits := u[k + 2..];
        if forall i :: 0 <= i < |digits| ==> IsDigit(digits[i])
        then Some((u[|SiteRoot|..k], ParseDigits(digits)))
        else None
  }

  /** Round trip: the page URL determines its category and page number. */
  lemma PageUrlRoundTrip(articleType: string, page: nat)
    ensures ParsePageUrl(PageUrl(articleType, page)) == Some((articleType, page))
  {
    var u := PageUrl(articleType, page);
    var d := NatToString(page);
    var a := SiteRoot + articleType;
    assert u == a + ['-'] + (['p'] + d);
    assert '-' !in ['p'] + d by {
      forall i | 0 <= i < |['p'] + d| ensures (['p'] + d)[i] != '-' {
        if i > 0 { assert IsDigit(d[i - 1]); }
      }
    }
    LastIndexAfter(a, '-', ['p'] + d);
    assert u[|a| + 2..] == d;
    assert u[|SiteRoot|..|a|] == articleType;
    ParseNatToString(page);
  }

  /** Different (category, page) pairs never share a listing URL. */
  lemma PageUrlInjective(t1: string, p1: nat, t2: string, p2: nat)
    requires PageUrl(t1, p1) == PageUrl(t2, p2)
    ensures t1 == t2 && p1 == p2
  {
    PageUrlRoundTrip(t1, p1);
    PageUrlRoundTrip(t2, p2);
  }

  /**
   * The first anchor's href of every headline, or `None` when some headline
   * has no anchor (`title.find_all("a")[0]` raises IndexError).
   */
  function FirstHrefs(hs: seq<Headline>): (r: Option<seq<Href>>)
    ensures r.None? <==> exists i :: 0 <= i < |hs| && hs[i].anchors == []
    ensures r.Some? ==> |r.value| == |hs| && forall i :: 0 <= i < |hs| ==> r.value[i] == hs[i].anchors[0]
  {
    if hs == [] then Some([])
    else
      var init := FirstHrefs(hs[..|hs| - 1]);
      var last := hs[|hs| - 1];
      if init.None? then
        var i :| 0 <= i < |hs| - 1 && hs[..|hs| - 1][i].anchors == [];
        assert hs[i].anchors == [];
        None
      else if last.anchors == [] then None
      else Some(init.value + [last.anchors[0]])
  }

  /** The hrefs not yet in the store, in their order. */
  function FilterUncrawled(rows: map<string, Row>, hrefs: seq<Href>): seq<Href>
  {
    if hrefs == [] then []
    else
      var init := FilterUncrawled(rows, hrefs[..|hrefs| - 1]);
      var last := hrefs[|hrefs| - 1];
      if Crawled(rows, last) then init else init + [last]
  }

  /**
   * The filter keeps exactly the uncrawled hrefs, and each of them as many
   * times as it occurs: duplicates on a page are not removed.
   */
  lemma {:induction false} FilterUncrawledSpec(rows: map<string, Row>, hrefs: seq<Href>, h: Href)
    ensures h in FilterUncrawled(rows, hrefs) <==> h in hrefs && !Crawled(rows, h)
    ensures multiset(FilterUncrawled(rows, hrefs))[h] ==
            if Crawled(rows, h) then 0 else multiset(hrefs)[h]
  {
    if hrefs != [] {
      var init := hrefs[..|hrefs| - 1];
      assert hrefs == init + [hrefs[|hrefs| - 1]];
      FilterUncrawledSpec(rows, init, h);
    }
  }

  /** Filtering distributes over concatenation, so page order is kept. */
  lemma {:induction false} FilterAppend(rows: map<string, Row>, a: seq<Href>, b: seq<Href>)
    ensures FilterUncrawled(rows, a + b) == FilterUncrawled(rows, a) + FilterUncrawled(rows, b)
  {
    if b != [] {
      var b' := b[..|b| - 1];
      assert (a + b)[..|a + b| - 1] == a + b';
      FilterAppend(rows, a, b');
    } else {
      assert a + b == a;
    }
  }

  /** What `get_urls_of_type_thread` returns for a fetched listing. */
  function UrlsOfPage(rows: map<string, Row>, page: ListingFetch): seq<Href>
  {
    match page
    case FetchFailed => []
    case Page(hs) =>
      if hs == [] then []
      else match FirstHrefs(hs)
        case None => []
        case Some(hrefs) => FilterUncrawled(rows, hrefs)
  }

  /**
   * Exactly the uncrawled first-anchor hrefs of the page, each as often as
   * it occurs there; nothing at all when the fetch failed, the page has no
   * headline, or some headline has no anchor.
   */
  lemma UrlsOfPageSpec(rows: map<string, Row>, page: ListingFetch, h: Href)
    ensures var r := UrlsOfPage(rows, page);
      && (page.FetchFailed? || page.headlines == [] ==> r == [])
      && (page.Page? && (exists i :: 0 <= i < |page.headlines| && page.headlines[i].anchors == []) ==> r == [])
      && (page.Page? && page.headlines != [] && FirstHrefs(page.headlines).Some? ==>
            multiset(r)[h] == if Crawled(rows, h) then 0 else multiset(FirstHrefs(page.headlines).value)[h])
  {
    if page.Page? && page.headlines != [] && FirstHrefs(page.headlines).Some? {
      FilterUncrawledSpec(rows, FirstHrefs(page.headlines).value, h);
    }
  }

  /** No URL handed on by the listing step is in the store. */
  lemma UrlsOfPageUncrawled(rows: map<string, Row>, page: ListingFetch, h: Href)
    requires h in UrlsOfPage(rows, page)
    ensures !Crawled(rows, h)
  {
    FilterUncrawledSpec(rows, FirstHrefs(page.headlines).value, h);
  }

  lemma FirstHrefsStep(hs: seq<Headline>, i: nat)
    requires i < |hs| && FirstHrefs(hs[..i]).Some? && hs[i].anchors != []
    ensures FirstHrefs(hs[..i + 1]) == Some(FirstHrefs(hs[..i]).value + [hs[i].anchors[0]])
  {
    assert hs[..i + 1][..i] == hs[..i];
  }

  /** One headline without an anchor makes the whole page fail. */
  lemma MissingAnchorFails(hs: seq<Headline>, i: nat)
    requires i < |hs| && |hs[i].anchors| == 0
    ensures FirstHrefs(hs) == None
  {
    assert hs[i].anchors == [];
  }

  lemma FilterSnoc(rows: map<string, Row>, a: seq<Href>, h: Href)
    ensures FilterUncrawled(rows, a + [h]) ==
            FilterUncrawled(rows, a) + (if Crawled(rows, h) then [] else [h])
  {
    assert (a + [h])[..|a|] == a;
  }

  /** The results of pages 1 to `n`, page after page. */
  function Paged<T>(results: nat -> seq<T>, n: nat): seq<T>
  {
    if n == 0 then [] else Paged(results, n - 1) + results(n)
  }

  /** A result is gathered exactly when some page from 1 to `n` has it. */
  lemma {:induction false} PagedSpec<T>(results: nat -> seq<T>, n: nat, x: T)
    ensures x in Paged(results, n) <==> exists p: nat :: 1 <= p <= n && x in results(p)
  {
    if n > 0 {
      PagedSpec(results, n - 1, x);
      assert Paged(results, n) == Paged(results, n - 1) + results(n);
      if exists p: nat :: 1 <= p <= n && x in results(p) {
        var p: nat :| 1 <= p <= n && x in results(p);
        if p < n {
          assert x in Paged(results, n - 1);
        }
      }
    }
  }

  /** Fewer pages give a prefix of the results of more pages. */
  lemma {:induction false} PagedPrefix<T>(results: nat -> seq<T>, m: nat, n: nat)
    requires m <= n
    ensures Paged(results, m) <= Paged(results, n)
    decreases n - m
  {
    if m < n {
      PagedPrefix(results, m, n - 1);
      assert Paged(results, n) == Paged(results, n - 1) + results(n);
    }
  }

  /** `get_urls_of_type_thread`, with the store consulted once per headline. */
  method GetUrlsOfTypeThread(db: DatabaseManager, articleType: string, pageNumber: nat,
                             fetch: string -> ListingFetch)
    returns (urls: seq<Href>)
    ensures urls == UrlsOfPage(db.rows, fetch(PageUrl(articleType, pageNumber)))
  {
    var pageUrl := PageUrl(articleType, pageNumber);
    var page := fetch(pageUrl);
    if page.FetchFailed? {
      return [];
    }
    var titles := page.headlines;
    if |titles| == 0 {
      return [];
    }
    urls := [];
    ghost var hrefs: seq<Href> := [];
    var i := 0;
    while i < |titles|
      invariant 0 <= i <= |titles|
      invariant FirstHrefs(titles[..i]) == Some(hrefs)
      invariant urls == FilterUncrawled(db.rows, hrefs)
    {
      if |titles[i].anchors| == 0 {
        // `title.find_all("a")[0]` raises; the handler returns []
        MissingAnchorFails(titles, i);
        return [];
      }
      var url := titles[i].anchors[0];
      var crawled := db.IsArticleCrawled(url);
      FirstHrefsStep(titles, i);
      FilterSnoc(db.rows, hrefs, url);
      if !crawled {
        urls := urls + [url];
      }
      hrefs := hrefs + [url];
      i := i + 1;
    }
    assert titles[..i] == titles;
  }
}
