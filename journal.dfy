/**
 * What one crawl cycle (`process_articles`) does to the outside world, in
 * order: articles handed to the poster and rows written to the store. A
 * post of `article` with `summary` sends `Telegram.Message` built from the
 * pipeline's emoji table, the article and the summary. The store after a
 * cycle is the store before it with the writes replayed.
 */
module Journal {
  import opened Store
  import opened Summarizer

  datatype Event =
    | Posted(article: Article, summary: string)  // `post_update(article, summary)`
    | Inserted(url: string, row: Row)            // `insert_article(article, summary)`

  /** A listing step: the articles a category yields against the store as it is. */
  type Lister = (map<string, Row>, string) -> seq<Article>

  /** A listing step that only yields articles of the category asked for, new to the store, dated now. */
  ghost predicate ListsNew(list: Lister, now: string)
  {
    forall rows, category, a :: a in list(rows, category) ==>
      a.category == category && a.url !in rows && a.publishedDate == now
  }

  /** The rows after applying every write of `events`, in order, to `rows`. */
  function Replay(rows: map<string, Row>, events: seq<Event>): map<string, Row>
  {
    if events == [] then rows
    else
      var before := Replay(rows, events[..|events| - 1]);
      match events[|events| - 1]
      case Posted(_, _) => before
      case Inserted(url, row) => before[url := row]
  }

  /**
   * A post of an article of one of the cycle's categories, crawled in this
   * cycle and not in the store, with a summary that passed the gate.
   */
  predicate GoodPost(e: Event, rows0: map<string, Row>, categories: set<string>, now: string)
    requires e.Posted?
  {
    && e.article.url !in rows0
    && e.article.category in categories
    && e.article.publishedDate == now
    && Accepts(e.summary)
  }

  /** A write of the article and summary posted just before it. */
  predicate GoodInsert(events: seq<Event>, i: nat, now: string)
    requires i < |events| && events[i].Inserted?
  {
    && i > 0
    && events[i - 1].Posted?
    && events[i].url == events[i - 1].article.url
    && events[i].row == RowOf(events[i - 1].article, events[i - 1].summary, now)
  }

  /**
   * The discipline both cycles keep: every post is of an article new to
   * the store with an accepted summary, and every write immediately follows
   * the post of the same article and stores that post's summary.
   */
  predicate WellFormed(events: seq<Event>, rows0: map<string, Row>,
                       categories: set<string>, now: string)
  {
    forall i :: 0 <= i < |events| ==>
      (events[i].Posted? ==> GoodPost(events[i], rows0, categories, now)) &&
      (events[i].Inserted? ==> GoodInsert(events, i, now))
  }

  lemma WellFormedPrefix(events: seq<Event>, n: nat, rows0: map<string, Row>,
                         categories: set<string>, now: string)
    requires n <= |events| && WellFormed(events, rows0, categories, now)
    ensures WellFormed(events[..n], rows0, categories, now)
  {
    forall i | 0 <= i < n && events[i].Inserted?
      ensures GoodInsert(events[..n], i, now)
    {
      assert GoodInsert(events, i, now);
    }
  }

  /** Posting a new article with an accepted summary keeps the discipline. */
  lemma WellFormedPost(events: seq<Event>, rows0: map<string, Row>,
                       categories: set<string>, now: string, a: Article, summary: string)
    requires WellFormed(events, rows0, categories, now)
    requires a.url !in rows0 && a.category in categories && a.publishedDate == now && Accepts(summary)
    ensures WellFormed(events + [Posted(a, summary)], rows0, categories, now)
  {
    var evs := events + [Posted(a, summary)];
    forall i | 0 <= i < |evs| && evs[i].Inserted?
      ensures GoodInsert(evs, i, now)
    {
      assert GoodInsert(events, i, now);
    }
  }

  /** Writing the article just posted keeps the discipline. */
  lemma WellFormedInsert(events: seq<Event>, rows0: map<string, Row>,
                         categories: set<string>, now: string)
    requires WellFormed(events, rows0, categories, now)
    requires |events| > 0 && events[|events| - 1].Posted?
    ensures var p := events[|events| - 1];
      WellFormed(events + [Inserted(p.article.url, RowOf(p.article, p.summary, now))], rows0, categories, now)
  {
    var p := events[|events| - 1];
    var evs := events + [Inserted(p.article.url, RowOf(p.article, p.summary, now))];
    forall i | 0 <= i < |evs| && evs[i].Inserted?
      ensures GoodInsert(evs, i, now)
    {
      if i < |events| {
        assert GoodInsert(events, i, now);
      }
    }
  }

  /**
   * The other half of the discipline: every post is immediately followed
   * by the write of the posted article with the posted summary.
   */
  predicate PostsWritten(events: seq<Event>, now: string)
  {
    forall i :: 0 <= i < |events| && events[i].Posted? ==>
      i + 1 < |events| &&
      events[i + 1] == Inserted(events[i].article.url, RowOf(events[i].article, events[i].summary, now))
  }

  /** Logging a post together with its write keeps every post written. */
  lemma PostsWrittenAppend(events: seq<Event>, a: Article, summary: string, now: string)
    requires PostsWritten(events, now)
    ensures PostsWritten(events + [Posted(a, summary), Inserted(a.url, RowOf(a, summary, now))], now)
  {
    var evs := events + [Posted(a, summary), Inserted(a.url, RowOf(a, summary, now))];
    forall i | 0 <= i < |evs| && evs[i].Posted?
      ensures i + 1 < |evs|
      ensures evs[i + 1] == Inserted(evs[i].article.url, RowOf(evs[i].article, evs[i].summary, now))
    {
      if i < |events| {
        assert evs[i] == events[i];
      }
    }
  }

  /** When every post is written, every posted article is in the replayed store. */
  lemma PostedStored(rows0: map<string, Row>, events: seq<Event>, now: string, i: nat)
    requires PostsWritten(events, now)
    requires i < |events| && events[i].Posted?
    ensures events[i].article.url in Replay(rows0, events)
  {
    var u := events[i].article.url;
    assert events[i + 1].Inserted? && events[i + 1].url == u;
    ReplayKeys(rows0, events, u);
  }

  /**
   * Under the discipline, a cycle never overwrites a row that was in the
   * store when it started, and every row it adds holds a summary that
   * passed the gate and belongs to an article it posted first.
   */
  lemma {:induction false} ReplaySpec(rows0: map<string, Row>, events: seq<Event>,
                                      categories: set<string>,
                                      now: string, u: string)
    requires WellFormed(events, rows0, categories, now)
    ensures var rows := Replay(rows0, events);
      && (u in rows0 ==> u in rows && rows[u] == rows0[u])
      && (u in rows && u !in rows0 ==>
            && Accepts(rows[u].summary)
            && rows[u].crawledDate == now
            && exists i :: 0 <= i < |events| && events[i].Posted? && events[i].article.url == u)
  {
    if events != [] {
      var n := |events| - 1;
      WellFormedPrefix(events, n, rows0, categories, now);
      ReplaySpec(rows0, events[..n], categories, now, u);
      var before := Replay(rows0, events[..n]);
      if before != Replay(rows0, events) {
        var e := events[n];
        assert e.Inserted?;
        assert GoodInsert(events, n, now);
        var p := events[n - 1];
        assert GoodPost(p, rows0, categories, now);
        if u == e.url {
          assert events[n - 1].Posted? && events[n - 1].article.url == u;
        } else if u in before && u !in rows0 {
          var i :| 0 <= i < n && events[..n][i].Posted? && events[..n][i].article.url == u;
          assert events[i] == events[..n][i];
        }
      } else if u in before && u !in rows0 {
        var i :| 0 <= i < n && events[..n][i].Posted? && events[..n][i].article.url == u;
        assert events[i] == events[..n][i];
      }
    }
  }

  /** A URL is in the replayed store exactly when it was there or some event writes it. */
  lemma {:induction false} ReplayKeys(rows0: map<string, Row>, events: seq<Event>, u: string)
    ensures u in Replay(rows0, events) <==>
      u in rows0 || exists i :: 0 <= i < |events| && events[i].Inserted? && events[i].url == u
  {
    if events != [] {
      var n := |events| - 1;
      ReplayKeys(rows0, events[..n], u);
      if exists i :: 0 <= i < n && events[..n][i].Inserted? && events[..n][i].url == u {
        var i :| 0 <= i < n && events[..n][i].Inserted? && events[..n][i].url == u;
        assert events[i] == events[..n][i];
      }
      if exists i :: 0 <= i < |events| && events[i].Inserted? && events[i].url == u {
        var i :| 0 <= i < |events| && events[i].Inserted? && events[i].url == u;
        if i < n {
          assert events[..n][i] == events[i];
        }
      }
    }
  }

  lemma ReplayPost(rows0: map<string, Row>, events: seq<Event>, e: Event)
    requires e.Posted?
    ensures Replay(rows0, events + [e]) == Replay(rows0, events)
  {
    assert (events + [e])[..|events|] == events;
  }

  lemma ReplayInsert(rows0: map<string, Row>, events: seq<Event>, url: string, row: Row)
    ensures Replay(rows0, events + [Inserted(url, row)]) == Replay(rows0, events)[url := row]
  {
    assert (events + [Inserted(url, row)])[..|events|] == events;
  }
}
