/**
 * The text `TelegramPoster.post_update` sends for one article: an emoji
 * chosen by category (a default one for an unknown category), then the
 * title, the summary, the link, the category and the date. Delivery itself
 * is a foreign call whose failure the poster swallows, so only the message
 * is modelled.
 */
module Telegram {
  import opened Text
  import opened Store

  /** The emoji table of test_mvp.py: the eleven news sections. */
  const MvpEmojis: map<string, string> := map[
    "thoi-su" := "\U{1F4F0}",
    "du-lich" := "\U{2708}\U{FE0F}",
    "the-gioi" := "\U{1F30D}",
    "kinh-doanh" := "\U{1F4BC}",
    "khoa-hoc" := "\U{1F52C}",
    "giai-tri" := "\U{1F3AD}",
    "the-thao" := "\U{26BD}",
    "phap-luat" := "\U{2696}\U{FE0F}",
    "giao-duc" := "\U{1F4DA}",
    "suc-khoe" := "\U{1F3E5}",
    "doi-song" := "\U{1F31F}"
  ]

  /** The emoji table of main.py: the eleven sections and the three feeds it crawls. */
  const MainEmojis: map<string, string> := map[
    "thoi-su" := "\U{1F4F0}",
    "du-lich" := "\U{2708}\U{FE0F}",
    "the-gioi" := "\U{1F30D}",
    "kinh-doanh" := "\U{1F4BC}",
    "khoa-hoc" := "\U{1F52C}",
    "giai-tri" := "\U{1F3AD}",
    "the-thao" := "\U{26BD}",
    "phap-luat" := "\U{2696}\U{FE0F}",
    "giao-duc" := "\U{1F4DA}",
    "suc-khoe" := "\U{1F3E5}",
    "doi-song" := "\U{1F31F}",
    "tin-xem-nhieu" := "\U{1F3C6}",
    "tin-tuc-24h" := "\U{1F552}",
    "tin-nong" := "\U{1F525}"
  ]

  /** `category_emojis.get(category, "📄")` */
  const DefaultEmoji: string := "\U{1F4C4}"

  function CategoryEmoji(emojis: map<string, string>, category: string): string
  {
    if category in emojis then emojis[category] else DefaultEmoji
  }

  /** main.py's table agrees with test_mvp.py's wherever the latter has an entry. */
  lemma MainEmojisExtendMvp(category: string)
    ensures category in MvpEmojis ==> CategoryEmoji(MainEmojis, category) == CategoryEmoji(MvpEmojis, category)
    ensures category in MainEmojis <==>
      category in MvpEmojis || category in {"tin-xem-nhieu", "tin-tuc-24h", "tin-nong"}
  {
  }

  const SummaryHeader: string := "\U{1F4DD} *T\U{F3}m t\U{1EAF}t:*"
  const LinkLabel: string := "\U{1F517} [\U{110}\U{1ECD}c th\U{EA}m]("
  const CategoryLabel: string := "\U{1F4C2} Chuy\U{EA}n m\U{1EE5}c: "
  const DateLabel: string := "\U{1F552} "

  /**
   * The eight lines of the message, blank lines included: emoji and bold
   * title; a blank line; the summary header; the summary; a blank line;
   * the link; the category; the date.
   */
  function MessageLines(emojis: map<string, string>, a: Article, summary: string): seq<string>
  {
    [ CategoryEmoji(emojis, a.category) + " *" + a.title + "*",
      "",
      SummaryHeader,
      summary,
      "",
      LinkLabel + a.url + ")",
      CategoryLabel + a.category,
      DateLabel + a.publishedDate ]
  }

  /** The message text: the f-string's lines joined by newlines. */
  function Message(emojis: map<string, string>, a: Article, summary: string): string
  {
    Join("\n", MessageLines(emojis, a, summary))
  }

  /** The text sent before the summary: the title line, a blank line and the header line, each ended by a line break. */
  function MessageHead(emojis: map<string, string>, a: Article): string
  {
    Join("\n", [CategoryEmoji(emojis, a.category) + " *" + a.title + "*", "", SummaryHeader]) + "\n"
  }

  /** The text sent after the summary: a line break, then a blank line and the link, category and date lines. */
  function MessageTail(a: Article): string
  {
    "\n" + Join("\n", ["", LinkLabel + a.url + ")", CategoryLabel + a.category, DateLabel + a.publishedDate])
  }

  /**
   * Whatever the summary holds, line breaks included, it is sent verbatim
   * between a head and a tail that depend only on the article.
   */
  lemma MessageVerbatim(emojis: map<string, string>, a: Article, summary: string)
    ensures Message(emojis, a, summary) == MessageHead(emojis, a) + summary + MessageTail(a)
  {
    var head := [CategoryEmoji(emojis, a.category) + " *" + a.title + "*", "", SummaryHeader];
    var tail := ["", LinkLabel + a.url + ")", CategoryLabel + a.category, DateLabel + a.publishedDate];
    assert MessageLines(emojis, a, summary) == head + ([summary] + tail);
    JoinAppend("\n", head, [summary] + tail);
    JoinAppend("\n", [summary], tail);
  }

  /** No emoji of a table spans a line break. */
  predicate SingleLineEmojis(emojis: map<string, string>)
  {
    forall c :: c in emojis ==> '\n' !in emojis[c]
  }

  lemma EmojiTablesSingleLine()
    ensures SingleLineEmojis(MvpEmojis) && SingleLineEmojis(MainEmojis)
  {
  }

  /**
   * Reading the message back line by line gives the layout: the title,
   * summary, link, category and date each on their own line, in that order,
   * whenever none of them holds a line break.
   */
  lemma MessageLayout(emojis: map<string, string>, a: Article, summary: string)
    requires SingleLineEmojis(emojis)
    requires '\n' !in a.title && '\n' !in summary && '\n' !in a.url
    requires '\n' !in a.category && '\n' !in a.publishedDate
    ensures Split(Message(emojis, a, summary), '\n') == MessageLines(emojis, a, summary)
    ensures Split(Message(emojis, a, summary), '\n')[0] ==
            CategoryEmoji(emojis, a.category) + " *" + a.title + "*"
    ensures Split(Message(emojis, a, summary), '\n')[3] == summary
  {
    var ls := MessageLines(emojis, a, summary);
    assert '\n' !in DefaultEmoji;
    assert '\n' !in SummaryHeader && '\n' !in LinkLabel && '\n' !in CategoryLabel && '\n' !in DateLabel;
    forall i | 0 <= i < |ls| ensures '\n' !in ls[i] {
    }
    SplitJoin(ls, '\n');
  }
}
