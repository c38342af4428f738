/** The article listing: it loads the read history once on mount and shows one
    card per article, linking to the article and marked when it was read. */
module ArticleList {
  import opened Wrappers
  import opened Json
  import opened Storage
  import opened Routes

  /** What a card carries besides presentation: its key, its link, whether it
      counts as read and the badge shown when it does. */
  datatype Card = Card(key: string, href: string, isRead: bool, badge: Option<string>)

  datatype View = EmptyState(text: string) | Grid(cards: seq<Card>)

  function ReadBadge(locale: string): string
  {
    if locale == "zh" then "已读" else "Read"
  }

  function EmptyText(locale: string): string
  {
    if locale == "zh" then "暂无内容" else "No content available yet"
  }

  function CardFor(article: Article, locale: string, history: seq<string>): Card
  {
    var isRead := article.slug in history;
    Card(article.slug, ArticlePath(locale, article.slug), isRead, if isRead then Some(ReadBadge(locale)) else None)
  }

  /** `articles.map(...)`. */
  function Cards(articles: seq<Article>, locale: string, history: seq<string>): (cards: seq<Card>)
    ensures |cards| == |articles|
  {
    if articles == [] then []
    else [CardFor(articles[0], locale, history)] + Cards(articles[1..], locale, history)
  }

  /** The rendered listing: the empty state only when there are no articles,
      otherwise the grid of cards. */
  function Render(articles: seq<Article>, locale: string, history: seq<string>): (v: View)
    ensures v.EmptyState? <==> articles == []
    ensures v.EmptyState? ==> v.text == EmptyText(locale)
    ensures v.Grid? ==> v.cards == Cards(articles, locale, history) && |v.cards| == |articles|
  {
    if |articles| == 0 then EmptyState(EmptyText(locale))
    else Grid(Cards(articles, locale, history))
  }

  /** One card per article, in input order: card `i` is keyed by and links to
      article `i` in the page's locale, and is read exactly when that slug is
      in the history, in which case it shows the locale's badge. */
  lemma {:induction false} CardsAt(articles: seq<Article>, locale: string, history: seq<string>, i: nat)
    requires i < |articles|
    ensures |Cards(articles, locale, history)| == |articles|
    ensures var c := Cards(articles, locale, history)[i];
            && c.key == articles[i].slug
            && c.href == ArticlePath(locale, articles[i].slug)
            && (c.isRead <==> articles[i].slug in history)
            && c.badge == (if c.isRead then Some(ReadBadge(locale)) else None)
  {
    if i > 0 {
      CardsAt(articles[1..], locale, history, i - 1);
    } else if |articles| > 1 {
      CardsAt(articles[1..], locale, history, 0);
    }
  }

  /** Distinct slugs give distinct links, so every card has its own target. */
  lemma CardLinksDistinct(articles: seq<Article>, locale: string, history: seq<string>, i: nat, j: nat)
    requires '/' !in locale
    requires i < j < |articles| && articles[i].slug != articles[j].slug
    ensures Cards(articles, locale, history)[i].href != Cards(articles, locale, history)[j].href
  {
    CardsAt(articles, locale, history, i);
    CardsAt(articles, locale, history, j);
    ArticlePathInjective(locale, articles[i].slug, locale, articles[j].slug);
  }

  class ArticleListView {
    const articles: seq<Article>
    const locale: string
    var readHistory: seq<string>

    constructor (articles: seq<Article>, locale: string)
      ensures this.articles == articles && this.locale == locale && readHistory == []
    {
      this.articles := articles;
      this.locale := locale;
      readHistory := [];
    }

    /** The mount effect: a present, non-empty history that parses replaces
        the state; otherwise (absent, empty, unparseable) the state stays. */
    method LoadHistory(store: LocalStorage)
      modifies this
      ensures readHistory == match HistoryText(store.items)
                             case None => old(readHistory)
                             case Some(raw) => DecodeList(raw).GetOr(old(readHistory))
    {
      var raw := store.GetItem(HistoryKey);
      if raw.Some? && raw.value != "" {
        var parsed := DecodeList(raw.value);
        if parsed.Some? {
          readHistory := parsed.value;
        }
        // otherwise JSON.parse threw and the error is ignored
      }
    }
  }
}
