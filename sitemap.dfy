/** The sitemap: six static pages per locale, then every article in every
    locale. */
module Sitemap {
  import opened Text
  import opened Routes

  const BaseUrl: string := "https://open-knm.vercel.app"
  const StaticRoutes: seq<string> := ["", "/knm", "/society", "/resources", "/life", "/about"]

  datatype ChangeFrequency = Weekly | Monthly

  /** A sitemap entry; `priority` is in tenths (10 is 1.0). */
  datatype Entry = Entry(url: string, lastModified: int, changeFrequency: ChangeFrequency, priority: nat)

  function StaticEntry(locale: string, route: string, now: int): Entry
  {
    Entry(BaseUrl + "/" + locale + route, now, Weekly, if route == "" then 10 else 8)
  }

  function ArticleEntry(locale: string, slug: string, now: int): Entry
  {
    Entry(BaseUrl + ArticlePath(locale, slug), now, Monthly, 6)
  }

  /** The entries of one locale's static pages, in route order. */
  function RouteEntries(locale: string, routes: seq<string>, now: int): (r: seq<Entry>)
    ensures |r| == |routes|
  {
    if routes == [] then []
    else RouteEntries(locale, routes[..|routes| - 1], now) + [StaticEntry(locale, routes[|routes| - 1], now)]
  }

  /** All static entries, locale by locale. */
  function StaticEntries(locales: seq<string>, now: int): seq<Entry>
  {
    if locales == [] then []
    else StaticEntries(locales[..|locales| - 1], now) + RouteEntries(locales[|locales| - 1], StaticRoutes, now)
  }

  /** The entries of one article, one per locale. */
  function LocaleEntries(slug: string, locales: seq<string>, now: int): (r: seq<Entry>)
    ensures |r| == |locales|
  {
    if locales == [] then []
    else LocaleEntries(slug, locales[..|locales| - 1], now) + [ArticleEntry(locales[|locales| - 1], slug, now)]
  }

  /** All article entries, article by article. */
  function ArticleEntries(articles: seq<Article>, locales: seq<string>, now: int): seq<Entry>
  {
    if articles == [] then []
    else
      ArticleEntries(articles[..|articles| - 1], locales, now)
      + LocaleEntries(articles[|articles| - 1].slug, locales, now)
  }

  /** `sitemap()`, given the locale and article lists; `now` stands for the
      clock readings of `new Date()`. */
  method Sitemap(locales: seq<string>, articles: seq<Article>, now: int) returns (entries: seq<Entry>)
    ensures entries == StaticEntries(locales, now) + ArticleEntries(articles, locales, now)
  {
    entries := PushStaticEntries([], locales, now);
    entries := PushArticleEntries(entries, articles, locales, now);
  }

  /** The first pair of loops: every static route of every locale. */
  method PushStaticEntries(start: seq<Entry>, locales: seq<string>, now: int) returns (entries: seq<Entry>)
    ensures entries == start + StaticEntries(locales, now)
  {
    entries := start;
    for i := 0 to |locales|
      invariant entries == start + StaticEntries(locales[..i], now)
    {
      ghost var before := entries;
      for j := 0 to |StaticRoutes|
        invariant entries == before + RouteEntries(locales[i], StaticRoutes[..j], now)
      {
        RouteEntriesStep(locales[i], StaticRoutes, j, now);
        entries := entries + [StaticEntry(locales[i], StaticRoutes[j], now)];
      }
      assert StaticRoutes[..|StaticRoutes|] == StaticRoutes;
      StaticEntriesStep(locales, i, now);
    }
    assert locales[..|locales|] == locales;
  }

  /** The second pair of loops: every article in every locale. */
  method PushArticleEntries(start: seq<Entry>, articles: seq<Article>, locales: seq<string>, now: int)
    returns (entries: seq<Entry>)
    ensures entries == start + ArticleEntries(articles, locales, now)
  {
    entries := start;
    for a := 0 to |articles|
      invariant entries == start + ArticleEntries(articles[..a], locales, now)
    {
      ghost var before := entries;
      for l := 0 to |locales|
        invariant entries == before + LocaleEntries(articles[a].slug, locales[..l], now)
      {
        LocaleEntriesStep(articles[a].slug, locales, l, now);
        entries := entries + [ArticleEntry(locales[l], articles[a].slug, now)];
      }
      assert locales[..|locales|] == locales;
      ArticleEntriesStep(articles, locales, a, now);
    }
    assert articles[..|articles|] == articles;
  }

  lemma RouteEntriesStep(locale: string, routes: seq<string>, j: nat, now: int)
    requires j < |routes|
    ensures RouteEntries(locale, routes[..j + 1], now) == RouteEntries(locale, routes[..j], now) + [StaticEntry(locale, routes[j], now)]
  {
    assert routes[..j + 1][..j] == routes[..j];
  }

  lemma StaticEntriesStep(locales: seq<string>, i: nat, now: int)
    requires i < |locales|
    ensures StaticEntries(locales[..i + 1], now) == StaticEntries(locales[..i], now) + RouteEntries(locales[i], StaticRoutes, now)
  {
    assert locales[..i + 1][..i] == locales[..i];
  }

  lemma LocaleEntriesStep(slug: string, locales: seq<string>, l: nat, now: int)
    requires l < |locales|
    ensures LocaleEntries(slug, locales[..l + 1], now) == LocaleEntries(slug, locales[..l], now) + [ArticleEntry(locales[l], slug, now)]
  {
    assert locales[..l + 1][..l] == locales[..l];
  }

  lemma ArticleEntriesStep(articles: seq<Article>, locales: seq<string>, a: nat, now: int)
    requires a < |articles|
    ensures ArticleEntries(articles[..a + 1], locales, now) == ArticleEntries(articles[..a], locales, now) + LocaleEntries(articles[a].slug, locales, now)
  {
    assert articles[..a + 1][..a] == articles[..a];
  }

  lemma {:induction false} StaticEntriesLength(locales: seq<string>, now: int)
    ensures |StaticEntries(locales, now)| == |locales| * 6
    decreases |locales|
  {
    if locales != [] {
      StaticEntriesLength(locales[..|locales| - 1], now);
    }
  }

  lemma {:induction false} ArticleEntriesLength(articles: seq<Article>, locales: seq<string>, now: int)
    ensures |ArticleEntries(articles, locales, now)| == |articles| * |locales|
    decreases |articles|
  {
    if articles != [] {
      var n := |articles|;
      ArticleEntriesLength(articles[..n - 1], locales, now);
      assert (n - 1) * |locales| + |locales| == n * |locales|;
    }
  }

  /** The sitemap has six static entries per locale and one entry per
      article and locale. */
  lemma SitemapLength(locales: seq<string>, articles: seq<Article>, now: int)
    ensures |StaticEntries(locales, now) + ArticleEntries(articles, locales, now)| == |locales| * 6 + |articles| * |locales|
  {
    StaticEntriesLength(locales, now);
    ArticleEntriesLength(articles, locales, now);
  }

  /** Entry `j` of a locale's static block is route `j` of that locale. */
  lemma {:induction false} RouteEntryAt(locale: string, routes: seq<string>, now: int, j: nat)
    requires j < |routes|
    ensures RouteEntries(locale, routes, now)[j] == StaticEntry(locale, routes[j], now)
    decreases |routes|
  {
    if j < |routes| - 1 {
      RouteEntryAt(locale, routes[..|routes| - 1], now, j);
    }
  }

  /** Static entries are locale-major: entry `6 * i + j` is route `j` of
      locale `i`, weekly, with top priority for the root page only. */
  lemma {:induction false} StaticEntryAt(locales: seq<string>, now: int, i: nat, j: nat)
    requires i < |locales| && j < |StaticRoutes|
    ensures 6 * i + j < |StaticEntries(locales, now)|
    ensures StaticEntries(locales, now)[6 * i + j] == StaticEntry(locales[i], StaticRoutes[j], now)
    decreases |locales|
  {
    var n := |locales|;
    var init := locales[..n - 1];
    StaticEntriesLength(locales, now);
    StaticEntriesLength(init, now);
    if i < n - 1 {
      StaticEntryAt(init, now, i, j);
      assert init[i] == locales[i];
    } else {
      assert |StaticEntries(init, now)| == 6 * i;
      RouteEntryAt(locales[n - 1], StaticRoutes, now, j);
    }
  }

  /** Entry `l` of an article's block is the article in locale `l`. */
  lemma {:induction false} LocaleEntryAt(slug: string, locales: seq<string>, now: int, l: nat)
    requires l < |locales|
    ensures LocaleEntries(slug, locales, now)[l] == ArticleEntry(locales[l], slug, now)
    decreases |locales|
  {
    if l < |locales| - 1 {
      LocaleEntryAt(slug, locales[..|locales| - 1], now, l);
    }
  }

  lemma MulMonotone(x: nat, y: nat, k: nat)
    requires x <= y
    ensures x * k <= y * k
  {
  }

  /** Article entries are article-major: entry `a * |locales| + l` is article
      `a` in locale `l`, monthly, priority 0.6. */
  lemma {:induction false} ArticleEntryAt(articles: seq<Article>, locales: seq<string>, now: int, a: nat, l: nat)
    requires a < |articles| && l < |locales|
    ensures a * |locales| + l < |ArticleEntries(articles, locales, now)|
    ensures ArticleEntries(articles, locales, now)[a * |locales| + l] == ArticleEntry(locales[l], articles[a].slug, now)
    decreases |articles|
  {
    var n := |articles|;
    var init := articles[..n - 1];
    ArticleEntriesLength(articles, locales, now);
    ArticleEntriesLength(init, locales, now);
    if a < n - 1 {
      ArticleEntryAt(init, locales, now, a, l);
      assert init[a] == articles[a];
      MulMonotone(a + 1, n - 1, |locales|);
    } else {
      assert |ArticleEntries(init, locales, now)| == a * |locales|;
      LocaleEntryAt(articles[n - 1].slug, locales, now, l);
    }
  }

  /** All static entries come before all article entries. */
  lemma SitemapStaticFirst(locales: seq<string>, articles: seq<Article>, now: int, k: nat)
    requires k < |locales| * 6 + |articles| * |locales|
    ensures |StaticEntries(locales, now) + ArticleEntries(articles, locales, now)| == |locales| * 6 + |articles| * |locales|
    ensures var entries := StaticEntries(locales, now) + ArticleEntries(articles, locales, now);
            entries[k].changeFrequency == if k < |locales| * 6 then Weekly else Monthly
  {
    var L := |locales|;
    var statics, articleEntries := StaticEntries(locales, now), ArticleEntries(articles, locales, now);
    SitemapLength(locales, articles, now);
    StaticEntriesLength(locales, now);
    if k < L * 6 {
      StaticEntryAt(locales, now, k / 6, k % 6);
      assert (statics + articleEntries)[k] == statics[k];
    } else {
      var m := k - 6 * L;
      ArticleBlockAt(articles, locales, now, m);
      assert (statics + articleEntries)[k] == articleEntries[m];
    }
  }

  /** Every article entry is monthly. */
  lemma {:induction false} ArticleBlockAt(articles: seq<Article>, locales: seq<string>, now: int, m: nat)
    requires m < |articles| * |locales|
    ensures m < |ArticleEntries(articles, locales, now)|
    ensures ArticleEntries(articles, locales, now)[m].changeFrequency == Monthly
    decreases |articles|
  {
    var n, L := |articles|, |locales|;
    var init := articles[..n - 1];
    ArticleEntriesLength(articles, locales, now);
    ArticleEntriesLength(init, locales, now);
    assert (n - 1) * L + L == n * L;
    var block := LocaleEntries(articles[n - 1].slug, locales, now);
    if m < (n - 1) * L {
      ArticleBlockAt(init, locales, now, m);
    } else {
      LocaleEntryAt(articles[n - 1].slug, locales, now, m - (n - 1) * L);
      assert ArticleEntries(articles, locales, now)[m] == block[m - (n - 1) * L];
    }
  }

  /** A locale free of `/` followed by a path that is empty or starts with
      `/` can be split back apart. */
  lemma SplitLocale(l1: string, r1: string, l2: string, r2: string)
    requires '/' !in l1 && '/' !in l2
    requires (r1 == [] || r1[0] == '/') && (r2 == [] || r2[0] == '/')
    requires l1 + r1 == l2 + r2
    ensures l1 == l2 && r1 == r2
  {
    var s := l1 + r1;
    FirstFieldUnique(s, '/', l1);
    FirstFieldUnique(s, '/', l2);
    assert r1 == s[|l1|..];
  }

  lemma DropBase(x: string, y: string)
    requires BaseUrl + "/" + x == BaseUrl + "/" + y
    ensures x == y
  {
    var n := |BaseUrl + "/"|;
    assert x == (BaseUrl + "/" + x)[n..];
    assert y == (BaseUrl + "/" + y)[n..];
  }

  predicate Distinct<T(==)>(s: seq<T>) {
    forall i, j :: 0 <= i < j < |s| ==> s[i] != s[j]
  }

  function Slugs(articles: seq<Article>): seq<string>
  {
    seq(|articles|, i requires 0 <= i < |articles| => articles[i].slug)
  }

  /** Each static route is empty or starts with `/`, the six are distinct,
      and none starts with the article segment. */
  lemma StaticRoutesShape(j1: nat, j2: nat, slug: string)
    requires j1 < 6 && j2 < 6
    ensures StaticRoutes[j1] == [] || StaticRoutes[j1][0] == '/'
    ensures j1 != j2 ==> StaticRoutes[j1] != StaticRoutes[j2]
    ensures StaticRoutes[j1] != ArticlesSegment + slug
  {
    var r, t := StaticRoutes[j1], ArticlesSegment + slug;
    assert |t| >= 10 && t[1] == 'a';
    assert |r| >= 10 ==> r[1] == 'r';
  }

  /** Static URLs are injective in the locale and the route. */
  lemma StaticUrlInjective(l1: string, r1: string, l2: string, r2: string, now: int)
    requires '/' !in l1 && '/' !in l2
    requires (r1 == [] || r1[0] == '/') && (r2 == [] || r2[0] == '/')
    requires StaticEntry(l1, r1, now).url == StaticEntry(l2, r2, now).url
    ensures l1 == l2 && r1 == r2
  {
    assert BaseUrl + "/" + l1 + r1 == BaseUrl + "/" + (l1 + r1);
    assert BaseUrl + "/" + l2 + r2 == BaseUrl + "/" + (l2 + r2);
    DropBase(l1 + r1, l2 + r2);
    SplitLocale(l1, r1, l2, r2);
  }

  /** Distinct locales free of `/` give every static page its own URL. */
  lemma StaticUrlsDistinct(locales: seq<string>, now: int, i1: nat, j1: nat, i2: nat, j2: nat)
    requires Distinct(locales) && forall l :: l in locales ==> '/' !in l
    requires i1 < |locales| && i2 < |locales| && j1 < 6 && j2 < 6
    requires i1 != i2 || j1 != j2
    ensures 6 * i1 + j1 < |StaticEntries(locales, now)| && 6 * i2 + j2 < |StaticEntries(locales, now)|
    ensures StaticEntries(locales, now)[6 * i1 + j1].url != StaticEntries(locales, now)[6 * i2 + j2].url
  {
    StaticEntryAt(locales, now, i1, j1);
    StaticEntryAt(locales, now, i2, j2);
    StaticRoutesShape(j1, j2, "");
    StaticRoutesShape(j2, j1, "");
    var e1, e2 := StaticEntry(locales[i1], StaticRoutes[j1], now), StaticEntry(locales[i2], StaticRoutes[j2], now);
    assert StaticEntries(locales, now)[6 * i1 + j1].url == e1.url;
    assert StaticEntries(locales, now)[6 * i2 + j2].url == e2.url;
    if e1.url == e2.url {
      StaticUrlInjective(locales[i1], StaticRoutes[j1], locales[i2], StaticRoutes[j2], now);
    }
  }

  /** Article URLs are injective in the locale and the slug. */
  lemma ArticleUrlInjective(l1: string, s1: string, l2: string, s2: string, now: int)
    requires '/' !in l1 && '/' !in l2
    requires ArticleEntry(l1, s1, now).url == ArticleEntry(l2, s2, now).url
    ensures l1 == l2 && s1 == s2
  {
    var p1, p2 := ArticlePath(l1, s1), ArticlePath(l2, s2);
    assert p1 == (BaseUrl + p1)[|BaseUrl|..];
    assert p2 == (BaseUrl + p2)[|BaseUrl|..];
    ArticlePathInjective(l1, s1, l2, s2);
  }

  /** A static URL is never an article URL. */
  lemma StaticNotArticleUrl(l1: string, j: nat, l2: string, slug: string, now: int)
    requires '/' !in l1 && '/' !in l2 && j < 6
    ensures StaticEntry(l1, StaticRoutes[j], now).url != ArticleEntry(l2, slug, now).url
  {
    StaticRoutesShape(j, j, slug);
    var route, rest := StaticRoutes[j], ArticlesSegment + slug;
    assert StaticEntry(l1, route, now).url == BaseUrl + "/" + (l1 + route);
    assert ArticleEntry(l2, slug, now).url == BaseUrl + "/" + (l2 + rest);
    if BaseUrl + "/" + (l1 + route) == BaseUrl + "/" + (l2 + rest) {
      DropBase(l1 + route, l2 + rest);
      SplitLocale(l1, route, l2, rest);
    }
  }

  /** Distinct slugs and distinct locales free of `/` give every article page
      its own URL. */
  lemma ArticleUrlsDistinct(articles: seq<Article>, locales: seq<string>, now: int, a1: nat, l1: nat, a2: nat, l2: nat)
    requires Distinct(Slugs(articles)) && Distinct(locales) && forall l :: l in locales ==> '/' !in l
    requires a1 < |articles| && a2 < |articles| && l1 < |locales| && l2 < |locales|
    requires a1 != a2 || l1 != l2
    ensures a1 * |locales| + l1 < |ArticleEntries(articles, locales, now)|
    ensures a2 * |locales| + l2 < |ArticleEntries(articles, locales, now)|
    ensures ArticleEntries(articles, locales, now)[a1 * |locales| + l1].url
         != ArticleEntries(articles, locales, now)[a2 * |locales| + l2].url
  {
    ArticleEntryAt(articles, locales, now, a1, l1);
    ArticleEntryAt(articles, locales, now, a2, l2);
    var s1, s2 := articles[a1].slug, articles[a2].slug;
    assert Slugs(articles)[a1] == s1 && Slugs(articles)[a2] == s2;
    var e1, e2 := ArticleEntry(locales[l1], s1, now), ArticleEntry(locales[l2], s2, now);
    if e1.url == e2.url {
      ArticleUrlInjective(locales[l1], s1, locales[l2], s2, now);
    }
  }

  /** No article URL is a static page URL when locales are free of `/`. */
  lemma StaticArticleUrlsDistinct(articles: seq<Article>, locales: seq<string>, now: int, i: nat, j: nat, a: nat, l: nat)
    requires forall loc :: loc in locales ==> '/' !in loc
    requires i < |locales| && j < 6 && a < |articles| && l < |locales|
    ensures 6 * i + j < |StaticEntries(locales, now)|
    ensures a * |locales| + l < |ArticleEntries(articles, locales, now)|
    ensures StaticEntries(locales, now)[6 * i + j].url
         != ArticleEntries(articles, locales, now)[a * |locales| + l].url
  {
    StaticEntryAt(locales, now, i, j);
    ArticleEntryAt(articles, locales, now, a, l);
    StaticNotArticleUrl(locales[i], j, locales[l], articles[a].slug, now);
  }
}
