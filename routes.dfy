/** Articles and the site path of an article page, `/{locale}/articles/{slug}`,
    which the article list links to, the resume prompt navigates to and the
    sitemap lists. */
module Routes {
  import opened Text

  /** An article as the listing and the sitemap see it: only its slug matters
      here (titles, descriptions and tags are presentation). */
  datatype Article = Article(slug: string)

  const ArticlesSegment: string := "/articles/"

  function ArticlePath(locale: string, slug: string): string
  {
    "/" + locale + ArticlesSegment + slug
  }

  /** Two article paths are equal exactly when they name the same locale and
      slug, as long as locales contain no `/` (slugs may contain anything). */
  lemma ArticlePathInjective(l1: string, s1: string, l2: string, s2: string)
    requires '/' !in l1 && '/' !in l2
    ensures ArticlePath(l1, s1) == ArticlePath(l2, s2) <==> l1 == l2 && s1 == s2
  {
    if ArticlePath(l1, s1) == ArticlePath(l2, s2) {
      var p := ArticlePath(l1, s1);
      var tail := p[1..];
      assert tail == l1 + ArticlesSegment + s1;
      assert tail == l2 + ArticlesSegment + s2;
      assert tail[|l1|] == '/';
      assert tail[|l2|] == '/';
      FirstFieldUnique(tail, '/', l1);
      FirstFieldUnique(tail, '/', l2);
      assert s1 == tail[|l1| + |ArticlesSegment|..];
    }
  }
}
