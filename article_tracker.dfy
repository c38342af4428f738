/** The effect that runs when an article page is shown: it overwrites the
    bookmark with the current article and adds the slug to the read history
    unless it is already there. */
module ArticleTracker {
  import opened Wrappers
  import opened Json
  import opened Storage

  predicate NoDuplicates(h: seq<string>) {
    forall i, j :: 0 <= i < j < |h| ==> h[i] != h[j]
  }

  /** The storage after one article view. The history is read after the
      bookmark has been written; a history that does not parse leaves that
      key alone (the exception is caught after the bookmark write). */
  function Tracked(items: map<string, string>, slug: string, title: string, locale: string, now: int): map<string, string>
  {
    var written := items[BookmarkKey := EncodeBookmark(Bookmark(slug, title, locale, now))];
    match StoredHistory(written)
    case None => written
    case Some(history) =>
      if slug in history then written
      else written[HistoryKey := EncodeList(history + [slug])]
  }

  /** The effect body; `now` is the value of `Date.now()`. */
  method Track(store: LocalStorage, slug: string, title: string, locale: string, now: int)
    modifies store
    ensures store.items == Tracked(old(store.items), slug, title, locale, now)
  {
    var payload := Bookmark(slug, title, locale, now);
    store.SetItem(BookmarkKey, EncodeBookmark(payload));

    var historyRaw := store.GetItem(HistoryKey);
    var history: seq<string> := [];
    if historyRaw.Some? && historyRaw.value != "" {
      var parsed := DecodeList(historyRaw.value);
      if parsed.None? {
        // JSON.parse threw; the handler logs the error and stops here
        return;
      }
      history := parsed.value;
    }
    if slug !in history {
      history := history + [slug];
      store.SetItem(HistoryKey, EncodeList(history));
    }
  }

  /** The history is read after the bookmark write, which does not touch it. */
  lemma HistoryUnaffectedByBookmark(items: map<string, string>, raw: string)
    ensures StoredHistory(items[BookmarkKey := raw]) == StoredHistory(items)
  {
    assert BookmarkKey != HistoryKey;
    assert HistoryText(items[BookmarkKey := raw]) == HistoryText(items);
  }

  /** Last write wins: after a view the stored bookmark is exactly the viewed
      article, whatever was stored before. */
  lemma TrackWritesBookmark(items: map<string, string>, slug: string, title: string, locale: string, now: int)
    ensures BookmarkKey in Tracked(items, slug, title, locale, now)
    ensures DecodeBookmark(Tracked(items, slug, title, locale, now)[BookmarkKey]) == Some(Bookmark(slug, title, locale, now))
  {
    assert BookmarkKey != HistoryKey;
    DecodeEncodeBookmark(Bookmark(slug, title, locale, now));
  }

  /** A view writes the bookmark key and at most the history key. */
  lemma TrackTouchesOnlyItsKeys(items: map<string, string>, slug: string, title: string, locale: string, now: int, k: string)
    requires k != BookmarkKey && k != HistoryKey
    ensures k in Tracked(items, slug, title, locale, now) <==> k in items
    ensures k in items ==> Tracked(items, slug, title, locale, now)[k] == items[k]
  {
  }

  /** With a readable history, the slug ends up in it: existing entries keep
      their order and a new slug goes at the end. */
  lemma TrackRecordsSlug(items: map<string, string>, slug: string, title: string, locale: string, now: int)
    requires StoredHistory(items).Some?
    ensures StoredHistory(Tracked(items, slug, title, locale, now))
         == Some(var h := StoredHistory(items).value; if slug in h then h else h + [slug])
  {
    var written := items[BookmarkKey := EncodeBookmark(Bookmark(slug, title, locale, now))];
    HistoryUnaffectedByBookmark(items, EncodeBookmark(Bookmark(slug, title, locale, now)));
    var h := StoredHistory(items).value;
    if slug !in h {
      StoredHistoryAfterWrite(written, h + [slug]);
    }
  }

  /** An absent or empty history entry counts as the empty list, so the first
      view stores the one-element history. */
  lemma TrackStartsHistory(items: map<string, string>, slug: string, title: string, locale: string, now: int)
    requires HistoryKey !in items || items[HistoryKey] == ""
    ensures HistoryKey in Tracked(items, slug, title, locale, now)
    ensures Tracked(items, slug, title, locale, now)[HistoryKey] == EncodeList([slug])
  {
    AbsentHistoryIsEmpty(items);
    HistoryUnaffectedByBookmark(items, EncodeBookmark(Bookmark(slug, title, locale, now)));
  }

  /** A slug already in the history causes no history write at all: only the
      bookmark changes. */
  lemma TrackKnownSlugWritesOnlyBookmark(items: map<string, string>, slug: string, title: string, locale: string, now: int)
    requires StoredHistory(items).Some? && slug in StoredHistory(items).value
    ensures Tracked(items, slug, title, locale, now) == items[BookmarkKey := EncodeBookmark(Bookmark(slug, title, locale, now))]
  {
    HistoryUnaffectedByBookmark(items, EncodeBookmark(Bookmark(slug, title, locale, now)));
  }

  /** A history that does not parse is left as it is, but the bookmark has
      already been overwritten. */
  lemma TrackCorruptHistory(items: map<string, string>, slug: string, title: string, locale: string, now: int)
    requires StoredHistory(items).None?
    ensures Tracked(items, slug, title, locale, now) == items[BookmarkKey := EncodeBookmark(Bookmark(slug, title, locale, now))]
    ensures HistoryKey in items && Tracked(items, slug, title, locale, now)[HistoryKey] == items[HistoryKey]
  {
    HistoryUnaffectedByBookmark(items, EncodeBookmark(Bookmark(slug, title, locale, now)));
    assert BookmarkKey != HistoryKey;
  }

  /** A history without duplicates keeps none after a view. */
  lemma TrackKeepsNoDuplicates(items: map<string, string>, slug: string, title: string, locale: string, now: int)
    requires StoredHistory(items).Some? && NoDuplicates(StoredHistory(items).value)
    ensures StoredHistory(Tracked(items, slug, title, locale, now)).Some?
    ensures NoDuplicates(StoredHistory(Tracked(items, slug, title, locale, now)).value)
  {
    TrackRecordsSlug(items, slug, title, locale, now);
  }

  /** Viewing the same article twice leaves the history as after the first
      view, with the slug in it exactly once (if it was there at most once). */
  lemma TrackTwiceSameSlug(items: map<string, string>, slug: string, t1: string, l1: string, n1: int, t2: string, l2: string, n2: int)
    requires StoredHistory(items).Some? && multiset(StoredHistory(items).value)[slug] <= 1
    ensures var once := Tracked(items, slug, t1, l1, n1);
            var twice := Tracked(once, slug, t2, l2, n2);
            StoredHistory(twice) == StoredHistory(once) && StoredHistory(twice).Some?
            && multiset(StoredHistory(twice).value)[slug] == 1
  {
    var once := Tracked(items, slug, t1, l1, n1);
    TrackRecordsSlug(items, slug, t1, l1, n1);
    var h1 := StoredHistory(once).value;
    assert slug in h1;
    TrackRecordsSlug(once, slug, t2, l2, n2);
  }

  /** One article view, for a run of several. */
  datatype Visit = Visit(slug: string, title: string, locale: string, at: int)

  /** The storage after the views in `visits`, in order. */
  function TrackAll(items: map<string, string>, visits: seq<Visit>): map<string, string>
    decreases |visits|
  {
    if visits == [] then items
    else
      var v := visits[|visits| - 1];
      Tracked(TrackAll(items, visits[..|visits| - 1]), v.slug, v.title, v.locale, v.at)
  }

  function Slugs(visits: seq<Visit>): seq<string>
  {
    seq(|visits|, i requires 0 <= i < |visits| => visits[i].slug)
  }

  /** The history update of one view, on the list itself. */
  function AddSlug(h: seq<string>, slug: string): seq<string>
  {
    if slug in h then h else h + [slug]
  }

  /** Adding a slug keeps the list as a prefix, keeps it duplicate-free and
      adds exactly that slug. */
  lemma AddIfAbsent(h: seq<string>, slug: string)
    ensures var h' := AddSlug(h, slug);
            h <= h' && (NoDuplicates(h) ==> NoDuplicates(h')) && forall x :: x in h' <==> x in h || x == slug
  {
  }

  /** After any run of views the bookmark is the last view. */
  lemma LastVisitWins(items: map<string, string>, visits: seq<Visit>)
    requires visits != []
    ensures BookmarkKey in TrackAll(items, visits)
    ensures var v := visits[|visits| - 1];
            DecodeBookmark(TrackAll(items, visits)[BookmarkKey]) == Some(Bookmark(v.slug, v.title, v.locale, v.at))
  {
    var v := visits[|visits| - 1];
    TrackWritesBookmark(TrackAll(items, visits[..|visits| - 1]), v.slug, v.title, v.locale, v.at);
  }

  /** The history after a run of views, on the list itself. */
  function AddSlugs(h: seq<string>, slugs: seq<string>): seq<string>
  {
    if slugs == [] then h else AddSlug(AddSlugs(h, slugs[..|slugs| - 1]), slugs[|slugs| - 1])
  }

  /** Over storage, a run of views from a readable history updates it as
      `AddSlugs` does. */
  lemma {:induction false} TrackAllStoredHistory(items: map<string, string>, visits: seq<Visit>)
    requires StoredHistory(items).Some?
    ensures StoredHistory(TrackAll(items, visits)) == Some(AddSlugs(StoredHistory(items).value, Slugs(visits)))
    decreases |visits|
  {
    if visits != [] {
      var before := visits[..|visits| - 1];
      var v := visits[|visits| - 1];
      TrackAllStoredHistory(items, before);
      var mid := TrackAll(items, before);
      assert TrackAll(items, visits) == Tracked(mid, v.slug, v.title, v.locale, v.at);
      TrackRecordsSlug(mid, v.slug, v.title, v.locale, v.at);
      assert Slugs(visits)[..|visits| - 1] == Slugs(before);
    }
  }

  /** A run of additions keeps the old list as a prefix, adds no duplicates
      and adds exactly the given slugs. */
  lemma {:induction false} AddSlugsFacts(h: seq<string>, slugs: seq<string>)
    ensures h <= AddSlugs(h, slugs)
    ensures NoDuplicates(h) ==> NoDuplicates(AddSlugs(h, slugs))
    ensures forall x :: x in AddSlugs(h, slugs) <==> x in h || x in slugs
    decreases |slugs|
  {
    if slugs != [] {
      var init := slugs[..|slugs| - 1];
      AddSlugsFacts(h, init);
      AddIfAbsent(AddSlugs(h, init), slugs[|slugs| - 1]);
      assert slugs == init + [slugs[|slugs| - 1]];
    }
  }

  /** After any run of views from a readable, duplicate-free history, the
      history starts with the old one, holds exactly the old entries and the
      visited slugs, and still has no duplicates. */
  lemma TrackAllHistory(items: map<string, string>, visits: seq<Visit>)
    requires StoredHistory(items).Some? && NoDuplicates(StoredHistory(items).value)
    ensures StoredHistory(TrackAll(items, visits)).Some?
    ensures var h, h' := StoredHistory(items).value, StoredHistory(TrackAll(items, visits)).value;
            h <= h' && NoDuplicates(h') && forall x :: x in h' <==> x in h || x in Slugs(visits)
  {
    TrackAllStoredHistory(items, visits);
    AddSlugsFacts(StoredHistory(items).value, Slugs(visits));
  }
}
