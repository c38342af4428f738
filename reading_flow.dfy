/** How the components meet: the tracker writes what the listing and the resume
    check read back, and whole user-visible sequences of the speech hook. */
module ReadingFlow {
  import opened Wrappers
  import opened Json
  import opened Storage
  import opened Routes
  import opened ArticleTracker
  import opened ResumeCheck
  import opened ArticleList
  import opened WebSpeech

  /** The history a freshly mounted listing ends up with: the stored list when
      it parses, the empty list otherwise. */
  function ListHistory(items: map<string, string>): seq<string>
  {
    match HistoryText(items)
    case None => []
    case Some(raw) => DecodeList(raw).GetOr([])
  }

  /** The listing and the tracker read the history the same way; where the
      tracker gives up, the listing shows nothing as read. */
  lemma ListHistoryAgrees(items: map<string, string>)
    ensures StoredHistory(items).Some? ==> ListHistory(items) == StoredHistory(items).value
    ensures StoredHistory(items).None? ==> ListHistory(items) == []
  {
  }

  /** A fresh listing mounted on some storage holds `ListHistory`. */
  method MountList(items: map<string, string>, articles: seq<Article>, locale: string) returns (history: seq<string>)
    ensures history == ListHistory(items)
  {
    var store := new LocalStorage(items);
    var list := new ArticleListView(articles, locale);
    list.LoadHistory(store);
    history := list.readHistory;
  }

  /** After an article view over a readable history, a freshly loaded listing
      marks that article as read, in any locale, and everything read before
      stays read. */
  lemma ViewedArticleShowsRead(items: map<string, string>, title: string, locale: string, now: int,
                               articles: seq<Article>, listLocale: string, i: nat)
    requires StoredHistory(items).Some? && i < |articles|
    ensures var after := ListHistory(Tracked(items, articles[i].slug, title, locale, now));
            && Cards(articles, listLocale, after)[i].isRead
            && forall s :: s in StoredHistory(items).value ==> s in after
  {
    var slug := articles[i].slug;
    TrackRecordsSlug(items, slug, title, locale, now);
    ListHistoryAgrees(Tracked(items, slug, title, locale, now));
    CardsAt(articles, listLocale, ListHistory(Tracked(items, slug, title, locale, now)), i);
  }

  /** After an article view the resume check offers exactly that article,
      provided its slug and locale are non-empty. */
  lemma ResumeAfterView(items: map<string, string>, slug: string, title: string, locale: string, now: int)
    ensures LoadBookmark(Tracked(items, slug, title, locale, now))
         == if slug != "" && locale != "" then Some(Bookmark(slug, title, locale, now)) else None
  {
    var b := Bookmark(slug, title, locale, now);
    var after := Tracked(items, slug, title, locale, now);
    TrackWritesBookmark(items, slug, title, locale, now);
    assert BookmarkKey != HistoryKey;
    assert after[BookmarkKey] == EncodeBookmark(b);
    assert EncodeBookmark(b)[0] == '{';
  }

  /** View an article, then open a home page and confirm the prompt: the
      navigation goes to the viewed article in the locale it was read in,
      which is the link its card has in that locale's listing. */
  method ViewThenResume(items: map<string, string>, slug: string, title: string, locale: string, now: int,
                        pageLocale: string) returns (target: Option<string>)
    requires slug != "" && locale != ""
    ensures target == Some(ArticlePath(locale, slug))
    ensures forall h :: target == Some(CardFor(Article(slug), locale, h).href)
  {
    var store := new LocalStorage(items);
    Track(store, slug, title, locale, now);
    ResumeAfterView(items, slug, title, locale, now);
    var check := new KnmResumeCheck(pageLocale);
    check.Mount(store);
    var t := check.Confirm();
    target := Some(t);
  }

  /** Dismissing leaves storage alone, so the next home page visit offers the
      same bookmark again. */
  method ResumeAfterDismiss(items: map<string, string>, pageLocale: string) returns (first: Option<Bookmark>, second: Option<Bookmark>)
    ensures first == second == LoadBookmark(items)
  {
    var store := new LocalStorage(items);
    var check := new KnmResumeCheck(pageLocale);
    check.Mount(store);
    first := check.bookmark;
    if check.bookmark.Some? {
      check.Dismiss();
    }
    var again := new KnmResumeCheck(pageLocale);
    again.Mount(store);
    second := again.bookmark;
  }

  /** Two `speak` calls in a row: only the second utterance is left to be
      heard. */
  method SpeakTwice(first: string, second: string, lang: string, voices: seq<Voice>) returns (playing: seq<Utterance>)
    ensures playing == [Utterance(second, SelectVoice(voices, lang), lang, DefaultRate)]
  {
    var hook := new SpeechHook(true, true);
    hook.Mount();
    hook.Speak(first, DefaultRate, lang, voices);
    hook.Speak(second, DefaultRate, lang, voices);
    playing := Playing(hook.synthesisCalls);
  }

  /** Restarting listening and then receiving the first session's late end
      event: the hook reports that it is not listening and drops its
      reference to the second session, which was started and never stopped,
      so a later `stopListening` cannot stop it. */
  method LateEndAfterRestart() returns (listening: bool, held: Option<nat>, calls: seq<RecognitionCall>)
    ensures !listening && held.None?
    ensures calls == [Create(0, ListeningConfig), Start(0), Stop(0), Create(1, ListeningConfig), Start(1)]
    ensures Start(1) in calls && Stop(1) !in calls
  {
    var hook := new SpeechHook(true, true);
    hook.Mount();
    hook.StartListening(NoFault);
    hook.OnStart(0);
    hook.StartListening(NoFault);
    hook.OnStart(1);
    hook.OnEnd(0);
    hook.StopListening();
    listening, held, calls := hook.isListening, hook.recognition, hook.recognitionCalls;
  }
}
