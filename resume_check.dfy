/** The resume check on a locale's home page: on mount it loads the bookmark
    and, while one is held (Offering), offers to continue reading it; confirm
    navigates there and dismiss closes the offer (both back to Idle). Neither
    touches storage. */
module ResumeCheck {
  import opened Wrappers
  import opened Storage
  import opened Routes

  /** The bookmark the mount effect accepts: the stored text must be present,
      non-empty and parse, and the bookmark needs a non-empty slug and locale. */
  function LoadBookmark(items: map<string, string>): (r: Option<Bookmark>)
    ensures r.Some? ==> r.value.slug != "" && r.value.locale != ""
    ensures r.Some? ==> BookmarkKey in items && DecodeBookmark(items[BookmarkKey]) == r
  {
    match Lookup(items, BookmarkKey)
    case None => None
    case Some(raw) =>
      if raw == "" then None
      else
        match DecodeBookmark(raw)
        case None => None
        case Some(b) => if b.slug != "" && b.locale != "" then Some(b) else None
  }

  /** A stored bookmark is offered back exactly when its slug and locale are
      non-empty. */
  lemma LoadStoredBookmark(items: map<string, string>, b: Bookmark)
    ensures LoadBookmark(items[BookmarkKey := EncodeBookmark(b)])
         == if b.slug != "" && b.locale != "" then Some(b) else None
  {
    DecodeEncodeBookmark(b);
  }

  /** With no bookmark text, or an empty one, nothing is offered. */
  lemma NoBookmarkNoOffer(items: map<string, string>)
    requires BookmarkKey !in items || items[BookmarkKey] == ""
    ensures LoadBookmark(items).None?
  {
  }

  /** The prompt text: the locale's resume sentence, then the bookmarked
      title in curly quotes. */
  function PromptMessage(resume: string, title: string): (m: string)
    ensures |m| == |resume| + |title| + 3
    ensures m[..|resume|] == resume && m[|resume| + 2..|m| - 1] == title
    ensures m[|resume|..|resume| + 2] == " “" && m[|m| - 1] == '”'
  {
    resume + " “" + title + "”"
  }

  class KnmResumeCheck {
    /** The page's locale; it chooses the prompt texts only. */
    const locale: string
    /** `null` is Idle, a bookmark is Offering. */
    var bookmark: Option<Bookmark>

    constructor (locale: string)
      ensures this.locale == locale && bookmark.None?
    {
      this.locale := locale;
      bookmark := None;
    }

    /** The mount effect. An absent, empty, unparseable or incomplete record
        leaves the state as it was; nothing escapes. */
    method Mount(store: LocalStorage)
      modifies this
      ensures bookmark == if LoadBookmark(store.items).Some? then LoadBookmark(store.items) else old(bookmark)
    {
      var raw := store.GetItem(BookmarkKey);
      if raw.None? || raw.value == "" {
        return;
      }
      var parsed := DecodeBookmark(raw.value);
      if parsed.None? {
        // JSON.parse threw; the error is logged
        return;
      }
      if parsed.value.slug != "" && parsed.value.locale != "" {
        bookmark := parsed;
      }
    }

    /** What the component renders: nothing while Idle, the prompt while
        Offering; `resume` is the page locale's resume sentence. */
    function Prompt(resume: string): (message: Option<string>)
      reads this
      ensures message.Some? <==> bookmark.Some?
      ensures bookmark.Some? ==> message == Some(PromptMessage(resume, bookmark.value.title))
    {
      match bookmark
      case None => None
      case Some(b) => Some(PromptMessage(resume, b.title))
    }

    /** The confirm button: the target is built from the bookmark's own
        locale, not the page's, and the offer closes. */
    method Confirm() returns (target: string)
      requires bookmark.Some?
      modifies this
      ensures target == ArticlePath(old(bookmark).value.locale, old(bookmark).value.slug)
      ensures bookmark.None?
    {
      target := ArticlePath(bookmark.value.locale, bookmark.value.slug);
      bookmark := None;
    }

    /** The dismiss button: the offer closes without navigation. */
    method Dismiss()
      requires bookmark.Some?
      modifies this
      ensures bookmark.None?
    {
      bookmark := None;
    }
  }
}
