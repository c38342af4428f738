/** Browser storage as the site uses it: a key-value map of strings holding two
    records, the last-read bookmark and the read history, each kept as JSON. */
module Storage {
  import opened Wrappers
  import opened Json

  const BookmarkKey: string := "knm-bookmark"
  const HistoryKey: string := "knm-read-history"

  /** The last-read bookmark: the article, its title when it was read, the
      locale it was read in and the time of the visit in epoch milliseconds. */
  datatype Bookmark = Bookmark(slug: string, title: string, locale: string, updatedAt: int)

  /** `JSON.stringify` of a bookmark: its members in declaration order. */
  function EncodeBookmark(b: Bookmark): string
  {
    "{\"slug\":" + (Quote(b.slug) + (",\"title\":" + (Quote(b.title) +
      (",\"locale\":" + (Quote(b.locale) + (",\"updatedAt\":" + (IntText(b.updatedAt) + "}")))))))
  }

  /** The text after the literal `lit` at the front of `s`. */
  function Skip(lit: string, s: string): Option<string>
  {
    if lit <= s then Some(s[|lit|..]) else None
  }

  /** `JSON.parse` of a stored bookmark; `None` when the text is not a bookmark
      object as `JSON.stringify` writes it. */
  function DecodeBookmark(raw: string): Option<Bookmark>
  {
    var r0 :- Skip("{\"slug\":", raw);
    var slug :- ParseString(r0);
    var r1 :- Skip(",\"title\":", slug.1);
    var title :- ParseString(r1);
    var r2 :- Skip(",\"locale\":", title.1);
    var locale :- ParseString(r2);
    var r3 :- Skip(",\"updatedAt\":", locale.1);
    var at :- ParseInt(r3);
    if at.1 == "}" then Some(Bookmark(slug.0, title.0, locale.0, at.0)) else None
  }

  lemma SkipLiteral(lit: string, rest: string)
    ensures Skip(lit, lit + rest) == Some(rest)
  {
    assert (lit + rest)[|lit|..] == rest;
  }

  /** A stored bookmark reads back as the bookmark that was stored. */
  lemma DecodeEncodeBookmark(b: Bookmark)
    ensures DecodeBookmark(EncodeBookmark(b)) == Some(b)
  {
    var t4 := IntText(b.updatedAt) + "}";
    var q3 := ",\"updatedAt\":" + t4;
    var t3 := Quote(b.locale) + q3;
    var q2 := ",\"locale\":" + t3;
    var t2 := Quote(b.title) + q2;
    var q1 := ",\"title\":" + t2;
    var t1 := Quote(b.slug) + q1;
    assert EncodeBookmark(b) == "{\"slug\":" + t1;
    SkipLiteral("{\"slug\":", t1);
    ParseQuote(b.slug, q1);
    SkipLiteral(",\"title\":", t2);
    ParseQuote(b.title, q2);
    SkipLiteral(",\"locale\":", t3);
    ParseQuote(b.locale, q3);
    SkipLiteral(",\"updatedAt\":", t4);
    ParseIntText(b.updatedAt, "}");
  }

  /** `localStorage`: `getItem` yields `null` for a missing key. */
  class LocalStorage {
    var items: map<string, string>

    constructor (items: map<string, string>)
      ensures this.items == items
    {
      this.items := items;
    }

    function GetItem(key: string): Option<string>
      reads this
    {
      Lookup(items, key)
    }

    method SetItem(key: string, value: string)
      modifies this
      ensures items == old(items)[key := value]
    {
      items := items[key := value];
    }
  }

  function Lookup(items: map<string, string>, key: string): Option<string>
  {
    if key in items then Some(items[key]) else None
  }

  /** The stored history text when it is there and not empty, the only case
      in which either reader hands it to `JSON.parse`. */
  function HistoryText(items: map<string, string>): Option<string>
  {
    if HistoryKey in items && items[HistoryKey] != "" then Some(items[HistoryKey]) else None
  }

  /** The history as the tracker reads it, `raw ? JSON.parse(raw) : []`; `None`
      when `JSON.parse` throws. */
  function StoredHistory(items: map<string, string>): Option<seq<string>>
  {
    match HistoryText(items)
    case None => Some([])
    case Some(raw) => DecodeList(raw)
  }

  /** An absent or empty history entry reads as the empty list. */
  lemma AbsentHistoryIsEmpty(items: map<string, string>)
    requires HistoryKey !in items || items[HistoryKey] == ""
    ensures StoredHistory(items) == Some([])
  {
  }

  /** A written history reads back as written, whatever else is stored. */
  lemma StoredHistoryAfterWrite(items: map<string, string>, h: seq<string>)
    ensures StoredHistory(items[HistoryKey := EncodeList(h)]) == Some(h)
  {
    EncodeListNonEmpty(h);
    DecodeEncodeList(h);
  }
}
