/** The JSON texts the site keeps in browser storage: JSON strings, integers and
    arrays of strings, written the way `JSON.stringify` writes them and read back
    by a strict `JSON.parse` that fails (returns `None`) on anything else. */
module Json {
  import opened Wrappers

  // ---------------------------------------------------------------- strings

  /** Lower-case hexadecimal digit, as used in `\u00XX` escapes. */
  function HexDigit(d: nat): char
    requires d < 16
  {
    if d < 10 then ('0' as int + d) as char else ('a' as int + d - 10) as char
  }

  /** Value of a hexadecimal digit in either case. */
  function HexValue(c: char): (r: Option<nat>)
    ensures r.Some? ==> r.value < 16
  {
    if '0' <= c <= '9' then Some(c as int - '0' as int)
    else if 'a' <= c <= 'f' then Some(c as int - 'a' as int + 10)
    else if 'A' <= c <= 'F' then Some(c as int - 'A' as int + 10)
    else None
  }

  /** Value of the four hexadecimal digits of a `\uXXXX` escape. */
  function Hex4(h: string): (r: Option<nat>)
    requires |h| == 4
    ensures r.Some? ==> r.value < 0x10000
  {
    var a :- HexValue(h[0]);
    var b :- HexValue(h[1]);
    var c :- HexValue(h[2]);
    var d :- HexValue(h[3]);
    Some(((a * 16 + b) * 16 + c) * 16 + d)
  }

  /** How `JSON.stringify` writes one character inside a string literal: the
      quote and the backslash are escaped, the five control characters with a
      short escape use it, the other control characters become `\u00XX`, and
      everything else is written as it is. */
  function EscapeChar(c: char): string
  {
    if c == '"' then "\\\""
    else if c == '\\' then "\\\\"
    else if c as int == 0x08 then "\\b"
    else if c as int == 0x09 then "\\t"
    else if c as int == 0x0A then "\\n"
    else if c as int == 0x0C then "\\f"
    else if c as int == 0x0D then "\\r"
    else if c < ' ' then "\\u00" + [HexDigit(c as int / 16), HexDigit(c as int % 16)]
    else [c]
  }

  function Escape(s: string): string
  {
    if s == [] then [] else EscapeChar(s[0]) + Escape(s[1..])
  }

  /** `JSON.stringify(s)` for a string `s`. */
  function Quote(s: string): string
  {
    "\"" + Escape(s) + "\""
  }

  /** The character a two-character escape `\c` stands for. */
  function ShortEscape(c: char): Option<char>
  {
    if c == '"' then Some('"')
    else if c == '\\' then Some('\\')
    else if c == '/' then Some('/')
    else if c == 'b' then Some(0x08 as char)
    else if c == 't' then Some(0x09 as char)
    else if c == 'n' then Some(0x0A as char)
    else if c == 'f' then Some(0x0C as char)
    else if c == 'r' then Some(0x0D as char)
    else None
  }

  function Prepend(c: char, r: Option<(string, string)>): Option<(string, string)>
  {
    match r
    case None => None
    case Some(p) => Some(([c] + p.0, p.1))
  }

  /** Reads the body of a string literal up to and including its closing quote;
      returns the decoded characters and the text after the quote. Raw control
      characters, unknown escapes and `\u` escapes of surrogate halves fail. */
  function ParseChars(s: string): (r: Option<(string, string)>)
    ensures r.Some? ==> |r.value.1| < |s|
    decreases |s|
  {
    if s == [] then None
    else if s[0] == '"' then Some(([], s[1..]))
    else if s[0] == '\\' then
      if |s| >= 2 && ShortEscape(s[1]).Some? then
        Prepend(ShortEscape(s[1]).value, ParseChars(s[2..]))
      else if |s| >= 6 && s[1] == 'u' then
        match Hex4(s[2..6])
        case None => None
        case Some(v) =>
          if 0xD800 <= v < 0xE000 then None
          else Prepend(v as char, ParseChars(s[6..]))
      else None
    else if s[0] < ' ' then None
    else Prepend(s[0], ParseChars(s[1..]))
  }

  /** Reads one string literal from the front of `s`. */
  function ParseString(s: string): (r: Option<(string, string)>)
    ensures r.Some? ==> |r.value.1| < |s|
  {
    if s != [] && s[0] == '"' then ParseChars(s[1..]) else None
  }

  lemma HexDigitValue(d: nat)
    requires d < 16
    ensures HexValue(HexDigit(d)) == Some(d)
  {
  }

  /** Reading an escaped character gives the character back and goes on after it. */
  lemma EscapeCharParses(c: char, t: string)
    ensures ParseChars(EscapeChar(c) + t) == Prepend(c, ParseChars(t))
  {
    var s := EscapeChar(c) + t;
    if c == '"' || c == '\\' || c as int in {0x08, 0x09, 0x0A, 0x0C, 0x0D} {
      assert s[2..] == t;
    } else if c < ' ' {
      ControlEscapeParses(c, t);
    } else {
      assert s[1..] == t;
    }
  }

  /** A control character without a short escape is read back from its
      `\u00XX` escape. */
  lemma ControlEscapeParses(c: char, t: string)
    requires c < ' ' && c as int !in {0x08, 0x09, 0x0A, 0x0C, 0x0D}
    ensures ParseChars(EscapeChar(c) + t) == Prepend(c, ParseChars(t))
  {
    var hi, lo := c as int / 16, c as int % 16;
    HexDigitValue(hi);
    HexDigitValue(lo);
    var e := EscapeChar(c);
    assert e == ['\\', 'u', '0', '0', HexDigit(hi), HexDigit(lo)];
    var s := e + t;
    assert s[1] == 'u' && ShortEscape(s[1]).None?;
    var digits := s[2..6];
    assert digits == ['0', '0', HexDigit(hi), HexDigit(lo)];
    assert Hex4(digits) == Some(hi * 16 + lo);
    assert s[6..] == t;
  }

  /** The body of an escaped string reads back as the string itself. */
  lemma {:induction false} ParseEscaped(s: string, rest: string)
    ensures ParseChars(Escape(s) + "\"" + rest) == Some((s, rest))
  {
    if s == [] {
      assert Escape(s) + "\"" + rest == "\"" + rest;
      assert ("\"" + rest)[1..] == rest;
    } else {
      var tail := Escape(s[1..]) + "\"" + rest;
      assert Escape(s) + "\"" + rest == EscapeChar(s[0]) + tail;
      EscapeCharParses(s[0], tail);
      ParseEscaped(s[1..], rest);
      assert [s[0]] + s[1..] == s;
    }
  }

  /** `JSON.parse` of `JSON.stringify(s)`, for a string `s`, is `s`; whatever
      follows the literal is left unread. */
  lemma ParseQuote(s: string, rest: string)
    ensures ParseString(Quote(s) + rest) == Some((s, rest))
  {
    assert (Quote(s) + rest)[1..] == Escape(s) + "\"" + rest;
    ParseEscaped(s, rest);
  }

  // --------------------------------------------------------------- integers

  predicate IsDigit(c: char) {
    '0' <= c <= '9'
  }

  function DigitChar(d: nat): char
    requires d < 10
  {
    ('0' as int + d) as char
  }

  /** Decimal digits of `n`, without leading zeros. */
  function NatText(n: nat): string
    decreases n
  {
    if n < 10 then [DigitChar(n)] else NatText(n / 10) + [DigitChar(n % 10)]
  }

  /** `JSON.stringify(n)` for an integer `n`. */
  function IntText(n: int): string
  {
    if n < 0 then "-" + NatText(-n) else NatText(n)
  }

  /** Number of decimal digits at the front of `s`. */
  function DigitRun(s: string): (k: nat)
    ensures k <= |s|
    ensures forall i :: 0 <= i < k ==> IsDigit(s[i])
    ensures k < |s| ==> !IsDigit(s[k])
  {
    if s != [] && IsDigit(s[0]) then 1 + DigitRun(s[1..]) else 0
  }

  function DigitsValue(ds: string): nat
    requires forall i :: 0 <= i < |ds| ==> IsDigit(ds[i])
  {
    if ds == [] then 0
    else
      var last := ds[|ds| - 1];
      assert IsDigit(last);
      10 * DigitsValue(ds[..|ds| - 1]) + (last as int - '0' as int)
  }

  /** Reads a JSON integer without sign: at least one digit, no leading zero. */
  function ParseNat(s: string): (r: Option<(nat, string)>)
    ensures r.Some? ==> |r.value.1| < |s|
  {
    var k := DigitRun(s);
    if k == 0 || (k > 1 && s[0] == '0') then None
    else Some((DigitsValue(s[..k]), s[k..]))
  }

  /** Reads a JSON integer, optionally negative. */
  function ParseInt(s: string): (r: Option<(int, string)>)
    ensures r.Some? ==> |r.value.1| < |s|
  {
    if s != [] && s[0] == '-' then
      match ParseNat(s[1..])
      case None => None
      case Some(p) =>
        var magnitude: int := p.0;
        Some((-magnitude, p.1))
    else ParseNat(s)
  }

  lemma {:induction false} NatTextFacts(n: nat)
    ensures NatText(n) != []
    ensures forall i :: 0 <= i < |NatText(n)| ==> IsDigit(NatText(n)[i])
    ensures DigitsValue(NatText(n)) == n
    ensures n > 0 ==> NatText(n)[0] != '0'
    ensures |NatText(n)| > 1 ==> n >= 10
    decreases n
  {
    if n >= 10 {
      NatTextFacts(n / 10);
      var ds := NatText(n);
      assert ds[..|ds| - 1] == NatText(n / 10);
    }
  }

  lemma ParseNatText(n: nat, rest: string)
    requires rest == [] || !IsDigit(rest[0])
    ensures ParseNat(NatText(n) + rest) == Some((n, rest))
  {
    var ds := NatText(n);
    var s := ds + rest;
    NatTextFacts(n);
    assert forall i :: 0 <= i < |ds| ==> IsDigit(s[i]);
    assert |ds| < |s| ==> !IsDigit(s[|ds|]);
    var k := DigitRun(s);
    assert k == |ds|;
    assert s[..k] == ds && s[k..] == rest;
  }

  /** `JSON.parse` of `JSON.stringify(n)`, for an integer `n`, is `n`, provided
      the text after it does not continue the number. */
  lemma ParseIntText(n: int, rest: string)
    requires rest == [] || !IsDigit(rest[0])
    ensures ParseInt(IntText(n) + rest) == Some((n, rest))
  {
    if n < 0 {
      ParseNegativeText(-n, rest);
      assert IntText(n) + rest == "-" + (NatText(-n) + rest);
    } else {
      ParseNonNegativeText(n, rest);
    }
  }

  lemma ParseNegativeText(m: nat, rest: string)
    requires rest == [] || !IsDigit(rest[0])
    ensures ParseInt("-" + (NatText(m) + rest)) == Some((-(m as int), rest))
  {
    var s := "-" + (NatText(m) + rest);
    assert s[1..] == NatText(m) + rest;
    ParseNatText(m, rest);
  }

  lemma ParseNonNegativeText(n: nat, rest: string)
    requires rest == [] || !IsDigit(rest[0])
    ensures ParseInt(NatText(n) + rest) == Some((n, rest))
  {
    var s := NatText(n) + rest;
    NatTextFacts(n);
    assert s[0] == NatText(n)[0];
    assert IsDigit(s[0]);
    ParseNatText(n, rest);
  }

  // ----------------------------------------------------------- string lists

  function Items(h: seq<string>): string
  {
    if h == [] then ""
    else if |h| == 1 then Quote(h[0])
    else Quote(h[0]) + "," + Items(h[1..])
  }

  /** `JSON.stringify(h)` for an array of strings `h`. */
  function EncodeList(h: seq<string>): string
  {
    "[" + Items(h) + "]"
  }

  /** Reads the elements of a non-empty array after its `[`, up to and
      including the closing `]`. */
  function ParseItems(s: string): (r: Option<(seq<string>, string)>)
    ensures r.Some? ==> |r.value.1| < |s|
    decreases |s|
  {
    match ParseString(s)
    case None => None
    case Some(p) =>
      var rest := p.1;
      if rest != [] && rest[0] == ',' then
        match ParseItems(rest[1..])
        case None => None
        case Some(q) => Some(([p.0] + q.0, q.1))
      else if rest != [] && rest[0] == ']' then Some(([p.0], rest[1..]))
      else None
  }

  function ParseList(s: string): (r: Option<(seq<string>, string)>)
  {
    if "[]" <= s then Some(([], s[2..]))
    else if s != [] && s[0] == '[' then ParseItems(s[1..])
    else None
  }

  /** `JSON.parse(raw)` where the text must be an array of strings and nothing
      more; `None` stands for the exception `JSON.parse` throws. */
  function DecodeList(raw: string): Option<seq<string>>
  {
    match ParseList(raw)
    case None => None
    case Some(p) => if p.1 == [] then Some(p.0) else None
  }

  /** The last item of a written array, followed by `]`. */
  lemma ParseLastItem(x: string, rest: string)
    ensures ParseItems(Quote(x) + ("]" + rest)) == Some(([x], rest))
  {
    ParseQuote(x, "]" + rest);
    assert ("]" + rest)[1..] == rest;
  }

  /** An item of a written array followed by `,` and the remaining items. */
  lemma ParseNextItem(x: string, more: string)
    ensures ParseItems(Quote(x) + ("," + more))
         == match ParseItems(more)
            case None => None
            case Some(q) => Some(([x] + q.0, q.1))
  {
    ParseQuote(x, "," + more);
    assert ("," + more)[1..] == more;
  }

  lemma {:induction false} ParseItemsText(h: seq<string>, rest: string)
    requires h != []
    ensures ParseItems(Items(h) + "]" + rest) == Some((h, rest))
    decreases |h|
  {
    if |h| == 1 {
      assert Items(h) + "]" + rest == Quote(h[0]) + ("]" + rest);
      ParseLastItem(h[0], rest);
      assert [h[0]] == h;
    } else {
      var more := Items(h[1..]) + "]" + rest;
      assert Items(h) + "]" + rest == Quote(h[0]) + ("," + more);
      ParseItemsText(h[1..], rest);
      ParseNextItem(h[0], more);
      assert [h[0]] + h[1..] == h;
    }
  }

  /** Decoding the stored text of a list gives the list back. */
  lemma DecodeEncodeList(h: seq<string>)
    ensures DecodeList(EncodeList(h)) == Some(h)
  {
    var s := EncodeList(h);
    if h == [] {
      assert s == "[]";
    } else {
      assert Items(h)[0] == '"';
      assert s[1] == '"';
      assert s[1..] == Items(h) + "]" + "";
      ParseItemsText(h, "");
    }
  }

  /** The stored text of a list is never the empty string. */
  lemma EncodeListNonEmpty(h: seq<string>)
    ensures EncodeList(h) != "" && EncodeList(h)[0] == '['
  {
  }
}
