/** String helpers shared by several components: `startsWith` and the first
    field of `split(sep)`. */
module Text {

  /** `s.startsWith(prefix)`. */
  predicate StartsWith(s: string, prefix: string) {
    prefix <= s
  }

  /** `s.split(sep)[0]`: the longest prefix of `s` that does not contain `sep`. */
  function FirstField(s: string, sep: char): (p: string)
    ensures p <= s
    ensures sep !in p
    ensures |p| < |s| ==> s[|p|] == sep
  {
    if s == [] || s[0] == sep then []
    else [s[0]] + FirstField(s[1..], sep)
  }

  /** The field is unique: any prefix free of `sep` that stops at `sep` or at the
      end of `s` is `FirstField(s, sep)`. */
  lemma {:induction false} FirstFieldUnique(s: string, sep: char, p: string)
    requires p <= s && sep !in p
    requires |p| < |s| ==> s[|p|] == sep
    ensures FirstField(s, sep) == p
  {
    if p == [] {
    } else {
      assert s[0] == p[0] && s[0] != sep;
      FirstFieldUnique(s[1..], sep, p[1..]);
      assert [s[0]] + p[1..] == p;
    }
  }
}
