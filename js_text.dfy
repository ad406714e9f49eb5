/** The part of JavaScript's `String.prototype.trim` the form validators
    rely on: what counts as white space, and what trimming leaves. */
module JsText {

  /** A white-space or line-terminator code point as ECMAScript defines
      them for `trim`: tab, vertical tab, form feed, space, no-break space,
      the byte-order mark, the other space separators (category Zs), line
      feed, carriage return, line and paragraph separator. */
  predicate IsWhitespace(c: char) {
    || c == '\t' || c == '\U{000B}' || c == '\U{000C}' || c == ' '
    || c == '\U{00A0}' || c == '\U{FEFF}' || c == '\U{1680}'
    || ('\U{2000}' <= c <= '\U{200A}')
    || c == '\U{202F}' || c == '\U{205F}' || c == '\U{3000}'
    || c == '\n' || c == '\r' || c == '\U{2028}' || c == '\U{2029}'
  }

  /** Every character of `s` is white space (vacuously so for ""). */
  predicate AllWhitespace(s: string) {
    forall i :: 0 <= i < |s| ==> IsWhitespace(s[i])
  }

  /** `s` without its leading white space. */
  function TrimStart(s: string): string {
    if s != [] && IsWhitespace(s[0]) then TrimStart(s[1..]) else s
  }

  /** `s` without its trailing white space. */
  function TrimEnd(s: string): string {
    if s != [] && IsWhitespace(s[|s| - 1]) then TrimEnd(s[..|s| - 1]) else s
  }

  /** TrimStart drops a prefix of white space and stops at the first
      character that is not white space. */
  lemma {:induction false} TrimStartDropsLeadingWhitespace(s: string)
    ensures var r := TrimStart(s);
      && |r| <= |s| && r == s[|s| - |r|..]
      && AllWhitespace(s[..|s| - |r|])
      && (r != [] ==> !IsWhitespace(r[0]))
  {
    if s != [] && IsWhitespace(s[0]) {
      var t := s[1..];
      TrimStartDropsLeadingWhitespace(t);
      var r := TrimStart(s);
      var k := |s| - |r|;
      assert r == t[|t| - |r|..] == s[k..];
      forall i | 0 <= i < k ensures IsWhitespace(s[..k][i]) {
        if i == 0 {
          assert s[..k][0] == s[0];
        } else {
          assert s[..k][i] == t[..k - 1][i - 1];
        }
      }
    }
  }

  /** TrimEnd drops a suffix of white space and stops at the last
      character that is not white space. */
  lemma {:induction false} TrimEndDropsTrailingWhitespace(s: string)
    ensures var r := TrimEnd(s);
      && |r| <= |s| && r == s[..|r|]
      && AllWhitespace(s[|r|..])
      && (r != [] ==> !IsWhitespace(r[|r| - 1]))
  {
    if s != [] && IsWhitespace(s[|s| - 1]) {
      var p := s[..|s| - 1];
      TrimEndDropsTrailingWhitespace(p);
      var r := TrimEnd(s);
      assert r == p[..|r|] == s[..|r|];
      forall i | 0 <= i < |s| - |r| ensures IsWhitespace(s[|r|..][i]) {
        if i < |s| - 1 - |r| {
          assert s[|r|..][i] == p[|r|..][i];
        } else {
          assert s[|r|..][i] == s[|s| - 1];
        }
      }
    }
  }

  /** `s.trim()`. */
  function Trim(s: string): (r: string)
    ensures |r| <= |s|
    ensures r != [] ==> !IsWhitespace(r[0]) && !IsWhitespace(r[|r| - 1])
  {
    TrimStartDropsLeadingWhitespace(s);
    TrimEndDropsTrailingWhitespace(TrimStart(s));
    var r := TrimEnd(TrimStart(s));
    assert r != [] ==> r[0] == TrimStart(s)[0];
    r
  }

  /** `!s.trim()` in JavaScript: the trimmed string is the empty (falsy)
      string. */
  predicate Blank(s: string)
    ensures Blank(s) <==> AllWhitespace(s)
  {
    BlankIffAllWhitespace(s);
    Trim(s) == ""
  }

  /** A string trims to "" exactly when it consists of white space only. */
  lemma BlankIffAllWhitespace(s: string)
    ensures Trim(s) == "" <==> AllWhitespace(s)
  {
    var t := TrimStart(s);
    var k := |s| - |t|;
    TrimStartDropsLeadingWhitespace(s);
    TrimEndDropsTrailingWhitespace(t);
    if Trim(s) == "" {
      // TrimEnd(t) is empty, so all of t is white space; TrimStart leaves no
      // leading white space, so t itself is empty.
      assert AllWhitespace(t[|TrimEnd(t)|..]);
      forall i | 0 <= i < |s| ensures IsWhitespace(s[i]) {
        assert s[i] == s[..k][i];
      }
    }
    if AllWhitespace(s) {
      // A non-empty t would start with the white space s[k].
      assert t == [];
    }
  }
}
