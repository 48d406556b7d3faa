/** The few Python `str` operations the helper relies on, over strings as sequences of characters. */
module Text {

  /** The characters Python 2.7's `unicode.rstrip()` removes (`unicode.isspace`, Unicode 5.2): the ASCII
      controls tab to carriage return and the four separators after them, space, next line, no-break space,
      and the spaces and separators of the Zs, Zl and Zp categories. */
  predicate IsSpace(c: char) {
    || '\t' <= c <= '\r' || '\U{001C}' <= c <= ' ' || c == '\U{0085}' || c == '\U{00A0}'
    || c == '\U{1680}' || c == '\U{180E}' || '\U{2000}' <= c <= '\U{200A}' || c == '\U{2028}' || c == '\U{2029}'
    || c == '\U{202F}' || c == '\U{205F}' || c == '\U{3000}'
  }

  /** `s.startswith(c)` for a one-character prefix. */
  predicate StartsWith(s: string, c: char) {
    |s| > 0 && s[0] == c
  }

  /** `s.rstrip()`: `s` without its trailing whitespace. */
  function RStrip(s: string): (r: string)
    ensures r <= s
    ensures r == [] || !IsSpace(r[|r| - 1])
    ensures forall i :: |r| <= i < |s| ==> IsSpace(s[i])
  {
    if s != [] && IsSpace(s[|s| - 1]) then RStrip(s[..|s| - 1]) else s
  }

  /** `t` is `s.split(sep)[-1]`: the part of `s` after its last `sep`, or all of `s` when it holds none. */
  predicate IsLastField(t: string, s: string, sep: char) {
    && |t| <= |s| && t == s[|s| - |t|..]
    && (forall k :: |s| - |t| <= k < |s| ==> s[k] != sep)
    && (|t| == |s| || s[|s| - |t| - 1] == sep)
  }

  /** `s.split(sep)[-1]`. */
  function LastField(s: string, sep: char): (r: string)
    ensures IsLastField(r, s, sep)
  {
    if s == [] || s[|s| - 1] == sep then [] else LastField(s[..|s| - 1], sep) + [s[|s| - 1]]
  }

  /** Two strings that are both the last field of `s` are the same string. */
  lemma LastFieldsAgree(t: string, u: string, s: string, sep: char)
    requires IsLastField(t, s, sep) && IsLastField(u, s, sep)
    ensures t == u
  {
    // each suffix starts just after a separator unless it is all of s, and holds none itself
    assert |t| == |u|;
  }

  /** The characterisation IsLastField admits one string only, so it says all there is about LastField. */
  lemma LastFieldUnique(t: string, s: string, sep: char)
    requires IsLastField(t, s, sep)
    ensures t == LastField(s, sep)
  {
    LastFieldsAgree(t, LastField(s, sep), s, sep);
  }

  /** Python 2's `str.lower()` on one character: only ASCII letters change. */
  function LowerChar(c: char): char {
    if 'A' <= c <= 'Z' then (c as int + 32) as char else c
  }

  /** `s.lower()`. */
  function Lower(s: string): (r: string)
    ensures |r| == |s|
    ensures forall i :: 0 <= i < |r| ==> !('A' <= r[i] <= 'Z')
    ensures forall i :: 0 <= i < |s| && !('A' <= s[i] <= 'Z') ==> r[i] == s[i]
    ensures forall i :: 0 <= i < |s| && 'A' <= s[i] <= 'Z' ==> r[i] as int == s[i] as int + 32
  {
    seq(|s|, i requires 0 <= i < |s| => LowerChar(s[i]))
  }

  /** `s.lower() == [l]` holds exactly for the one-letter strings `l` and its capital. */
  lemma LowerIsLetter(s: string, l: char)
    requires 'a' <= l <= 'z'
    ensures Lower(s) == [l] <==> s == [l] || s == [(l as int - 32) as char]
  {
    if Lower(s) == [l] {
      assert |s| == 1 && Lower(s)[0] == LowerChar(s[0]) == l;
      assert s == [s[0]];
    }
    if s == [l] || s == [(l as int - 32) as char] {
      assert Lower(s)[0] == l;
    }
  }
}
