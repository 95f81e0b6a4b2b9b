/**
 * The string operations the analyzer relies on: `str.isspace`, `str.lower`,
 * `str.strip` and `str.split()` (no separator), and the token set
 * `set(text.lower().split())` used by every lexical score.
 */
module Text {

  /** The characters for which Python's `str.isspace()` holds; `split()` and
      `strip()` with no argument cut at exactly these. */
  predicate IsSpace(c: char) {
    || ('\t' <= c <= '\r')              // \t \n \v \f \r
    || ('\U{1C}' <= c <= '\U{1F}')      // file, group, record and unit separators
    || c == ' ' || c == '\U{85}' || c == '\U{A0}' || c == '\U{1680}'
    || ('\U{2000}' <= c <= '\U{200A}')
    || c == '\U{2028}' || c == '\U{2029}' || c == '\U{202F}' || c == '\U{205F}' || c == '\U{3000}'
  }

  predicate Blank(s: string) {
    forall i | 0 <= i < |s| :: IsSpace(s[i])
  }

  /** `str.lower()` on one character; only ASCII letters are mapped. */
  function LowerChar(c: char): (r: char) {
    if 'A' <= c <= 'Z' then (c as int + 32) as char else c
  }

  function Lower(s: string): (r: string)
    ensures |r| == |s|
  {
    seq(|s|, i requires 0 <= i < |s| => LowerChar(s[i]))
  }

  /** `s` without its leading whitespace. */
  function TrimLeft(s: string): (r: string)
    ensures |r| <= |s| && r == s[|s| - |r|..]
    ensures r == [] || !IsSpace(r[0])
    ensures Blank(s[..|s| - |r|])
  {
    if s != [] && IsSpace(s[0]) then
      var r := TrimLeft(s[1..]);
      assert s[1..][..|s| - 1 - |r|] == s[1..|s| - |r|];
      r
    else s
  }

  /** `s` without its trailing whitespace. */
  function TrimRight(s: string): (r: string)
    ensures |r| <= |s| && r == s[..|r|]
    ensures r == [] || !IsSpace(r[|r| - 1])
    ensures Blank(s[|r|..])
  {
    if s != [] && IsSpace(s[|s| - 1]) then
      var r := TrimRight(s[..|s| - 1]);
      assert s[|r|..] == s[..|s| - 1][|r|..] + [s[|s| - 1]];
      r
    else s
  }

  /** `str.strip()`. */
  function Strip(s: string): (r: string) {
    TrimRight(TrimLeft(s))
  }

  /** Length of the run of non-space characters that starts `s`. */
  function WordLength(s: string): (n: nat)
    ensures n <= |s|
    ensures forall i | 0 <= i < n :: !IsSpace(s[i])
    ensures n < |s| ==> IsSpace(s[n])
  {
    if s == [] || IsSpace(s[0]) then 0 else 1 + WordLength(s[1..])
  }

  /** `str.split()` with no separator: the maximal runs of non-space characters, in order. */
  function Words(s: string): (ws: seq<string>)
    decreases |s|
  {
    var t := TrimLeft(s);
    if t == [] then []
    else
      var n := WordLength(t);
      [t[..n]] + Words(t[n..])
  }

  /** `set(s.lower().split())`. */
  function Tokens(s: string): (r: set<string>) {
    set w | w in Words(Lower(s))
  }

  /** A word: non-empty, with no whitespace in it. */
  predicate IsWord(w: string) {
    w != [] && forall i | 0 <= i < |w| :: !IsSpace(w[i])
  }

  /** Every word that `split()` produces is a word. */
  lemma {:induction false} WordsAreWords(s: string)
    ensures forall w | w in Words(s) :: IsWord(w)
    decreases |s|
  {
    var t := TrimLeft(s);
    if t != [] {
      var n := WordLength(t);
      assert IsWord(t[..n]) by {
        assert n > 0;
      }
      WordsAreWords(t[n..]);
      assert Words(s) == [t[..n]] + Words(t[n..]);
    }
  }

  /** `split()` yields no word exactly when the text is all whitespace,
      which is exactly when `strip()` leaves nothing. */
  lemma {:induction false} WordsEmptyIffBlank(s: string)
    ensures Words(s) == [] <==> Blank(s)
    ensures Strip(s) == [] <==> Blank(s)
  {
    var t := TrimLeft(s);
    assert s == s[..|s| - |t|] + t;
    if t == [] {
      assert Blank(s);
    } else {
      assert !IsSpace(s[|s| - |t|]);
    }
  }

  /** Lowercasing moves no character into or out of the whitespace class. */
  lemma LowerKeepsBlank(s: string)
    ensures Blank(Lower(s)) <==> Blank(s)
  {
    if !Blank(s) {
      var i :| 0 <= i < |s| && !IsSpace(s[i]);
      assert !IsSpace(Lower(s)[i]);
    }
  }

  /** A text with at least one non-space character has at least one token. */
  lemma TokensNonEmpty(s: string)
    requires !Blank(s)
    ensures Tokens(s) != {}
  {
    LowerKeepsBlank(s);
    WordsEmptyIffBlank(Lower(s));
    assert Words(Lower(s))[0] in Tokens(s);
  }

  /** A blank text has no tokens. */
  lemma TokensEmpty(s: string)
    requires Blank(s)
    ensures Tokens(s) == {}
  {
    LowerKeepsBlank(s);
    WordsEmptyIffBlank(Lower(s));
  }
}
