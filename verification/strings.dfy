/** Whitespace and trimming as ECMAScript defines them. The same character class serves
    `String.prototype.trim` (Home.jsx, Auth.jsx) and the `\s` escape of the e-mail pattern. */
module Strings {

  /** ECMAScript WhiteSpace (TAB, VT, FF, SP, NBSP, ZWNBSP and the Zs category)
      together with LineTerminator (LF, CR, LS, PS). */
  predicate IsSpace(c: char)
  {
    || c == '\t' || c == '\n' || c == '\U{000B}' || c == '\U{000C}' || c == '\r' || c == ' '
    || c == '\U{00A0}' || c == '\U{1680}' || ('\U{2000}' <= c <= '\U{200A}')
    || c == '\U{2028}' || c == '\U{2029}' || c == '\U{202F}' || c == '\U{205F}'
    || c == '\U{3000}' || c == '\U{FEFF}'
  }

  /** Every character of `s` is whitespace (vacuously true of the empty string). */
  predicate Blank(s: string)
  {
    forall i :: 0 <= i < |s| ==> IsSpace(s[i])
  }

  /** Drops leading whitespace: the result is the longest suffix that does not start with it. */
  function TrimStart(s: string): (r: string)
    ensures |r| <= |s| && r == s[|s| - |r|..]
    ensures forall i :: 0 <= i < |s| - |r| ==> IsSpace(s[i])
    ensures |r| > 0 ==> !IsSpace(r[0])
  {
    if |s| > 0 && IsSpace(s[0]) then TrimStart(s[1..]) else s
  }

  /** Drops trailing whitespace: the result is the longest prefix that does not end with it. */
  function TrimEnd(s: string): (r: string)
    ensures |r| <= |s| && r == s[..|r|]
    ensures forall i :: |r| <= i < |s| ==> IsSpace(s[i])
    ensures |r| > 0 ==> !IsSpace(r[|r| - 1])
  {
    if |s| > 0 && IsSpace(s[|s| - 1]) then TrimEnd(s[..|s| - 1]) else s
  }

  /** `s.trim()`: the input with its leading and trailing whitespace cut off. */
  function Trim(s: string): (r: string)
    ensures |r| <= |s|
    ensures |r| > 0 ==> !IsSpace(r[0]) && !IsSpace(r[|r| - 1])
    ensures exists a, b :: 0 <= a <= b <= |s| && r == s[a..b] && Blank(s[..a]) && Blank(s[b..])
  {
    var front := TrimStart(s);
    var back := TrimEnd(front);
    TrimSplit(s, front, back);
    back
  }

  /** Where `Trim` cuts: when `front` is a suffix of `s` after whitespace and `back` a
      prefix of `front` before whitespace, `back` is a slice of `s` with whitespace on
      either side. */
  lemma TrimSplit(s: string, front: string, back: string)
    requires |front| <= |s| && front == s[|s| - |front|..]
    requires forall i :: 0 <= i < |s| - |front| ==> IsSpace(s[i])
    requires |back| <= |front| && back == front[..|back|]
    requires forall i :: |back| <= i < |front| ==> IsSpace(front[i])
    ensures var a := |s| - |front|;
      && a + |back| <= |s| && back == s[a..a + |back|]
      && Blank(s[..a]) && Blank(s[a + |back|..])
  {
    var a := |s| - |front|;
    var b := a + |back|;
    BlankPrefix(s, a);
    BlankSuffix(front, |back|);
    assert front[|back|..] == s[b..];
  }

  /** A prefix made of whitespace is blank. */
  lemma BlankPrefix(s: string, a: nat)
    requires a <= |s| && forall i :: 0 <= i < a ==> IsSpace(s[i])
    ensures Blank(s[..a])
  {
    forall i | 0 <= i < a ensures IsSpace(s[..a][i]) { assert s[..a][i] == s[i]; }
  }

  /** A suffix made of whitespace is blank. */
  lemma BlankSuffix(s: string, b: nat)
    requires b <= |s| && forall i :: b <= i < |s| ==> IsSpace(s[i])
    ensures Blank(s[b..])
  {
    forall i | 0 <= i < |s| - b ensures IsSpace(s[b..][i]) { assert s[b..][i] == s[b + i]; }
  }

  /** `s.trim().length < 1` holds exactly for the strings made only of whitespace. */
  lemma TrimEmptyIffBlank(s: string)
    ensures |Trim(s)| == 0 <==> Blank(s)
  {
  }

  /** `s.trim().length < 1` */
  function TrimsToEmpty(s: string): (r: bool)
    ensures r <==> Blank(s)
  {
    TrimEmptyIffBlank(s);
    |Trim(s)| < 1
  }
}
