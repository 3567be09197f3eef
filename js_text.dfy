/** JavaScript string semantics used by the contact form: the white-space
    set shared by String.prototype.trim and the regular-expression class \s,
    and trim itself. */
module JsText {

  /** ECMAScript WhiteSpace and LineTerminator code points (sections 12.2 and
      12.3 of ECMA-262): TAB, VT, FF, ZWNBSP, every Zs space, LF, CR, LS, PS.
      Both trim and \s (and so \S, its complement) are defined by this set. */
  const JsWhitespace: set<char> := {
    '\t', '\n', '\U{000B}', '\U{000C}', '\r', ' ',
    '\U{00A0}', '\U{1680}',
    '\U{2000}', '\U{2001}', '\U{2002}', '\U{2003}', '\U{2004}', '\U{2005}',
    '\U{2006}', '\U{2007}', '\U{2008}', '\U{2009}', '\U{200A}',
    '\U{2028}', '\U{2029}', '\U{202F}', '\U{205F}', '\U{3000}', '\U{FEFF}'
  }

  predicate IsSpace(c: char) {
    c in JsWhitespace
  }

  /** Every character of s is white space (vacuously true of ""). */
  predicate IsBlank(s: string) {
    forall k | 0 <= k < |s| :: IsSpace(s[k])
  }

  /** Drops leading white space. */
  function TrimStart(s: string): string {
    if s != [] && IsSpace(s[0]) then TrimStart(s[1..]) else s
  }

  /** Drops trailing white space. */
  function TrimEnd(s: string): string {
    if s != [] && IsSpace(s[|s| - 1]) then TrimEnd(s[..|s| - 1]) else s
  }

  /** TrimStart's result is a suffix of s, what it dropped is blank, and the
      result does not start with white space. */
  lemma {:induction false} TrimStartMeaning(s: string)
    ensures |TrimStart(s)| <= |s| && TrimStart(s) == s[|s| - |TrimStart(s)|..]
    ensures IsBlank(s[..|s| - |TrimStart(s)|])
    ensures TrimStart(s) != [] ==> !IsSpace(TrimStart(s)[0])
  {
    if s != [] && IsSpace(s[0]) {
      var r := TrimStart(s[1..]);
      TrimStartMeaning(s[1..]);
      assert s[..|s| - |r|] == [s[0]] + s[1..][..|s[1..]| - |r|];
    }
  }

  /** TrimEnd's result is a prefix of s, what it dropped is blank, and the
      result does not end with white space. */
  lemma {:induction false} TrimEndMeaning(s: string)
    ensures |TrimEnd(s)| <= |s| && TrimEnd(s) == s[..|TrimEnd(s)|]
    ensures IsBlank(s[|TrimEnd(s)|..])
    ensures TrimEnd(s) != [] ==> !IsSpace(TrimEnd(s)[|TrimEnd(s)| - 1])
  {
    if s != [] && IsSpace(s[|s| - 1]) {
      var r := TrimEnd(s[..|s| - 1]);
      TrimEndMeaning(s[..|s| - 1]);
      assert s[|r|..] == s[..|s| - 1][|r|..] + [s[|s| - 1]];
    }
  }

  /** s[i..i + |r|] == r, with only white space before and after it. */
  predicate StripsTo(s: string, i: int, r: string) {
    0 <= i <= |s| - |r| && s[i..i + |r|] == r && IsBlank(s[..i]) && IsBlank(s[i + |r|..])
  }

  /** String.prototype.trim: both ends stripped of white space. */
  function Trim(s: string): string {
    TrimEnd(TrimStart(s))
  }

  /** Blank strings concatenate to a blank string. */
  lemma BlankConcat(a: string, b: string)
    requires IsBlank(a) && IsBlank(b)
    ensures IsBlank(a + b)
  {
  }

  /** Trim's result is the infix of s left after removing blank runs at
      both ends. */
  lemma TrimIsInfix(s: string)
    ensures StripsTo(s, |s| - |TrimStart(s)|, Trim(s))
  {
    var t := TrimStart(s);
    var r := TrimEnd(t);
    TrimStartMeaning(s);
    TrimEndMeaning(t);
    var i := |s| - |t|;
    assert s[i..i + |r|] == t[..|r|];
    assert s[i + |r|..] == t[|r|..];
  }

  /** Trim's result neither starts nor ends with white space. */
  lemma TrimEnds(s: string)
    ensures Trim(s) != [] ==> !IsSpace(Trim(s)[0]) && !IsSpace(Trim(s)[|Trim(s)| - 1])
  {
    var t := TrimStart(s);
    var r := TrimEnd(t);
    TrimStartMeaning(s);
    TrimEndMeaning(t);
    if r != [] {
      assert r[0] == t[0];
    }
  }

  /** Trim gives "" exactly when s is blank: the test `!s.trim()`. */
  lemma TrimEmptyIff(s: string)
    ensures Trim(s) == [] <==> IsBlank(s)
  {
    var t := TrimStart(s);
    var i := |s| - |t|;
    TrimStartMeaning(s);
    TrimEndMeaning(t);
    if TrimEnd(t) == [] {
      assert t[0..] == t;
      BlankConcat(s[..i], t);
      assert s[..i] + s[i..] == s;
    }
  }
}
