/**
 Character classes and ASCII case mapping of the query language.  A source text is a
 `string` with one `char` for each byte.
 */
module Chars {

  predicate IsSpace(c: char) {
    c == ' ' || c == '\t' || c == '\n' || c == '\r'
  }

  predicate IsLetter(c: char) {
    c == '_' || 'a' <= c <= 'z' || 'A' <= c <= 'Z'
  }

  predicate IsDigit(c: char) {
    '0' <= c <= '9'
  }

  predicate IsIdentChar(c: char) {
    IsLetter(c) || IsDigit(c)
  }

  /** The shape `[A-Za-z_][A-Za-z0-9_]*`. */
  predicate ValidIdent(s: string) {
    && |s| > 0
    && IsLetter(s[0])
    && forall k :: 0 <= k < |s| ==> IsIdentChar(s[k])
  }

  function UpperChar(c: char): char {
    if 'a' <= c <= 'z' then (c as int - 32) as char else c
  }

  function LowerChar(c: char): char {
    if 'A' <= c <= 'Z' then (c as int + 32) as char else c
  }

  function Upper(s: string): (u: string)
    ensures |u| == |s|
    ensures forall k :: 0 <= k < |s| ==> u[k] == UpperChar(s[k])
  {
    seq(|s|, k requires 0 <= k < |s| => UpperChar(s[k]))
  }

  function Lower(s: string): (l: string)
    ensures |l| == |s|
    ensures forall k :: 0 <= k < |s| ==> l[k] == LowerChar(s[k])
  {
    seq(|s|, k requires 0 <= k < |s| => LowerChar(s[k]))
  }

  /** Being an identifier does not depend on letter case. */
  lemma {:induction false} ValidIdentIgnoresCase(a: string, b: string)
    requires Lower(a) == Lower(b)
    ensures ValidIdent(a) == ValidIdent(b)
  {
    assert |a| == |Lower(a)| == |b|;
    forall k | 0 <= k < |a|
      ensures IsLetter(a[k]) == IsLetter(b[k]) && IsDigit(a[k]) == IsDigit(b[k])
    {
      assert LowerChar(a[k]) == Lower(a)[k] == Lower(b)[k] == LowerChar(b[k]);
    }
  }

  // ---------- What the classes and mappings are ----------

  const UPPER_CASE := "ABCDEFGHIJKLMNOPQRSTUVWXYZ"
  const LOWER_CASE := "abcdefghijklmnopqrstuvwxyz"
  const DIGITS := "0123456789"

  /** `u` and `l` are one letter, in upper and in lower case. */
  ghost predicate CasePair(u: char, l: char) {
    exists k :: 0 <= k < 26 && UPPER_CASE[k] == u && LOWER_CASE[k] == l
  }

  /** The same character, but for the case of an ASCII letter. */
  ghost predicate SameLetter(a: char, b: char) {
    a == b || CasePair(a, b) || CasePair(b, a)
  }

  ghost predicate SameName(a: string, b: string) {
    |a| == |b| && forall k :: 0 <= k < |a| ==> SameLetter(a[k], b[k])
  }

  lemma {:induction false} Letter(k: nat)
    requires k < 26
    ensures UPPER_CASE[k] as int == 'A' as int + k
    ensures LOWER_CASE[k] as int == 'a' as int + k
  {
    assert UPPER_CASE[k] == ('A' as int + k) as char;
    assert LOWER_CASE[k] == ('a' as int + k) as char;
  }

  lemma {:induction false} CasePairExactly(u: char, l: char)
    ensures CasePair(u, l) <==> 'A' <= u <= 'Z' && l as int == u as int + 32
  {
    if 'A' <= u <= 'Z' && l as int == u as int + 32 {
      var k := u as int - 'A' as int;
      Letter(k);
      assert UPPER_CASE[k] == u && LOWER_CASE[k] == l;
    }
    if k :| 0 <= k < 26 && UPPER_CASE[k] == u && LOWER_CASE[k] == l {
      Letter(k);
    }
  }

  lemma {:induction false} LetterCaseExactly(a: char, b: char)
    ensures LowerChar(a) == LowerChar(b) <==> SameLetter(a, b)
    ensures UpperChar(a) == UpperChar(b) <==> SameLetter(a, b)
    ensures !('a' <= UpperChar(a) <= 'z') && !('A' <= LowerChar(a) <= 'Z')
  {
    hide CasePair;
    CasePairExactly(a, b);
    CasePairExactly(b, a);
  }

  /** Texts agree in lower case, or in upper case, exactly when they differ in letter case only. */
  lemma {:induction false} CaseExactly(a: string, b: string)
    ensures Lower(a) == Lower(b) <==> SameName(a, b)
    ensures Upper(a) == Upper(b) <==> SameName(a, b)
  {
    hide SameLetter, LowerChar, UpperChar;
    if |a| == |b| {
      forall k | 0 <= k < |a|
        ensures LowerChar(a[k]) == LowerChar(b[k]) <==> SameLetter(a[k], b[k])
        ensures UpperChar(a[k]) == UpperChar(b[k]) <==> SameLetter(a[k], b[k])
      {
        LetterCaseExactly(a[k], b[k]);
      }
      SamePoints(Lower(a), Lower(b));
      SamePoints(Upper(a), Upper(b));
    } else {
      assert |Lower(a)| != |Lower(b)| && |Upper(a)| != |Upper(b)|;
    }
  }

  lemma SamePoints(a: string, b: string)
    requires |a| == |b|
    ensures a == b <==> forall k :: 0 <= k < |a| ==> a[k] == b[k]
  {
  }

  /** The character classes of the language, listed. */
  lemma {:induction false} ClassesExactly(c: char)
    ensures IsSpace(c) <==> c in " \t\n\r"
    ensures IsDigit(c) <==> c in DIGITS
    ensures IsLetter(c) <==> c in UPPER_CASE || c in LOWER_CASE || c == '_'
    ensures IsIdentChar(c) <==> c in UPPER_CASE || c in LOWER_CASE || c == '_' || c in DIGITS
  {
    if 'A' <= c <= 'Z' {
      Letter(c as int - 'A' as int);
      assert UPPER_CASE[c as int - 'A' as int] == c;
    }
    if 'a' <= c <= 'z' {
      Letter(c as int - 'a' as int);
      assert LOWER_CASE[c as int - 'a' as int] == c;
    }
    if c in UPPER_CASE {
      var k :| 0 <= k < 26 && UPPER_CASE[k] == c;
      Letter(k);
    }
    if c in LOWER_CASE {
      var k :| 0 <= k < 26 && LOWER_CASE[k] == c;
      Letter(k);
    }
    if '0' <= c <= '9' {
      assert DIGITS[c as int - '0' as int] == c;
    }
  }
}
