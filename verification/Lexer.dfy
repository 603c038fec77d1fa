/**
 The scanner.  `Step` and `LexFrom` are the scanning functions; the methods `Lex`,
 `LexNumber` and `LexString` are the index loops, proved to compute them.
 */
module Lexer {
  import opened Common
  import opened Chars
  import opened Tokens

  // ---------- Scanning functions ----------

  function IdentEnd(src: string, i: nat): (e: nat)
    requires i <= |src|
    ensures i <= e <= |src|
    ensures forall k :: i <= k < e ==> IsIdentChar(src[k])
    ensures e < |src| ==> !IsIdentChar(src[e])
    decreases |src| - i
  {
    if i < |src| && IsIdentChar(src[i]) then IdentEnd(src, i + 1) else i
  }

  function DigitsEnd(src: string, i: nat): (e: nat)
    requires i <= |src|
    ensures i <= e <= |src|
    ensures forall k :: i <= k < e ==> IsDigit(src[k])
    ensures e < |src| ==> !IsDigit(src[e])
    decreases |src| - i
  {
    if i < |src| && IsDigit(src[i]) then DigitsEnd(src, i + 1) else i
  }

  predicate IsSign(c: char) {
    c == '+' || c == '-'
  }

  predicate IsExpMark(c: char) {
    c == 'e' || c == 'E'
  }

  function SignEnd(src: string, i: nat): (e: nat)
    requires i <= |src|
    ensures i <= e <= |src|
  {
    if i < |src| && IsSign(src[i]) then i + 1 else i
  }

  /** The end of the digits and point starting at `i`, if they hold a digit. */
  function MantissaEnd(src: string, i: nat): (r: Option<nat>)
    requires i <= |src|
    ensures r.Some? ==> i < r.value <= |src|
  {
    var s := SignEnd(src, i);
    var d := DigitsEnd(src, s);
    var m := if d < |src| && src[d] == '.' then DigitsEnd(src, d + 1) else d;
    if d > s || m > d + 1 then Some(m) else None
  }

  /** The end of the optional exponent starting at `m`; an exponent needs a digit. */
  function ExponentEnd(src: string, m: nat): (r: Option<nat>)
    requires m <= |src|
    ensures r.Some? ==> m <= r.value <= |src|
  {
    if m < |src| && IsExpMark(src[m]) then
      var x := SignEnd(src, m + 1);
      var e := DigitsEnd(src, x);
      if e > x then Some(e) else None
    else
      Some(m)
  }

  function NumberEnd(src: string, i: nat): (r: Option<nat>)
    requires i <= |src|
    ensures r.Some? ==> i < r.value <= |src|
  {
    var m :- MantissaEnd(src, i);
    var e :- ExponentEnd(src, m);
    if e < |src| && IsIdentChar(src[e]) then None else Some(e)
  }

  /** The rest of a string literal: the decoded text and the index past its closing quote. */
  function StringFrom(src: string, i: nat, acc: string): (r: Option<(string, nat)>)
    requires i <= |src|
    ensures r.Some? ==> i < r.value.1 <= |src|
    decreases |src| - i
  {
    if i == |src| then None
    else if src[i] != '\'' then StringFrom(src, i + 1, acc + [src[i]])
    else if i + 1 < |src| && src[i + 1] == '\'' then StringFrom(src, i + 2, acc + "'")
    else Some((acc, i + 1))
  }

  predicate At(src: string, i: nat, c: char) {
    i < |src| && src[i] == c
  }

  function WordLexeme(word: string): Lexeme {
    match KeywordOf(Upper(word))
    case Some(k) => TokKeyword(k)
    case None => TokIdent(word)
  }

  /** One token starting at `i`, and the index just past it. */
  function Step(src: string, i: nat): (r: Option<(Lexeme, nat)>)
    requires i < |src|
    ensures r.Some? ==> i < r.value.1 <= |src|
  {
    var c := src[i];
    if IsLetter(c) then
      var e := IdentEnd(src, i + 1);
      Some((WordLexeme(src[i..e]), e))
    else if IsDigit(c)
         || (IsSign(c) && i + 1 < |src| && (IsDigit(src[i + 1]) || src[i + 1] == '.')) then
      var e :- NumberEnd(src, i);
      Some((TokNumber(src[i..e]), e))
    else if c == '\'' then
      var t :- StringFrom(src, i + 1, "");
      Some((TokString(t.0), t.1))
    else if c == ',' then Some((TokComma, i + 1))
    else if c == '(' then Some((TokLParen, i + 1))
    else if c == ')' then Some((TokRParen, i + 1))
    else if c == '.' then Some((TokDot, i + 1))
    else if c == '*' then Some((TokStar, i + 1))
    else if c == '=' then Some((TokOp("="), i + 1))
    else if c == '!' then
      if At(src, i + 1, '=') then Some((TokOp("!="), i + 2)) else None
    else if c == '<' then
      if At(src, i + 1, '=') then Some((TokOp("<="), i + 2))
      else if At(src, i + 1, '>') then Some((TokOp("<>"), i + 2))
      else Some((TokOp("<"), i + 1))
    else if c == '>' then
      if At(src, i + 1, '=') then Some((TokOp(">="), i + 2)) else Some((TokOp(">"), i + 1))
    else None
  }

  function LexFrom(src: string, i: nat, acc: seq<Token>): Option<seq<Token>>
    requires i <= |src|
    decreases |src| - i
  {
    if i == |src| then Some(acc + [Token(TokEOF, i)])
    else if IsSpace(src[i]) then LexFrom(src, i + 1, acc)
    else
      match Step(src, i)
      case None => None
      case Some(t) => LexFrom(src, t.1, acc + [Token(t.0, i)])
  }

  /** The tokens of a source text, or None for a lexical error. */
  function Scan(src: string): Option<seq<Token>> {
    LexFrom(src, 0, [])
  }

  // ---------- The loops ----------

  method SkipDigits(src: string, start: nat) returns (i: nat)
    requires start <= |src|
    ensures i == DigitsEnd(src, start)
  {
    i := start;
    while i < |src| && IsDigit(src[i])
      invariant start <= i <= |src| && DigitsEnd(src, start) == DigitsEnd(src, i)
    {
      i := i + 1;
    }
  }

  method LexMantissa(src: string, start: nat) returns (r: Option<nat>)
    requires start <= |src|
    ensures r == MantissaEnd(src, start)
  {
    var i, n := start, |src|;
    if i < n && (src[i] == '+' || src[i] == '-') {
      i := i + 1;
    }
    var end := SkipDigits(src, i);
    var digits := end > i;
    i := end;
    if i < n && src[i] == '.' {
      end := SkipDigits(src, i + 1);
      digits := digits || end > i + 1;
      i := end;
    }
    return if digits then Some(i) else None;
  }

  method LexExponent(src: string, m: nat) returns (r: Option<nat>)
    requires m <= |src|
    ensures r == ExponentEnd(src, m)
  {
    var i, n := m, |src|;
    if i < n && (src[i] == 'e' || src[i] == 'E') {
      i := i + 1;
      if i < n && (src[i] == '+' || src[i] == '-') {
        i := i + 1;
      }
      var end := SkipDigits(src, i);
      return if end > i then Some(end) else None;
    }
    return Some(i);
  }

  method LexNumber(src: string, start: nat) returns (r: Option<nat>)
    requires start <= |src|
    ensures r == NumberEnd(src, start)
  {
    var m :- LexMantissa(src, start);
    var i :- LexExponent(src, m);
    if i < |src| && IsIdentChar(src[i]) {
      return None;
    }
    return Some(i);
  }

  method LexString(src: string, start: nat) returns (r: Option<(string, nat)>)
    requires start < |src|
    ensures r == StringFrom(src, start + 1, "")
  {
    var i, n := start + 1, |src|;
    var b := "";
    while i < n
      invariant start < i <= n
      invariant StringFrom(src, start + 1, "") == StringFrom(src, i, b)
    {
      var c := src[i];
      if c == '\'' {
        if i + 1 < n && src[i + 1] == '\'' {
          b := b + "'";
          i := i + 2;
          continue;
        }
        return Some((b, i + 1));
      }
      b := b + [c];
      i := i + 1;
    }
    return None;
  }

  method LexWord(src: string, start: nat) returns (i: nat)
    requires start < |src|
    ensures i == IdentEnd(src, start + 1)
  {
    i := start + 1;
    while i < |src| && IsIdentChar(src[i])
      invariant start < i <= |src| && IdentEnd(src, start + 1) == IdentEnd(src, i)
    {
      i := i + 1;
    }
  }

  /** Punctuation and operators, the longest spelling first. */
  method LexSymbol(src: string, i: nat) returns (r: Option<(Lexeme, nat)>)
    requires i < |src| && !IsLetter(src[i]) && !IsDigit(src[i])
    requires !IsSign(src[i]) && src[i] != '\''
    ensures r == Step(src, i)
  {
    hide IdentEnd, NumberEnd, StringFrom, WordLexeme;
    var n := |src|;
    match src[i] {
      case ',' => return Some((TokComma, i + 1));
      case '(' => return Some((TokLParen, i + 1));
      case ')' => return Some((TokRParen, i + 1));
      case '.' => return Some((TokDot, i + 1));
      case '*' => return Some((TokStar, i + 1));
      case '=' => return Some((TokOp("="), i + 1));
      case '!' =>
        if i + 1 < n && src[i + 1] == '=' {
          return Some((TokOp("!="), i + 2));
        }
        return None;
      case '<' =>
        if i + 1 < n && src[i + 1] == '=' {
          return Some((TokOp("<="), i + 2));
        }
        if i + 1 < n && src[i + 1] == '>' {
          return Some((TokOp("<>"), i + 2));
        }
        return Some((TokOp("<"), i + 1));
      case '>' =>
        if i + 1 < n && src[i + 1] == '=' {
          return Some((TokOp(">="), i + 2));
        }
        return Some((TokOp(">"), i + 1));
      case _ => return None;
    }
  }

  /** The token that starts at `i`, which is no white space, and the index past it. */
  method LexToken(src: string, i: nat) returns (r: Option<(Lexeme, nat)>)
    requires i < |src|
    ensures r == Step(src, i)
  {
    hide IdentEnd, NumberEnd, StringFrom, WordLexeme;
    var c := src[i];
    if IsLetter(c) {
      var e := LexWord(src, i);
      return Some((WordLexeme(src[i..e]), e));
    }
    if IsDigit(c) {
      var e :- LexNumber(src, i);
      return Some((TokNumber(src[i..e]), e));
    }
    if c == '+' || c == '-' {
      if i + 1 < |src| && (IsDigit(src[i + 1]) || src[i + 1] == '.') {
        var e :- LexNumber(src, i);
        return Some((TokNumber(src[i..e]), e));
      }
      return None;
    }
    if c == '\'' {
      var t :- LexString(src, i);
      return Some((TokString(t.0), t.1));
    }
    r := LexSymbol(src, i);
  }

  method Lex(src: string) returns (r: Option<seq<Token>>)
    ensures r == Scan(src)
  {
    hide Step;
    var toks: seq<Token> := [];
    var i, n := 0, |src|;
    while i < n
      invariant 0 <= i <= n
      invariant Scan(src) == LexFrom(src, i, toks)
    {
      var c := src[i];
      if c == ' ' || c == '\t' || c == '\n' || c == '\r' {
        i := i + 1;
        continue;
      }
      var t :- LexToken(src, i);
      toks := toks + [Token(t.0, i)];
      i := t.1;
    }
    return Some(toks + [Token(TokEOF, n)]);
  }
}
