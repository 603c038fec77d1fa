/**
 What a tokenisation is, independently of how the scanner finds it, and the proof that
 scanning succeeds exactly on texts that have one.  Then: rendering lexemes back to text
 and scanning again changes nothing.
 */
module Tokenisation {
  import opened Common
  import opened Chars
  import opened Tokens
  import opened Lexer

  // ---------- What a tokenisation is ----------

  ghost predicate DigitRun(src: string, a: int, b: int) {
    0 <= a <= b <= |src| && forall k :: a <= k < b ==> IsDigit(src[k])
  }

  /** `src[i..m]` is a sign, digits `..d` and, unless `m == d`, a point and more digits. */
  ghost predicate Mantissa(src: string, i: nat, d: nat, m: nat)
    requires i <= |src|
  {
    var s := SignEnd(src, i);
    && DigitRun(src, s, d)
    && (m == d
        || (d < m && At(src, d, '.') && DigitRun(src, d + 1, m)))
    && (s < d || d + 1 < m)
  }

  ghost predicate Exponent(src: string, m: nat, e: nat)
    requires m <= |src|
  {
    || e == m
    || (m < |src| && IsExpMark(src[m])
        && SignEnd(src, m + 1) < e && DigitRun(src, SignEnd(src, m + 1), e))
  }

  /** `src[i..e]` has the shape of a number literal. */
  ghost predicate NumberSpan(src: string, i: nat, e: nat) {
    && i < e <= |src|
    && exists d: nat, m: nat ::
         i <= d <= m <= e && Mantissa(src, i, d, m) && Exponent(src, m, e)
  }

  /** No longer number literal starts at `i` than the one ending at `e`. */
  ghost predicate NumberStops(src: string, i: nat, e: nat)
    requires i <= e <= |src|
  {
    e < |src| ==>
      && !IsIdentChar(src[e])
      && (src[e] == '.' ==> exists k :: i <= k < e && (src[k] == '.' || IsExpMark(src[k])))
  }

  /** The text between the quotes: every quote doubled. */
  function Escape(t: string): string {
    if t == "" then "" else (if t[0] == '\'' then "''" else [t[0]]) + Escape(t[1..])
  }

  function Quote(t: string): string {
    "'" + Escape(t) + "'"
  }

  predicate IsOperator(op: string) {
    op == "=" || op == "!=" || op == "<>" || op == "<" || op == "<=" || op == ">" || op == ">="
  }

  /** The source spelling of a lexeme; reserved words are spelled in upper case. */
  function Spell(l: Lexeme): string {
    match l
    case TokEOF => ""
    case TokIdent(name) => name
    case TokKeyword(k) => KwText(k)
    case TokString(t) => Quote(t)
    case TokNumber(s) => s
    case TokComma => ","
    case TokLParen => "("
    case TokRParen => ")"
    case TokDot => "."
    case TokStar => "*"
    case TokOp(op) => op
  }

  ghost predicate WordSpan(src: string, p: nat, e: nat) {
    && p < e <= |src|
    && IsLetter(src[p])
    && (forall k :: p <= k < e ==> IsIdentChar(src[k]))
    && (e < |src| ==> !IsIdentChar(src[e]))
  }

  /** `src[p..e]` spells exactly `l`, and no longer token starts at `p`. */
  ghost predicate TokenAt(src: string, p: nat, e: nat, l: Lexeme) {
    && p < e <= |src|
    && match l
       case TokEOF => false
       case TokIdent(name) =>
         WordSpan(src, p, e) && src[p..e] == name && forall k :: !SameName(name, KwText(k))
       case TokKeyword(kw) =>
         WordSpan(src, p, e) && SameName(src[p..e], KwText(kw))
       case TokNumber(s) =>
         src[p..e] == s && src[p] != '.' && NumberSpan(src, p, e) && NumberStops(src, p, e)
       case TokString(t) =>
         src[p..e] == Quote(t) && !At(src, e, '\'')
       case TokOp(op) =>
         && src[p..e] == op && IsOperator(op)
         && (op == "<" ==> !At(src, e, '=') && !At(src, e, '>'))
         && (op == ">" ==> !At(src, e, '='))
       case _ => src[p..e] == Spell(l)
  }

  ghost predicate AllSpace(src: string, a: int, b: int) {
    0 <= a <= b <= |src| && forall k :: a <= k < b ==> IsSpace(src[k])
  }

  /** `src[i..]` is white space and the spellings of `ts` at their positions, ended by EOF. */
  ghost predicate Tokenises(src: string, i: nat, ts: seq<Token>)
    requires i <= |src|
    decreases |ts|
  {
    && |ts| > 0
    && AllSpace(src, i, ts[0].pos)
    && if ts[0].lex.TokEOF? then |ts| == 1 && ts[0].pos == |src|
       else exists e: nat :: TokenAt(src, ts[0].pos, e, ts[0].lex) && Tokenises(src, e, ts[1..])
  }

  // ---------- Scanning finds exactly the tokenisation ----------

  lemma RunEnds(src: string, i: nat, e: nat)
    requires i <= e <= |src|
    ensures DigitRun(src, i, e) && (e < |src| ==> !IsDigit(src[e])) ==> DigitsEnd(src, i) == e
    ensures (forall k :: i <= k < e ==> IsIdentChar(src[k])) && (e < |src| ==> !IsIdentChar(src[e]))
            ==> IdentEnd(src, i) == e
  {
  }

  lemma {:induction false} NumberEndSound(src: string, i: nat)
    requires i <= |src|
    requires NumberEnd(src, i).Some?
    ensures NumberSpan(src, i, NumberEnd(src, i).value)
    ensures NumberStops(src, i, NumberEnd(src, i).value)
  {
    var d := DigitsEnd(src, SignEnd(src, i));
    var m := MantissaEnd(src, i).value;
    var e := NumberEnd(src, i).value;
    assert Mantissa(src, i, d, m) && Exponent(src, m, e);
    if e < |src| && src[e] == '.' {
      if e == m {
        assert m > d && src[d] == '.';
      } else {
        assert IsExpMark(src[m]);
      }
    }
  }

  lemma {:induction false} MantissaComplete(src: string, i: nat, d: nat, m: nat)
    requires i <= d <= m <= |src| && Mantissa(src, i, d, m)
    requires m < |src| ==> !IsDigit(src[m])
    requires m == d ==> !At(src, m, '.')
    ensures MantissaEnd(src, i) == Some(m)
  {
    RunEnds(src, SignEnd(src, i), d);
    if m > d {
      RunEnds(src, d + 1, m);
    }
  }

  lemma {:induction false} ExponentComplete(src: string, m: nat, e: nat)
    requires m <= e <= |src| && Exponent(src, m, e)
    requires e < |src| ==> !IsIdentChar(src[e])
    ensures ExponentEnd(src, m) == Some(e)
  {
    if e > m {
      RunEnds(src, SignEnd(src, m + 1), e);
    }
  }

  lemma {:induction false} NumberEndComplete(src: string, i: nat, e: nat)
    requires NumberSpan(src, i, e) && NumberStops(src, i, e)
    ensures NumberEnd(src, i) == Some(e)
  {
    var d: nat, m: nat :|
      i <= d <= m <= e && Mantissa(src, i, d, m) && Exponent(src, m, e);
    if m == d && At(src, m, '.') {
      assert e == m;
      var k :| i <= k < e && (src[k] == '.' || IsExpMark(src[k]));
      assert false;
    }
    ExponentComplete(src, m, e);
    MantissaComplete(src, i, d, m);
  }

  lemma {:induction false} StringFromSound(src: string, i: nat, acc: string)
    requires i <= |src|
    requires StringFrom(src, i, acc).Some?
    ensures var (t, e) := StringFrom(src, i, acc).value;
            && acc <= t
            && src[i..e] == Escape(t[|acc|..]) + "'"
            && !At(src, e, '\'')
    decreases |src| - i
  {
    var (t, e) := StringFrom(src, i, acc).value;
    if src[i] != '\'' {
      StringFromSound(src, i + 1, acc + [src[i]]);
      assert t[|acc|..] == [src[i]] + t[|acc| + 1..];
      assert src[i..e] == [src[i]] + src[i + 1..e];
    } else if At(src, i + 1, '\'') {
      StringFromSound(src, i + 2, acc + "'");
      assert t[|acc|..] == "'" + t[|acc| + 1..];
      assert src[i..e] == "''" + src[i + 2..e];
    } else {
      assert t[|acc|..] == "";
      assert src[i..e] == "'";
    }
  }

  lemma {:induction false} StringFromComplete(src: string, i: nat, e: nat, acc: string, t: string)
    requires i <= e <= |src|
    requires src[i..e] == Escape(t) + "'" && !At(src, e, '\'')
    ensures StringFrom(src, i, acc) == Some((acc + t, e))
    decreases |t|
  {
    var w := src[i..e];
    if t == "" {
      assert w == "'" && src[i] == w[0];
      assert acc + t == acc;
    } else {
      var n := if t[0] == '\'' then 2 else 1;
      assert w == (if n == 2 then "''" else [t[0]]) + (Escape(t[1..]) + "'");
      assert src[i + n..e] == w[n..] == Escape(t[1..]) + "'";
      assert src[i] == w[0] && (n == 2 ==> src[i + 1] == w[1]);
      StringFromComplete(src, i + n, e, acc + [t[0]], t[1..]);
      assert acc + [t[0]] + t[1..] == acc + t;
    }
  }

  lemma KwTextIsWord(k: Kw)
    ensures KwText(k) != "" && forall i :: 0 <= i < |KwText(k)| ==> 'A' <= KwText(k)[i] <= 'Z'
  {
  }

  /** A word is the reserved word it spells in any letter case, or else a name. */
  lemma {:induction false} KeywordExactly(word: string)
    ensures forall k :: WordLexeme(word) == TokKeyword(k) <==> SameName(word, KwText(k))
    ensures WordLexeme(word) == TokIdent(word) <==> forall k :: !SameName(word, KwText(k))
  {
    hide KwText, SameName;
    forall k
      ensures Upper(word) == KwText(k) <==> SameName(word, KwText(k))
    {
      KwTextIsWord(k);
      CaseExactly(word, KwText(k));
      assert Upper(KwText(k)) == KwText(k);
    }
  }

  lemma {:induction false} StepSound(src: string, i: nat)
    requires i < |src| && Step(src, i).Some?
    ensures TokenAt(src, i, Step(src, i).value.1, Step(src, i).value.0)
  {
    hide *;
    match Step(src, i).value.0 {
      case TokNumber(_) => NumberStepSound(src, i);
      case TokString(t) => StringStepSound(src, i, t);
      case _ => OtherStepSound(src, i);
    }
  }

  lemma {:induction false} NumberStepSound(src: string, i: nat)
    requires i < |src| && Step(src, i).Some? && Step(src, i).value.0.TokNumber?
    ensures TokenAt(src, i, Step(src, i).value.1, Step(src, i).value.0)
  {
    hide NumberSpan, NumberStops;
    NumberEndSound(src, i);
  }

  lemma {:induction false} StringStepSound(src: string, i: nat, t: string)
    requires i < |src| && Step(src, i).Some? && Step(src, i).value.0 == TokString(t)
    ensures TokenAt(src, i, Step(src, i).value.1, TokString(t))
  {
    var e := Step(src, i).value.1;
    StringFromSound(src, i + 1, "");
    assert t == t[0..];
    assert src[i..e] == "'" + src[i + 1..e];
  }

  lemma {:induction false} OtherStepSound(src: string, i: nat)
    requires i < |src| && Step(src, i).Some?
    requires !Step(src, i).value.0.TokNumber? && !Step(src, i).value.0.TokString?
    ensures TokenAt(src, i, Step(src, i).value.1, Step(src, i).value.0)
  {
    hide StringFrom, NumberEnd, KwText, KeywordOf, SameName;
    var (l, e) := Step(src, i).value;
    if IsLetter(src[i]) {
      KeywordExactly(src[i..e]);
      assert WordSpan(src, i, e) && l == WordLexeme(src[i..e]);
    } else {
      assert e == i + 1 ==> src[i..e] == [src[i]];
      assert e == i + 2 ==> src[i..e] == [src[i], src[i + 1]];
    }
  }

  lemma {:induction false} WordComplete(src: string, p: nat, e: nat)
    requires WordSpan(src, p, e)
    ensures Step(src, p) == Some((WordLexeme(src[p..e]), e))
  {
    RunEnds(src, p + 1, e);
  }

  lemma {:induction false} NumberComplete(src: string, p: nat, e: nat)
    requires NumberSpan(src, p, e) && NumberStops(src, p, e) && src[p] != '.'
    ensures Step(src, p) == Some((TokNumber(src[p..e]), e))
    ensures !IsSpace(src[p])
  {
    NumberEndComplete(src, p, e);
    NumberStart(src, p, e);
  }

  lemma {:induction false} NumberStart(src: string, p: nat, e: nat)
    requires NumberSpan(src, p, e) && src[p] != '.'
    ensures IsDigit(src[p])
            || (IsSign(src[p]) && p + 1 < |src| && (IsDigit(src[p + 1]) || src[p + 1] == '.'))
  {
    var d: nat, m: nat :|
      p <= d <= m <= e && Mantissa(src, p, d, m) && Exponent(src, m, e);
    var s := SignEnd(src, p);
    assert s < d ==> IsDigit(src[s]);
    assert s == d ==> src[d] == '.';
  }

  lemma {:induction false} StringComplete(src: string, p: nat, e: nat, t: string)
    requires TokenAt(src, p, e, TokString(t))
    ensures Step(src, p) == Some((TokString(t), e))
    ensures !IsSpace(src[p])
  {
    assert src[p] == src[p..e][0] == '\'';
    assert src[p + 1..e] == src[p..e][1..] == Escape(t) + "'";
    StringFromComplete(src, p + 1, e, "", t);
    assert "" + t == t;
  }

  lemma {:induction false} OpComplete(src: string, p: nat, e: nat, op: string)
    requires TokenAt(src, p, e, TokOp(op))
    ensures Step(src, p) == Some((TokOp(op), e))
    ensures !IsSpace(src[p])
  {
    assert src[p] == src[p..e][0] == op[0];
    assert |op| == 2 ==> src[p + 1] == src[p..e][1] == op[1];
  }

  lemma {:induction false} PunctuationComplete(src: string, p: nat, e: nat, l: Lexeme)
    requires TokenAt(src, p, e, l)
    requires l.TokComma? || l.TokLParen? || l.TokRParen? || l.TokDot? || l.TokStar?
    ensures Step(src, p) == Some((l, e))
    ensures !IsSpace(src[p])
  {
    assert src[p] == src[p..e][0];
  }

  lemma {:induction false} StepComplete(src: string, p: nat, e: nat, l: Lexeme)
    requires TokenAt(src, p, e, l)
    ensures Step(src, p) == Some((l, e))
    ensures !IsSpace(src[p])
  {
    match l {
      case TokIdent(_) =>
        KeywordExactly(src[p..e]);
        WordComplete(src, p, e);
      case TokKeyword(_) =>
        KeywordExactly(src[p..e]);
        WordComplete(src, p, e);
      case TokNumber(_) => NumberComplete(src, p, e);
      case TokString(t) => StringComplete(src, p, e, t);
      case TokOp(op) => OpComplete(src, p, e, op);
      case _ => PunctuationComplete(src, p, e, l);
    }
  }

  lemma TokenisesEnd(src: string, i: nat)
    requires AllSpace(src, i, |src|)
    ensures Tokenises(src, i, [Token(TokEOF, |src|)])
  {
  }

  lemma TokenisesToken(src: string, i: nat, e: nat, ts: seq<Token>)
    requires ts != [] && AllSpace(src, i, ts[0].pos)
    requires TokenAt(src, ts[0].pos, e, ts[0].lex) && e <= |src| && Tokenises(src, e, ts[1..])
    ensures Tokenises(src, i, ts)
  {
  }

  lemma {:induction false} TokenisesSpace(src: string, i: nat, ts: seq<Token>)
    requires i < |src| && IsSpace(src[i]) && Tokenises(src, i + 1, ts)
    ensures Tokenises(src, i, ts)
  {
    assert AllSpace(src, i, ts[0].pos);
  }

  /** How a tokenisation starts. */
  lemma {:induction false} TokenisesHead(src: string, i: nat, ts: seq<Token>)
    requires i <= |src| && Tokenises(src, i, ts)
    ensures ts != [] && i <= ts[0].pos <= |src|
    ensures i < ts[0].pos ==> IsSpace(src[i]) && Tokenises(src, i + 1, ts)
    ensures ts[0].lex.TokEOF? ==> ts == [Token(TokEOF, |src|)]
  {
    if ts[0].lex.TokEOF? {
      assert ts == [ts[0]];
    }
  }

  lemma {:induction false} TokenisesStep(src: string, i: nat, ts: seq<Token>) returns (e: nat)
    requires i <= |src| && Tokenises(src, i, ts) && !ts[0].lex.TokEOF?
    ensures ts[0].pos < e <= |src| && TokenAt(src, ts[0].pos, e, ts[0].lex)
    ensures Tokenises(src, e, ts[1..])
  {
    e :| TokenAt(src, ts[0].pos, e, ts[0].lex) && Tokenises(src, e, ts[1..]);
  }

  lemma {:induction false} LexSound(src: string, i: nat, acc: seq<Token>)
    requires i <= |src| && LexFrom(src, i, acc).Some?
    ensures acc <= LexFrom(src, i, acc).value
    ensures Tokenises(src, i, LexFrom(src, i, acc).value[|acc|..])
    decreases |src| - i
  {
    hide Tokenises, TokenAt, Step, IsSpace;
    var ts := LexFrom(src, i, acc).value;
    if i == |src| {
      TokenisesEnd(src, i);
      assert ts[|acc|..] == [Token(TokEOF, i)];
    } else if IsSpace(src[i]) {
      LexSound(src, i + 1, acc);
      TokenisesSpace(src, i, ts[|acc|..]);
    } else {
      var (l, e) := Step(src, i).value;
      StepSound(src, i);
      LexSound(src, e, acc + [Token(l, i)]);
      var rest := ts[|acc|..];
      assert rest[0] == ts[|acc|] == Token(l, i);
      assert rest[1..] == ts[|acc| + 1..];
      TokenisesToken(src, i, e, rest);
    }
  }

  lemma {:induction false} LexComplete(src: string, i: nat, acc: seq<Token>, ts: seq<Token>)
    requires i <= |src| && Tokenises(src, i, ts)
    ensures LexFrom(src, i, acc) == Some(acc + ts)
    decreases |src| - i
  {
    hide Tokenises, TokenAt, Step, IsSpace;
    TokenisesHead(src, i, ts);
    if i < ts[0].pos {
      LexComplete(src, i + 1, acc, ts);
    } else if !ts[0].lex.TokEOF? {
      var e := TokenisesStep(src, i, ts);
      StepComplete(src, i, e, ts[0].lex);
      LexComplete(src, e, acc + [ts[0]], ts[1..]);
      assert ts == [ts[0]] + ts[1..];
      assert acc + [ts[0]] + ts[1..] == acc + ts;
    }
  }

  /** Scanning succeeds with `ts` exactly when `ts` is a tokenisation; so there is at most one. */
  lemma {:induction false} LexExact(src: string, ts: seq<Token>)
    ensures Scan(src) == Some(ts) <==> Tokenises(src, 0, ts)
  {
    if Scan(src) == Some(ts) {
      LexSound(src, 0, []);
      assert ts[0..] == ts;
    }
    if Tokenises(src, 0, ts) {
      LexComplete(src, 0, [], ts);
      assert [] + ts == ts;
    }
  }

  // ---------- Consequences ----------

  /** A lexeme some source text can contain. */
  ghost predicate WfLexeme(l: Lexeme) {
    match l
    case TokEOF => false
    case TokIdent(name) => ValidIdent(name) && forall k :: !SameName(name, KwText(k))
    case TokNumber(s) => NumberSpelling(s)
    case TokOp(op) => IsOperator(op)
    case _ => true
  }

  ghost predicate NumberSpelling(s: string) {
    s != "" && s[0] != '.' && NumberSpan(s, 0, |s|)
  }

  /** The lexemes without their positions and without the final EOF. */
  function Lexemes(ts: seq<Token>): (ls: seq<Lexeme>)
    requires |ts| > 0
    ensures |ls| == |ts| - 1
    ensures forall k :: 0 <= k < |ls| ==> ls[k] == ts[k].lex
  {
    seq(|ts| - 1, k requires 0 <= k < |ts| - 1 => ts[k].lex)
  }

  /** `b[j..j + n]` and `a[i..i + n]` hold the same characters. */
  ghost predicate SameSpan(a: string, i: nat, b: string, j: nat, n: nat) {
    && i + n <= |a| && j + n <= |b|
    && forall k {:trigger b[k]} :: j <= k < j + n ==> b[k] == a[k - j + i]
  }

  lemma DigitRunMoves(a: string, i: nat, b: string, j: nat, n: nat, x: nat, y: nat)
    requires SameSpan(a, i, b, j, n) && DigitRun(a, i + x, i + y) && y <= n
    ensures DigitRun(b, j + x, j + y)
  {
  }

  lemma {:induction false} MantissaMoves(a: string, i: nat, b: string, j: nat, n: nat, d: nat, m: nat)
    requires SameSpan(a, i, b, j, n)
    requires d <= m <= n && Mantissa(a, i, i + d, i + m)
    ensures Mantissa(b, j, j + d, j + m)
  {
    var s := SignEnd(a, i) - i;
    assert SignEnd(b, j) == j + s;
    DigitRunMoves(a, i, b, j, n, s, d);
    if d < m {
      DigitRunMoves(a, i, b, j, n, d + 1, m);
    }
  }

  lemma {:induction false} ExponentMoves(a: string, i: nat, b: string, j: nat, n: nat, m: nat)
    requires SameSpan(a, i, b, j, n)
    requires m <= n && Exponent(a, i + m, i + n)
    ensures Exponent(b, j + m, j + n)
  {
    if m < n {
      var s := SignEnd(a, i + m + 1) - i;
      assert SignEnd(b, j + m + 1) == j + s;
      DigitRunMoves(a, i, b, j, n, s, n);
    }
  }

  /** Being a number literal is a property of the characters, not of where they stand. */
  lemma {:induction false} NumberSpanMoves(a: string, i: nat, b: string, j: nat, n: nat)
    requires i + n <= |a| && j + n <= |b| && a[i..i + n] == b[j..j + n]
    requires NumberSpan(a, i, i + n)
    ensures NumberSpan(b, j, j + n)
  {
    hide Mantissa, Exponent;
    var d: nat, m: nat :|
      i <= d <= m <= i + n && Mantissa(a, i, d, m) && Exponent(a, m, i + n);
    forall k | j <= k < j + n
      ensures b[k] == a[k - j + i]
    {
      assert b[k] == b[j..j + n][k - j] == a[i..i + n][k - j];
    }
    MantissaMoves(a, i, b, j, n, d - i, m - i);
    ExponentMoves(a, i, b, j, n, m - i);
    assert Mantissa(b, j, j + (d - i), j + (m - i)) && Exponent(b, j + (m - i), j + n);
  }

  lemma {:induction false} TokenIsWf(src: string, p: nat, e: nat, l: Lexeme)
    requires TokenAt(src, p, e, l)
    ensures WfLexeme(l)
  {
    if l.TokNumber? {
      assert src[p..e] == l.spelling[0..|l.spelling|];
      NumberSpanMoves(src, p, l.spelling, 0, e - p);
    }
  }

  /** Positions strictly increase, and EOF occurs once, last, at the end of the text. */
  lemma {:induction false} TokensInOrder(src: string, i: nat, ts: seq<Token>)
    requires i <= |src| && Tokenises(src, i, ts)
    ensures forall a :: 0 <= a < |ts| ==> i <= ts[a].pos <= |src|
    ensures forall a, b :: 0 <= a < b < |ts| ==> ts[a].pos < ts[b].pos
    ensures ts[|ts| - 1] == Token(TokEOF, |src|)
    ensures forall a :: 0 <= a < |ts| - 1 ==> WfLexeme(ts[a].lex)
    decreases |ts|
  {
    if !ts[0].lex.TokEOF? {
      var e := TokenisesStep(src, i, ts);
      TokenIsWf(src, ts[0].pos, e, ts[0].lex);
      TokensInOrder(src, e, ts[1..]);
      forall a | 1 <= a < |ts|
        ensures ts[0].pos < ts[a].pos <= |src|
        ensures a < |ts| - 1 ==> WfLexeme(ts[a].lex)
      {
        assert ts[a] == ts[1..][a - 1];
      }
      forall a, b | 1 <= a < b < |ts|
        ensures ts[a].pos < ts[b].pos
      {
        assert ts[a] == ts[1..][a - 1] && ts[b] == ts[1..][b - 1];
      }
    }
  }

  /** Every spelling followed by one space. */
  function Render(ls: seq<Lexeme>): string {
    if ls == [] then "" else Spell(ls[0]) + " " + Render(ls[1..])
  }

  function RenderTokens(ls: seq<Lexeme>, p: nat): (ts: seq<Token>)
    ensures |ts| == |ls| + 1
    ensures Lexemes(ts) == ls
    ensures ts[|ls|].lex == TokEOF
  {
    if ls == [] then [Token(TokEOF, p)]
    else [Token(ls[0], p)] + RenderTokens(ls[1..], p + |Spell(ls[0])| + 1)
  }

  lemma {:induction false} SpelledTokenAt(src: string, p: nat, l: Lexeme)
    requires WfLexeme(l)
    requires p + |Spell(l)| < |src| && src[p..p + |Spell(l)|] == Spell(l)
    requires src[p + |Spell(l)|] == ' '
    ensures TokenAt(src, p, p + |Spell(l)|, l)
  {
    var s, e := Spell(l), p + |Spell(l)|;
    assert forall k :: p <= k < e ==> src[k] == s[k - p];
    match l {
      case TokKeyword(k) =>
        KwTextIsWord(k);
        CaseExactly(s, s);
      case TokNumber(_) =>
        assert s[0..|s|] == s;
        NumberSpanMoves(s, 0, src, p, |s|);
      case _ =>
    }
  }

  lemma {:induction false} SplitHead(src: string, p: nat, s: string, rest: string)
    requires p <= |src| && src[p..] == s + " " + rest
    ensures var e := p + |s|;
            e < |src| && src[p..e] == s && src[e] == ' ' && src[e + 1..] == rest
  {
    var w := src[p..];
    assert src[p..p + |s|] == w[..|s|] == s;
    assert src[p + |s|] == w[|s|];
    assert src[p + |s| + 1..] == w[|s| + 1..] == rest;
  }

  lemma {:induction false} RenderTokenises(src: string, i: nat, p: nat, ls: seq<Lexeme>)
    requires AllSpace(src, i, p) && src[p..] == Render(ls)
    requires forall k :: 0 <= k < |ls| ==> WfLexeme(ls[k])
    ensures Tokenises(src, i, RenderTokens(ls, p))
    decreases |ls|
  {
    hide Tokenises, TokenAt, WfLexeme, Spell, IsSpace;
    var ts := RenderTokens(ls, p);
    if ls == [] {
      assert |src[p..]| == 0;
      TokenisesEnd(src, i);
    } else {
      var e := p + |Spell(ls[0])|;
      SplitHead(src, p, Spell(ls[0]), Render(ls[1..]));
      SpelledTokenAt(src, p, ls[0]);
      OneSpace(src, e);
      RenderTokenises(src, e, e + 1, ls[1..]);
      assert ts[1..] == RenderTokens(ls[1..], e + 1);
      TokenisesToken(src, i, e, ts);
    }
  }

  lemma OneSpace(src: string, e: nat)
    requires e < |src| && src[e] == ' '
    ensures AllSpace(src, e, e + 1)
  {
  }

  /** Scanning the rendered text of any sequence of well-formed lexemes gives it back. */
  lemma {:induction false} ScanRender(ls: seq<Lexeme>)
    requires forall k :: 0 <= k < |ls| ==> WfLexeme(ls[k])
    ensures Scan(Render(ls)) == Some(RenderTokens(ls, 0))
    ensures Lexemes(Scan(Render(ls)).value) == ls
  {
    var src := Render(ls);
    assert src[0..] == src;
    RenderTokenises(src, 0, 0, ls);
    LexExact(src, RenderTokens(ls, 0));
  }

  /** Rendering the tokens of any scanned text and scanning again gives the same lexemes. */
  lemma {:induction false} RescanStable(src: string)
    requires Scan(src).Some?
    ensures var ts := Scan(src).value;
            |ts| > 0 &&
            match Scan(Render(Lexemes(ts)))
            case Some(again) => |again| > 0 && Lexemes(again) == Lexemes(ts)
            case None => false
  {
    var ts := Scan(src).value;
    LexExact(src, ts);
    TokensInOrder(src, 0, ts);
    ScanRender(Lexemes(ts));
  }

  /** Any text, quoted with its quotes doubled, is scanned as the literal with that text. */
  lemma {:induction false} QuotedTextDecodes(t: string)
    ensures Scan(Quote(t)) == Some([Token(TokString(t), 0), Token(TokEOF, |Quote(t)|)])
  {
    var src := Quote(t);
    var ts := [Token(TokString(t), 0), Token(TokEOF, |src|)];
    assert src[0..|src|] == Quote(t);
    assert ts[1..] == [Token(TokEOF, |src|)];
    assert TokenAt(src, 0, |src|, TokString(t)) && Tokenises(src, |src|, ts[1..]);
    LexExact(src, ts);
  }
}
