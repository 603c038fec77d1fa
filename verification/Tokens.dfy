/** Reserved words and the lexemes the scanner produces, with their spellings. */
module Tokens {
  import opened Common

  datatype Kw =
    | SELECT | FROM | WHERE | GROUP | BY | ORDER | LIMIT | OFFSET
    | JOIN | INNER | LEFT | RIGHT | OUTER | ON | AS
    | AND | OR | NOT | IN | LIKE | IS | NULL | BETWEEN | ASC | DESC
    | TRUE | FALSE | COUNT | SUM | AVG | MIN | MAX

  datatype Lexeme =
    | TokEOF
    | TokIdent(name: string)
    | TokKeyword(kw: Kw)
    | TokString(text: string)
    | TokNumber(spelling: string)
    | TokComma | TokLParen | TokRParen | TokDot | TokStar
    | TokOp(op: string)

  datatype Token = Token(lex: Lexeme, pos: nat)

  function KwText(k: Kw): string {
    match k
    case SELECT => "SELECT" case FROM => "FROM" case WHERE => "WHERE" case GROUP => "GROUP"
    case BY => "BY" case ORDER => "ORDER" case LIMIT => "LIMIT" case OFFSET => "OFFSET"
    case JOIN => "JOIN" case INNER => "INNER" case LEFT => "LEFT" case RIGHT => "RIGHT"
    case OUTER => "OUTER" case ON => "ON" case AS => "AS" case AND => "AND" case OR => "OR"
    case NOT => "NOT" case IN => "IN" case LIKE => "LIKE" case IS => "IS" case NULL => "NULL"
    case BETWEEN => "BETWEEN" case ASC => "ASC" case DESC => "DESC" case TRUE => "TRUE"
    case FALSE => "FALSE" case COUNT => "COUNT" case SUM => "SUM" case AVG => "AVG"
    case MIN => "MIN" case MAX => "MAX"
  }

  /** The length and the first two letters tell the reserved words apart. */
  lemma {:induction false} KwTextInjective(a: Kw, b: Kw)
    requires KwText(a) == KwText(b)
    ensures a == b
  {
    var s, t := KwText(a), KwText(b);
    assert |s| == |t| >= 2 && s[0] == t[0] && s[1] == t[1];
  }

  /** Each reserved word is the one the source's table lists. */
  lemma SpellingsExactly(k: Kw)
    ensures KwText(k) ==
      match k
      case SELECT => "SELECT" case FROM => "FROM" case WHERE => "WHERE"
      case GROUP => "GROUP" case BY => "BY" case ORDER => "ORDER"
      case LIMIT => "LIMIT" case OFFSET => "OFFSET" case JOIN => "JOIN"
      case INNER => "INNER" case LEFT => "LEFT" case RIGHT => "RIGHT"
      case OUTER => "OUTER" case ON => "ON" case AS => "AS"
      case AND => "AND" case OR => "OR" case NOT => "NOT"
      case IN => "IN" case LIKE => "LIKE" case IS => "IS"
      case NULL => "NULL" case BETWEEN => "BETWEEN" case ASC => "ASC"
      case DESC => "DESC" case TRUE => "TRUE" case FALSE => "FALSE"
      case COUNT => "COUNT" case SUM => "SUM" case AVG => "AVG"
      case MIN => "MIN" case MAX => "MAX"
  {
  }

  /** The reserved word a text is, if any. */
  function KeywordOf(s: string): (r: Option<Kw>)
    ensures forall k :: r == Some(k) <==> KwText(k) == s
  {
    if exists k :: KwText(k) == s then
      assert forall a, b | KwText(a) == s && KwText(b) == s :: a == b by {
        forall a, b | KwText(a) == s && KwText(b) == s
          ensures a == b
        {
          KwTextInjective(a, b);
        }
      }
      var k :| KwText(k) == s;
      Some(k)
    else
      None
  }
}
