/** The accepted language, from bytes to queries: scanning and parsing together. */
module Language {
  import opened Numbers
  import opened Tokens
  import opened Common
  import opened Ast
  import Grammar
  import Lexer
  import ParseExact
  import Parser
  import Tokenisation

  /** The text has a tokenisation from which the grammar derives the query. */
  ghost predicate Means(pf: FloatParser, src: string, q: Query) {
    exists ts: seq<Token> ::
      Tokenisation.Tokenises(src, 0, ts) && Grammar.Stream(ts) && Grammar.Derives(pf, ts, q)
  }

  /** A source text is accepted with result `q` exactly when it means `q`. */
  lemma {:induction false} AcceptedExactly(pf: FloatParser, src: string, q: Query)
    ensures Parser.ParseText(pf, src) == Some(q) <==> Means(pf, src, q)
  {
    hide Tokenisation.Tokenises, Grammar.Derives, Grammar.Stream, Lexer.Scan;
    if Parser.ParseText(pf, src) == Some(q) {
      var ts := Lexer.Scan(src).value;
      Parser.ScannedStream(src);
      Tokenisation.LexExact(src, ts);
      ParseExact.ParseExactly(pf, ts, q);
      assert Tokenisation.Tokenises(src, 0, ts) && Grammar.Stream(ts) && Grammar.Derives(pf, ts, q);
    }
    if ts: seq<Token> :|
      Tokenisation.Tokenises(src, 0, ts) && Grammar.Stream(ts) && Grammar.Derives(pf, ts, q) {
      Tokenisation.LexExact(src, ts);
      ParseExact.ParseExactly(pf, ts, q);
    }
  }
}
