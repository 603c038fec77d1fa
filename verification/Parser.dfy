/**
 The parser as the object it is: a token stream and a cursor that `Next` advances.  Every
 method leaves the cursor where the parse function of the same name does, and returns
 what that function returns.
 */
module Parser {
  import opened Common
  import opened Numbers
  import opened Tokens
  import opened Ast
  import opened Grammar
  import opened ParseFns
  import Lexer
  import Tokenisation

  class Parser {
    const pf: FloatParser
    const toks: seq<Token>
    var pos: nat

    ghost predicate Valid()
      reads this
    {
      Stream(toks) && pos < |toks|
    }

    /** The method's result and the cursor are those of a parse function's result. */
    ghost predicate Agrees<T>(r: Option<T>, p: Parsed<T>)
      reads this
    {
      && Valid()
      && match p
         case Ok(v, j) => r == Some(v) && pos == j
         case Fail => r == None
    }

    constructor (pf: FloatParser, toks: seq<Token>)
      requires Stream(toks)
      ensures Valid() && this.pf == pf && this.toks == toks && pos == 0
    {
      this.pf, this.toks, this.pos := pf, toks, 0;
    }

    function Cur(): Lexeme
      requires Valid()
      reads this
    {
      toks[pos].lex
    }

    /** Only the final EOF is not passed. */
    method Next() returns (l: Lexeme)
      requires Valid()
      modifies this
      ensures Valid() && l == old(Cur())
      ensures pos == if l.TokEOF? then old(pos) else old(pos) + 1
    {
      l := toks[pos].lex;
      if pos < |toks| - 1 {
        pos := pos + 1;
      }
    }

    method Accept(l: Lexeme) returns (ok: bool)
      requires Valid() && !l.TokEOF?
      modifies this
      ensures Valid() && ok == Is(toks, old(pos), l)
      ensures pos == if ok then old(pos) + 1 else old(pos)
    {
      ok := Cur() == l;
      if ok {
        var _ := Next();
      }
    }

    method AcceptKeyword(k: Kw) returns (ok: bool)
      requires Valid()
      modifies this
      ensures Valid() && ok == IsKw(toks, old(pos), k)
      ensures pos == if ok then old(pos) + 1 else old(pos)
    {
      ok := Accept(TokKeyword(k));
    }

    method ExpectIdent() returns (r: Option<string>)
      requires Valid()
      modifies this
      ensures Valid()
      ensures r.Some? == IsIdent(toks, old(pos))
      ensures r.Some? ==> toks[old(pos)].lex == TokIdent(r.value) && pos == old(pos) + 1
    {
      if !Cur().TokIdent? {
        return None;
      }
      var l := Next();
      return Some(l.name);
    }

    method ParseColumn() returns (r: Option<Column>)
      requires Valid()
      modifies this
      ensures Agrees(r, ParseFns.ParseColumn(toks, old(pos)))
    {
      var first :- ExpectIdent();
      var dot := Accept(TokDot);
      if dot {
        var second :- ExpectIdent();
        return Some(Column(first, second));
      }
      return Some(Column("", first));
    }

    method ParseValue() returns (r: Option<Value>)
      requires Valid()
      modifies this
      ensures Agrees(r, ParseFns.ParseValue(pf, toks, old(pos)))
    {
      var l := Cur();
      match l {
        case TokString(t) =>
          l := Next();
          return Some(StringVal(t));
        case TokNumber(s) =>
          l := Next();
          var n :- ParseNumber(pf, s);
          return Some(NumberVal(n));
        case TokKeyword(TRUE) =>
          l := Next();
          return Some(BoolVal(true));
        case TokKeyword(FALSE) =>
          l := Next();
          return Some(BoolVal(false));
        case TokKeyword(NULL) =>
          l := Next();
          return Some(NullVal);
        case _ =>
          return None;
      }
    }

    method ParseValues() returns (r: Option<seq<Value>>)
      requires Valid()
      modifies this
      ensures Agrees(r, ParseFns.ParseValues(pf, toks, [], old(pos)))
    {
      var vals: seq<Value> := [];
      while true
        invariant Valid()
        invariant ParseFns.ParseValues(pf, toks, [], old(pos)) == ParseFns.ParseValues(pf, toks, vals, pos)
        decreases |toks| - pos
      {
        var v :- ParseValue();
        vals := vals + [v];
        var more := Accept(TokComma);
        if !more {
          return Some(vals);
        }
      }
    }

    method ParseColumnList() returns (r: Option<seq<Column>>)
      requires Valid()
      modifies this
      ensures Agrees(r, ParseColumns(toks, [], old(pos)))
    {
      var cols: seq<Column> := [];
      while true
        invariant Valid()
        invariant ParseColumns(toks, [], old(pos)) == ParseColumns(toks, cols, pos)
        decreases |toks| - pos
      {
        var c :- ParseColumn();
        cols := cols + [c];
        var more := Accept(TokComma);
        if !more {
          return Some(cols);
        }
      }
    }

    method ParsePredicate() returns (r: Option<Condition>)
      requires Valid()
      modifies this
      ensures Agrees(r, ParseFns.ParsePredicate(pf, toks, old(pos)))
    {
      var col :- ParseColumn();
      r := ParseTest(col);
    }

    method ParseTest(col: Column) returns (r: Option<Condition>)
      requires Valid()
      modifies this
      ensures Agrees(r, ParseFns.ParseTest(pf, toks, col, old(pos)))
    {
      hide ParseFns.ParseColumn, ParseFns.ParseValue, ParseFns.ParseValues;
      var l := Cur();
      match l {
        case TokOp(op) =>
          l := Next();
          if Cur().TokIdent? {
            var right :- ParseColumn();
            return Some(Comparison(col, op, ColOperand(right)));
          }
          var v :- ParseValue();
          return Some(Comparison(col, op, ValOperand(v)));
        case TokKeyword(IN) =>
          l := Next();
          var open := Accept(TokLParen);
          if !open {
            return None;
          }
          var vals :- ParseValues();
          var closed := Accept(TokRParen);
          return if closed then Some(In(col, vals)) else None;
        case TokKeyword(LIKE) =>
          l := Next();
          var v :- ParseValue();
          return if v.StringVal? then Some(Like(col, v)) else None;
        case TokKeyword(IS) =>
          l := Next();
          var negate := AcceptKeyword(NOT);
          var isNull := AcceptKeyword(NULL);
          return if isNull then Some(IsNull(col, negate)) else None;
        case TokKeyword(BETWEEN) =>
          l := Next();
          var low :- ParseValue();
          var ok := AcceptKeyword(AND);
          if !ok {
            return None;
          }
          var high :- ParseValue();
          return Some(Between(col, low, high));
        case _ =>
          return None;
      }
    }

    method ParseCondition() returns (r: Option<Condition>)
      requires Valid()
      modifies this
      ensures Agrees(r, ParseFns.ParseCondition(pf, toks, old(pos)))
      decreases |toks| - pos, 4
    {
      ghost var start := pos;
      var left :- ParseAndTerm();
      var more := AcceptKeyword(OR);
      while more
        invariant Valid() && start < pos
        invariant more ==> IsKw(toks, pos - 1, OR) && start < pos - 1
        invariant ParseFns.ParseCondition(pf, toks, start)
               == OrLoop(pf, toks, left, if more then pos - 1 else pos)
        invariant !more ==> !IsKw(toks, pos, OR)
        decreases |toks| - pos, more
      {
        var right :- ParseAndTerm();
        left := Logical(OpOr, left, right);
        more := AcceptKeyword(OR);
      }
      return Some(left);
    }

    method ParseAndTerm() returns (r: Option<Condition>)
      requires Valid()
      modifies this
      ensures Agrees(r, ParseFns.ParseAndTerm(pf, toks, old(pos)))
      decreases |toks| - pos, 3
    {
      ghost var start := pos;
      var left :- ParseNotFactor();
      var more := AcceptKeyword(AND);
      while more
        invariant Valid() && start < pos
        invariant more ==> IsKw(toks, pos - 1, AND) && start < pos - 1
        invariant ParseFns.ParseAndTerm(pf, toks, start)
               == AndLoop(pf, toks, left, if more then pos - 1 else pos)
        invariant !more ==> !IsKw(toks, pos, AND)
        decreases |toks| - pos, more
      {
        var right :- ParseNotFactor();
        left := Logical(OpAnd, left, right);
        more := AcceptKeyword(AND);
      }
      return Some(left);
    }

    method ParseNotFactor() returns (r: Option<Condition>)
      requires Valid()
      modifies this
      ensures Agrees(r, ParseFns.ParseNotFactor(pf, toks, old(pos)))
      decreases |toks| - pos, 2
    {
      var negated := AcceptKeyword(NOT);
      if negated {
        var inner :- ParseFactor();
        return Some(Not(inner));
      }
      r := ParseFactor();
    }

    method ParseFactor() returns (r: Option<Condition>)
      requires Valid()
      modifies this
      ensures Agrees(r, ParseFns.ParseFactor(pf, toks, old(pos)))
      decreases |toks| - pos, 1
    {
      var open := Accept(TokLParen);
      if open {
        var cond :- ParseCondition();
        var closed := Accept(TokRParen);
        return if closed then Some(cond) else None;
      }
      r := ParsePredicate();
    }

    method ParseSelectItem() returns (r: Option<SelectItem>)
      requires Valid()
      modifies this
      ensures Agrees(r, ParseFns.ParseSelectItem(toks, old(pos)))
    {
      var item :- ParseSelectBase();
      var aliased := AcceptKeyword(AS);
      if aliased {
        var alias :- ExpectIdent();
        return Some(item.(alias := alias));
      }
      return Some(item);
    }

    method ParseSelectBase() returns (r: Option<SelectItem>)
      requires Valid()
      modifies this
      ensures Agrees(r, ParseFns.ParseSelectBase(toks, old(pos)))
    {
      var l := Cur();
      if l.TokKeyword? && IsAggregate(l.kw) {
        var agg := l.kw;
        l := Next();
        var open := Accept(TokLParen);
        if !open {
          return None;
        }
        var item := SelectItem(KwText(agg), false, NO_COLUMN, "");
        if Cur() == TokStar {
          if agg != COUNT {
            return None;
          }
          l := Next();
          item := item.(star := true);
        } else {
          var col :- ParseColumn();
          item := item.(column := col);
        }
        var closed := Accept(TokRParen);
        return if closed then Some(item) else None;
      }
      var col :- ParseColumn();
      return Some(SelectItem("", false, col, ""));
    }

    method ParseSelectList() returns (r: Option<seq<SelectItem>>)
      requires Valid()
      modifies this
      ensures Agrees(r, ParseFns.ParseSelectList(toks, [], old(pos)))
    {
      hide ParseFns.ParseSelectItem;
      var items: seq<SelectItem> := [];
      while true
        invariant Valid()
        invariant ParseFns.ParseSelectList(toks, [], old(pos)) == ParseFns.ParseSelectList(toks, items, pos)
        decreases |toks| - pos
      {
        var item :- ParseSelectItem();
        items := items + [item];
        var more := Accept(TokComma);
        if !more {
          return Some(items);
        }
      }
    }

    method ParseOrderList() returns (r: Option<seq<OrderItem>>)
      requires Valid()
      modifies this
      ensures Agrees(r, ParseFns.ParseOrderList(toks, [], old(pos)))
    {
      hide ParseFns.ParseColumn;
      var items: seq<OrderItem> := [];
      while true
        invariant Valid()
        invariant ParseFns.ParseOrderList(toks, [], old(pos)) == ParseFns.ParseOrderList(toks, items, pos)
        decreases |toks| - pos
      {
        var col :- ParseColumn();
        var item := OrderItem(col, false);
        var desc := AcceptKeyword(DESC);
        if desc {
          item := item.(desc := true);
        } else {
          var _ := AcceptKeyword(ASC);
        }
        items := items + [item];
        var more := Accept(TokComma);
        if !more {
          return Some(items);
        }
      }
    }

    method ParseTableRef() returns (r: Option<TableRef>)
      requires Valid()
      modifies this
      ensures Agrees(r, ParseFns.ParseTableRef(toks, old(pos)))
    {
      var name :- ExpectIdent();
      var aliased := AcceptKeyword(AS);
      if aliased {
        var alias :- ExpectIdent();
        return Some(TableRef(name, alias));
      }
      if Cur().TokIdent? {
        var l := Next();
        return Some(TableRef(name, l.name));
      }
      return Some(TableRef(name, ""));
    }

    method ParseJoinType() returns (r: Option<JoinType>)
      requires Valid()
      modifies this
      ensures Agrees(r, ParseFns.ParseJoinType(toks, old(pos)))
    {
      var kind := InnerJoin;
      var accepted := AcceptKeyword(INNER);
      if !accepted {
        accepted := AcceptKeyword(LEFT);
        if accepted {
          kind := LeftJoin;
          var _ := AcceptKeyword(OUTER);
        } else {
          accepted := AcceptKeyword(RIGHT);
          if accepted {
            kind := RightJoin;
            var _ := AcceptKeyword(OUTER);
          }
        }
      }
      var ok := AcceptKeyword(JOIN);
      return if ok then Some(kind) else None;
    }

    method ParseJoin() returns (r: Option<Join>)
      requires Valid()
      modifies this
      ensures Agrees(r, ParseFns.ParseJoin(pf, toks, old(pos)))
    {
      var kind :- ParseJoinType();
      var table :- ParseTableRef();
      var ok := AcceptKeyword(ON);
      if !ok {
        return None;
      }
      var on :- ParseCondition();
      return Some(Join(kind, table, on));
    }

    method ParseNonNegInt() returns (r: Option<int>)
      requires Valid()
      modifies this
      ensures Valid() && r == NonNegIntOf(old(Cur()))
      ensures r.Some? ==> pos == old(pos) + 1
    {
      if !Cur().TokNumber? {
        return None;
      }
      var l := Next();
      var v :- ParseInt(l.spelling);
      return if v < 0 then None else Some(v);
    }

    /** The clauses are stored in the query one by one, as they are parsed. */
    method ParseQuery(q: QueryPtr) returns (ok: bool)
      requires Valid() && q.val == NO_QUERY
      modifies this, q
      ensures Agrees(if ok then Some(q.val) else None, ParseFns.ParseQuery(pf, toks, old(pos)))
    {
      hide ParseFns.ParseSelect, ParseFns.ParseTableRef, ParseFns.ParseJoins,
           ParseFns.ParseCondition, ParseFns.ParseGroupBy, ParseFns.ParseOrderBy, ParseFns.ParseLimit;
      ok := AcceptKeyword(SELECT);
      if !ok { return; }
      ok := ParseSelect(q);
      if !ok { return; }
      ok := AcceptKeyword(FROM);
      if !ok { return; }
      var from := ParseTableRef();
      if from.None? { return false; }
      q.val := q.val.(from := from.value);
      ok := ParseJoins(q);
      if !ok { return; }
      var present := AcceptKeyword(WHERE);
      if present {
        var cond := ParseCondition();
        if cond.None? { return false; }
        q.val := q.val.(where := cond);
      }
      ok := ParseTail(q);
    }

    method ParseSelect(q: QueryPtr) returns (ok: bool)
      requires Valid() && q.val == NO_QUERY
      modifies this, q
      ensures Agrees(if ok then Some((q.val.star, q.val.columns)) else None,
                     ParseFns.ParseSelect(toks, old(pos)))
      ensures ok ==> q.val == NO_QUERY.(star := q.val.star, columns := q.val.columns)
    {
      var star := Accept(TokStar);
      if star {
        q.val := q.val.(star := true);
        return true;
      }
      var items := ParseSelectList();
      if items.None? { return false; }
      q.val := q.val.(columns := items.value);
      return true;
    }

    method ParseJoins(q: QueryPtr) returns (ok: bool)
      requires Valid() && q.val.joins == []
      modifies this, q
      ensures Agrees(if ok then Some(q.val.joins) else None, ParseFns.ParseJoins(pf, toks, [], old(pos)))
      ensures ok ==> q.val == old(q.val).(joins := q.val.joins)
    {
      while AtJoinStart(toks, pos)
        invariant Valid()
        invariant q.val == old(q.val).(joins := q.val.joins)
        invariant ParseFns.ParseJoins(pf, toks, [], old(pos))
               == ParseFns.ParseJoins(pf, toks, q.val.joins, pos)
        decreases |toks| - pos
      {
        var j := ParseJoin();
        if j.None? { return false; }
        q.val := q.val.(joins := q.val.joins + [j.value]);
      }
      return true;
    }

    /** GROUP BY, ORDER BY, LIMIT and OFFSET. */
    method ParseTail(q: QueryPtr) returns (ok: bool)
      requires Valid()
      requires q.val.groupBy == [] && q.val.orderBy == [] && q.val.limit == None == q.val.offset
      modifies this, q
      ensures Agrees(if ok then Some(q.val) else None, ParseTailOf(pf, toks, old(pos), old(q.val)))
    {
      hide ParseFns.ParseGroupBy, ParseFns.ParseOrderBy, ParseFns.ParseLimit;
      ok := ParseGroupBy(q);
      if !ok { return; }
      ok := ParseOrderBy(q);
      if !ok { return; }
      ok := ParseLimit(q);
    }

    method ParseGroupBy(q: QueryPtr) returns (ok: bool)
      requires Valid() && q.val.groupBy == []
      modifies this, q
      ensures Agrees(if ok then Some(q.val.groupBy) else None, ParseFns.ParseGroupBy(toks, old(pos)))
      ensures ok ==> q.val == old(q.val).(groupBy := q.val.groupBy)
    {
      var present := AcceptKeyword(GROUP);
      if !present { return true; }
      ok := AcceptKeyword(BY);
      if !ok { return; }
      var cols := ParseColumnList();
      if cols.None? { return false; }
      q.val := q.val.(groupBy := cols.value);
    }

    method ParseOrderBy(q: QueryPtr) returns (ok: bool)
      requires Valid() && q.val.orderBy == []
      modifies this, q
      ensures Agrees(if ok then Some(q.val.orderBy) else None, ParseFns.ParseOrderBy(toks, old(pos)))
      ensures ok ==> q.val == old(q.val).(orderBy := q.val.orderBy)
    {
      var present := AcceptKeyword(ORDER);
      if !present { return true; }
      ok := AcceptKeyword(BY);
      if !ok { return; }
      var items := ParseOrderList();
      if items.None? { return false; }
      q.val := q.val.(orderBy := items.value);
    }

    method ParseLimit(q: QueryPtr) returns (ok: bool)
      requires Valid() && q.val.limit == None == q.val.offset
      modifies this, q
      ensures Agrees(if ok then Some((q.val.limit, q.val.offset)) else None,
                     ParseFns.ParseLimit(toks, old(pos)))
      ensures ok ==> q.val == old(q.val).(limit := q.val.limit, offset := q.val.offset)
    {
      var present := AcceptKeyword(LIMIT);
      if !present { return true; }
      var limit := ParseNonNegInt();
      if limit.None? { return false; }
      q.val := q.val.(limit := limit);
      present := AcceptKeyword(OFFSET);
      if present {
        var offset := ParseNonNegInt();
        if offset.None? { return false; }
        q.val := q.val.(offset := offset);
      }
      return true;
    }
  }

  /** The clauses after WHERE, put into a query that holds the ones before. */
  function ParseTailOf(pf: FloatParser, ts: seq<Token>, i: nat, q: Query): Parsed<Query>
    requires Stream(ts) && i < |ts|
  {
    var (group, e) :- ParseGroupBy(ts, i);
    var (order, f) :- ParseOrderBy(ts, e);
    var (lim, j) :- ParseLimit(ts, f);
    Ok(q.(groupBy := group, orderBy := order, limit := lim.0, offset := lim.1), j)
  }

  /** The query a source text is, or None for a lexical or syntax error. */
  ghost function ParseText(pf: FloatParser, src: string): Option<Query> {
    match Lexer.Scan(src)
    case None => None
    case Some(ts) =>
      ScannedStream(src);
      ParseTokens(pf, ts)
  }

  lemma {:induction false} ScannedStream(src: string)
    requires Lexer.Scan(src).Some?
    ensures Stream(Lexer.Scan(src).value)
  {
    var ts := Lexer.Scan(src).value;
    Tokenisation.LexExact(src, ts);
    Tokenisation.TokensInOrder(src, 0, ts);
  }

  method Parse(pf: FloatParser, src: string) returns (q: QueryPtr, ok: bool)
    ensures fresh(q)
    ensures ParseText(pf, src) == if ok then Some(q.val) else None
  {
    q := new QueryPtr(NO_QUERY);
    ok := false;
    var toks := Lexer.Lex(src);
    if toks.None? { return; }
    ScannedStream(src);
    var p := new Parser(pf, toks.value);
    ok := p.ParseQuery(q);
    ok := ok && p.Cur() == TokEOF;
  }
}
