/**
 The recursive-descent parser as functions of the token stream and the cursor.  Each
 returns the parsed item with the new cursor, or Fail.
 */
module ParseFns {
  import opened Common
  import opened Numbers
  import opened Tokens
  import opened Ast
  import opened Grammar

  datatype Parsed<+T> = Fail | Ok(value: T, pos: nat) {

    predicate IsFailure() {
      Fail?
    }

    function PropagateFailure<U>(): Parsed<U>
      requires Fail?
    {
      Fail
    }

    function Extract(): (T, nat)
      requires Ok?
    {
      (value, pos)
    }
  }

  function ParseColumn(ts: seq<Token>, i: nat): (r: Parsed<Column>)
    requires Stream(ts) && i < |ts|
    ensures r.Ok? ==> i < r.pos < |ts|
  {
    if !IsIdent(ts, i) then Fail
    else if !Is(ts, i + 1, TokDot) then Ok(Column("", ts[i].lex.name), i + 1)
    else if !IsIdent(ts, i + 2) then Fail
    else Ok(Column(ts[i].lex.name, ts[i + 2].lex.name), i + 3)
  }

  function ParseValue(pf: FloatParser, ts: seq<Token>, i: nat): (r: Parsed<Value>)
    requires Stream(ts) && i < |ts|
    ensures r.Ok? ==> i < r.pos < |ts|
  {
    match ValueOf(pf, ts[i].lex)
    case Some(v) => Ok(v, i + 1)
    case None => Fail
  }

  function ParseValues(pf: FloatParser, ts: seq<Token>, acc: seq<Value>, i: nat)
    : (r: Parsed<seq<Value>>)
    requires Stream(ts) && i < |ts|
    ensures r.Ok? ==> i < r.pos < |ts|
    decreases |ts| - i
  {
    var (v, j) :- ParseValue(pf, ts, i);
    if Is(ts, j, TokComma) then ParseValues(pf, ts, acc + [v], j + 1) else Ok(acc + [v], j)
  }

  function ParseColumns(ts: seq<Token>, acc: seq<Column>, i: nat): (r: Parsed<seq<Column>>)
    requires Stream(ts) && i < |ts|
    ensures r.Ok? ==> i < r.pos < |ts|
    decreases |ts| - i
  {
    var (c, j) :- ParseColumn(ts, i);
    if Is(ts, j, TokComma) then ParseColumns(ts, acc + [c], j + 1) else Ok(acc + [c], j)
  }

  // ---------- Conditions ----------

  function ParseTest(pf: FloatParser, ts: seq<Token>, col: Column, k: nat): (r: Parsed<Condition>)
    requires Stream(ts) && k < |ts|
    ensures r.Ok? ==> k < r.pos < |ts|
  {
    match ts[k].lex
    case TokOp(op) =>
      if IsIdent(ts, k + 1) then
        var (right, j) :- ParseColumn(ts, k + 1);
        Ok(Comparison(col, op, ColOperand(right)), j)
      else
        var (v, j) :- ParseValue(pf, ts, k + 1);
        Ok(Comparison(col, op, ValOperand(v)), j)
    case TokKeyword(IN) =>
      if !Is(ts, k + 1, TokLParen) then Fail
      else
        var (vals, j) :- ParseValues(pf, ts, [], k + 2);
        if Is(ts, j, TokRParen) then Ok(In(col, vals), j + 1) else Fail
    case TokKeyword(LIKE) =>
      var (v, j) :- ParseValue(pf, ts, k + 1);
      if v.StringVal? then Ok(Like(col, v), j) else Fail
    case TokKeyword(IS) =>
      var negate := IsKw(ts, k + 1, NOT);
      var n := if negate then k + 2 else k + 1;
      if IsKw(ts, n, NULL) then Ok(IsNull(col, negate), n + 1) else Fail
    case TokKeyword(BETWEEN) =>
      var (low, j) :- ParseValue(pf, ts, k + 1);
      if !IsKw(ts, j, AND) then Fail
      else
        var (high, e) :- ParseValue(pf, ts, j + 1);
        Ok(Between(col, low, high), e)
    case _ => Fail
  }

  function ParsePredicate(pf: FloatParser, ts: seq<Token>, i: nat): (r: Parsed<Condition>)
    requires Stream(ts) && i < |ts|
    ensures r.Ok? ==> i < r.pos < |ts|
  {
    var (col, k) :- ParseColumn(ts, i);
    ParseTest(pf, ts, col, k)
  }

  function ParseCondition(pf: FloatParser, ts: seq<Token>, i: nat): (r: Parsed<Condition>)
    requires Stream(ts) && i < |ts|
    ensures r.Ok? ==> i < r.pos < |ts|
    decreases |ts| - i, 4
  {
    var (left, j) :- ParseAndTerm(pf, ts, i);
    OrLoop(pf, ts, left, j)
  }

  function OrLoop(pf: FloatParser, ts: seq<Token>, left: Condition, i: nat): (r: Parsed<Condition>)
    requires Stream(ts) && i < |ts|
    ensures r.Ok? ==> i <= r.pos < |ts|
    decreases |ts| - i, 0
  {
    if IsKw(ts, i, OR) then
      var (right, j) :- ParseAndTerm(pf, ts, i + 1);
      OrLoop(pf, ts, Logical(OpOr, left, right), j)
    else
      Ok(left, i)
  }

  function ParseAndTerm(pf: FloatParser, ts: seq<Token>, i: nat): (r: Parsed<Condition>)
    requires Stream(ts) && i < |ts|
    ensures r.Ok? ==> i < r.pos < |ts|
    decreases |ts| - i, 3
  {
    var (left, j) :- ParseNotFactor(pf, ts, i);
    AndLoop(pf, ts, left, j)
  }

  function AndLoop(pf: FloatParser, ts: seq<Token>, left: Condition, i: nat): (r: Parsed<Condition>)
    requires Stream(ts) && i < |ts|
    ensures r.Ok? ==> i <= r.pos < |ts|
    decreases |ts| - i, 0
  {
    if IsKw(ts, i, AND) then
      var (right, j) :- ParseNotFactor(pf, ts, i + 1);
      AndLoop(pf, ts, Logical(OpAnd, left, right), j)
    else
      Ok(left, i)
  }

  function ParseNotFactor(pf: FloatParser, ts: seq<Token>, i: nat): (r: Parsed<Condition>)
    requires Stream(ts) && i < |ts|
    ensures r.Ok? ==> i < r.pos < |ts|
    decreases |ts| - i, 2
  {
    if IsKw(ts, i, NOT) then
      var (inner, j) :- ParseFactor(pf, ts, i + 1);
      Ok(Not(inner), j)
    else
      ParseFactor(pf, ts, i)
  }

  function ParseFactor(pf: FloatParser, ts: seq<Token>, i: nat): (r: Parsed<Condition>)
    requires Stream(ts) && i < |ts|
    ensures r.Ok? ==> i < r.pos < |ts|
    decreases |ts| - i, 1
  {
    if Is(ts, i, TokLParen) then
      var (c, j) :- ParseCondition(pf, ts, i + 1);
      if Is(ts, j, TokRParen) then Ok(c, j + 1) else Fail
    else
      ParsePredicate(pf, ts, i)
  }

  // ---------- Clauses ----------

  function ParseSelectBase(ts: seq<Token>, i: nat): (r: Parsed<SelectItem>)
    requires Stream(ts) && i < |ts|
    ensures r.Ok? ==> i < r.pos < |ts|
  {
    if ts[i].lex.TokKeyword? && IsAggregate(ts[i].lex.kw) then
      var agg := ts[i].lex.kw;
      if !Is(ts, i + 1, TokLParen) then Fail
      else if Is(ts, i + 2, TokStar) then
        if agg == COUNT && Is(ts, i + 3, TokRParen) then
          Ok(SelectItem(KwText(agg), true, NO_COLUMN, ""), i + 4)
        else Fail
      else
        var (c, j) :- ParseColumn(ts, i + 2);
        if Is(ts, j, TokRParen) then Ok(SelectItem(KwText(agg), false, c, ""), j + 1) else Fail
    else
      var (c, j) :- ParseColumn(ts, i);
      Ok(SelectItem("", false, c, ""), j)
  }

  function ParseSelectItem(ts: seq<Token>, i: nat): (r: Parsed<SelectItem>)
    requires Stream(ts) && i < |ts|
    ensures r.Ok? ==> i < r.pos < |ts|
  {
    var (x, j) :- ParseSelectBase(ts, i);
    if !IsKw(ts, j, AS) then Ok(x, j)
    else if IsIdent(ts, j + 1) then Ok(x.(alias := ts[j + 1].lex.name), j + 2)
    else Fail
  }

  function ParseSelectList(ts: seq<Token>, acc: seq<SelectItem>, i: nat): (r: Parsed<seq<SelectItem>>)
    requires Stream(ts) && i < |ts|
    ensures r.Ok? ==> i < r.pos < |ts|
    decreases |ts| - i
  {
    var (x, j) :- ParseSelectItem(ts, i);
    if Is(ts, j, TokComma) then ParseSelectList(ts, acc + [x], j + 1) else Ok(acc + [x], j)
  }

  function ParseOrderItem(ts: seq<Token>, i: nat): (r: Parsed<OrderItem>)
    requires Stream(ts) && i < |ts|
    ensures r.Ok? ==> i < r.pos < |ts|
  {
    var (c, j) :- ParseColumn(ts, i);
    if IsKw(ts, j, DESC) then Ok(OrderItem(c, true), j + 1)
    else if IsKw(ts, j, ASC) then Ok(OrderItem(c, false), j + 1)
    else Ok(OrderItem(c, false), j)
  }

  function ParseOrderList(ts: seq<Token>, acc: seq<OrderItem>, i: nat): (r: Parsed<seq<OrderItem>>)
    requires Stream(ts) && i < |ts|
    ensures r.Ok? ==> i < r.pos < |ts|
    decreases |ts| - i
  {
    var (x, j) :- ParseOrderItem(ts, i);
    if Is(ts, j, TokComma) then ParseOrderList(ts, acc + [x], j + 1) else Ok(acc + [x], j)
  }

  function ParseTableRef(ts: seq<Token>, i: nat): (r: Parsed<TableRef>)
    requires Stream(ts) && i < |ts|
    ensures r.Ok? ==> i < r.pos < |ts|
  {
    if !IsIdent(ts, i) then Fail
    else
      var name := ts[i].lex.name;
      if IsKw(ts, i + 1, AS) then
        if IsIdent(ts, i + 2) then Ok(TableRef(name, ts[i + 2].lex.name), i + 3) else Fail
      else if IsIdent(ts, i + 1) then Ok(TableRef(name, ts[i + 1].lex.name), i + 2)
      else Ok(TableRef(name, ""), i + 1)
  }

  predicate AtJoinStart(ts: seq<Token>, i: int) {
    IsKw(ts, i, JOIN) || IsKw(ts, i, INNER) || IsKw(ts, i, LEFT) || IsKw(ts, i, RIGHT)
  }

  function ParseJoinType(ts: seq<Token>, i: nat): (r: Parsed<JoinType>)
    requires Stream(ts) && i < |ts|
    ensures r.Ok? ==> i < r.pos < |ts|
  {
    var kind := if IsKw(ts, i, LEFT) then LeftJoin else if IsKw(ts, i, RIGHT) then RightJoin else InnerJoin;
    var j := if IsKw(ts, i, INNER) || kind != InnerJoin then i + 1 else i;
    var k := if kind != InnerJoin && IsKw(ts, j, OUTER) then j + 1 else j;
    if IsKw(ts, k, JOIN) then Ok(kind, k + 1) else Fail
  }

  function ParseJoin(pf: FloatParser, ts: seq<Token>, i: nat): (r: Parsed<Join>)
    requires Stream(ts) && i < |ts|
    ensures r.Ok? ==> i < r.pos < |ts|
  {
    var (kind, a) :- ParseJoinType(ts, i);
    var (table, b) :- ParseTableRef(ts, a);
    if !IsKw(ts, b, ON) then Fail
    else
      var (on, j) :- ParseCondition(pf, ts, b + 1);
      Ok(Join(kind, table, on), j)
  }

  function ParseJoins(pf: FloatParser, ts: seq<Token>, acc: seq<Join>, i: nat): (r: Parsed<seq<Join>>)
    requires Stream(ts) && i < |ts|
    ensures r.Ok? ==> i <= r.pos < |ts|
    decreases |ts| - i
  {
    if AtJoinStart(ts, i) then
      var (x, j) :- ParseJoin(pf, ts, i);
      ParseJoins(pf, ts, acc + [x], j)
    else
      Ok(acc, i)
  }

  function ParseSelect(ts: seq<Token>, i: nat): (r: Parsed<(bool, seq<SelectItem>)>)
    requires Stream(ts) && i < |ts|
    ensures r.Ok? ==> i < r.pos < |ts|
  {
    if Is(ts, i, TokStar) then Ok((true, []), i + 1)
    else
      var (xs, j) :- ParseSelectList(ts, [], i);
      Ok((false, xs), j)
  }

  function ParseWhere(pf: FloatParser, ts: seq<Token>, i: nat): (r: Parsed<Option<Condition>>)
    requires Stream(ts) && i < |ts|
    ensures r.Ok? ==> i <= r.pos < |ts|
  {
    if IsKw(ts, i, WHERE) then
      var (c, j) :- ParseCondition(pf, ts, i + 1);
      Ok(Some(c), j)
    else
      Ok(None, i)
  }

  function ParseGroupBy(ts: seq<Token>, i: nat): (r: Parsed<seq<Column>>)
    requires Stream(ts) && i < |ts|
    ensures r.Ok? ==> i <= r.pos < |ts|
  {
    if !IsKw(ts, i, GROUP) then Ok([], i)
    else if IsKw(ts, i + 1, BY) then ParseColumns(ts, [], i + 2)
    else Fail
  }

  function ParseOrderBy(ts: seq<Token>, i: nat): (r: Parsed<seq<OrderItem>>)
    requires Stream(ts) && i < |ts|
    ensures r.Ok? ==> i <= r.pos < |ts|
  {
    if !IsKw(ts, i, ORDER) then Ok([], i)
    else if IsKw(ts, i + 1, BY) then ParseOrderList(ts, [], i + 2)
    else Fail
  }

  function ParseLimit(ts: seq<Token>, i: nat): (r: Parsed<(Option<int>, Option<int>)>)
    requires Stream(ts) && i < |ts|
    ensures r.Ok? ==> i <= r.pos < |ts|
  {
    if !IsKw(ts, i, LIMIT) then Ok((None, None), i)
    else
      match NonNegIntOf(ts[i + 1].lex)
      case None => Fail
      case Some(n) =>
        if !IsKw(ts, i + 2, OFFSET) then Ok((Some(n), None), i + 2)
        else
          match NonNegIntOf(ts[i + 3].lex)
          case None => Fail
          case Some(m) => Ok((Some(n), Some(m)), i + 4)
  }

  function ParseQuery(pf: FloatParser, ts: seq<Token>, i: nat): (r: Parsed<Query>)
    requires Stream(ts) && i < |ts|
    ensures r.Ok? ==> i < r.pos < |ts|
  {
    if !IsKw(ts, i, SELECT) then Fail
    else
      var (sel, a) :- ParseSelect(ts, i + 1);
      if !IsKw(ts, a, FROM) then Fail
      else
        var (from, b) :- ParseTableRef(ts, a + 1);
        var (joins, c) :- ParseJoins(pf, ts, [], b);
        var (where, d) :- ParseWhere(pf, ts, c);
        var (group, e) :- ParseGroupBy(ts, d);
        var (order, f) :- ParseOrderBy(ts, e);
        var (lim, j) :- ParseLimit(ts, f);
        Ok(Query(sel.0, sel.1, from, joins, where, group, order, lim.0, lim.1), j)
  }

  /** The query a whole token stream is, or None for a syntax error. */
  function ParseTokens(pf: FloatParser, ts: seq<Token>): Option<Query>
    requires Stream(ts)
  {
    match ParseQuery(pf, ts, 0)
    case Fail => None
    case Ok(q, j) => if Is(ts, j, TokEOF) then Some(q) else None
  }
}
