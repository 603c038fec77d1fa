/**
 Conservation of literals: the values handed to the builder are the decoded literals of
 the source text, all of them, in source order.
 */
module Literals {
  import opened Common
  import opened Numbers
  import opened Tokens
  import opened Ast
  import opened Grammar
  import opened Catalog
  import opened Resolution
  import opened Translate
  import opened WellFormed

  // ---------- Literals of the tree and arguments of the nodes ----------

  function CondLiterals(c: Condition): seq<GoValue> {
    match c
    case Logical(_, l, r) => CondLiterals(l) + CondLiterals(r)
    case Not(d) => CondLiterals(d)
    case Comparison(_, _, ColOperand(_)) => []
    case Comparison(_, _, ValOperand(v)) => [Go(v)]
    case In(_, vals) => GoValues(vals)
    case Like(_, pattern) => [Go(pattern)]
    case IsNull(_, _) => []
    case Between(_, low, high) => [Go(low), Go(high)]
  }

  function JoinLiterals(xs: seq<Join>): seq<GoValue> {
    if xs == [] then [] else CondLiterals(xs[0].on) + JoinLiterals(xs[1..])
  }

  function CountLiteral(n: Option<int>): seq<GoValue> {
    if n.Some? then [GoInt64(n.value)] else []
  }

  function ConditionLiterals(q: Query): seq<GoValue> {
    JoinLiterals(q.joins) + if q.where.Some? then CondLiterals(q.where.value) else []
  }

  function QueryLiterals(q: Query): seq<GoValue> {
    ConditionLiterals(q) + (CountLiteral(q.limit) + CountLiteral(q.offset))
  }

  function ArgValues(a: Arg): seq<GoValue> {
    match a case IdentArg(_) => [] case ValueArg(v) => [v]
  }

  /** The values in a node tree, left to right. */
  function ExprArgs(e: Expr): seq<GoValue> {
    match e
    case And(l, r) => ExprArgs(l) + ExprArgs(r)
    case Or(l, r) => ExprArgs(l) + ExprArgs(r)
    case Eq(_, a) => ArgValues(a)
    case Neq(_, a) => ArgValues(a)
    case Lt(_, a) => ArgValues(a)
    case Lte(_, a) => ArgValues(a)
    case Gt(_, a) => ArgValues(a)
    case Gte(_, a) => ArgValues(a)
    case InList(_, vals) => vals
    case NotInList(_, vals) => vals
    case LikePattern(_, p) => [p]
    case NotLikePattern(_, p) => [p]
    case NullTest(_) => []
    case NotNullTest(_) => []
    case InRange(_, low, high) => [low, high]
    case NotInRange(_, low, high) => [low, high]
  }

  function JoinArgs(xs: seq<JoinExpr>): seq<GoValue> {
    if xs == [] then [] else ExprArgs(xs[0].on) + JoinArgs(xs[1..])
  }

  /** Every value given to the builder: the ONs left to right, WHERE, LIMIT, OFFSET. */
  function DatasetArgs(ds: Dataset): seq<GoValue> {
    JoinArgs(ds.joins) + (if ds.where.Some? then ExprArgs(ds.where.value) else [])
    + (CountLiteral(ds.limit) + CountLiteral(ds.offset))
  }

  /** Pushing negations down loses, adds and reorders no value. */
  lemma {:induction false} BuildCondKeepsLiterals(c: Condition, negate: bool)
    ensures ExprArgs(BuildCond(c, negate)) == CondLiterals(c)
    decreases c
  {
    match c {
      case Logical(_, l, r) =>
        BuildCondKeepsLiterals(l, negate);
        BuildCondKeepsLiterals(r, negate);
      case Not(d) => BuildCondKeepsLiterals(d, !negate);
      case _ =>
    }
  }

  lemma {:induction false} RewriteKeepsLiterals(
      cat: Catalog, ts: seq<TableRef>, names: seq<string>, c: Condition, d: Condition)
    requires CondRefersTo(cat, ts, names, c, d)
    ensures CondLiterals(d) == CondLiterals(c)
    decreases c
  {
    hide RefersTo;
    match c {
      case Logical(_, l, r) =>
        RewriteKeepsLiterals(cat, ts, names, l, d.left);
        RewriteKeepsLiterals(cat, ts, names, r, d.right);
      case Not(e) => RewriteKeepsLiterals(cat, ts, names, e, d.cond);
      case _ =>
    }
  }

  lemma {:induction false} JoinsKeepLiterals(xs: seq<Join>, ys: seq<Join>)
    requires |xs| == |ys|
    requires forall i :: 0 <= i < |xs| ==> CondLiterals(ys[i].on) == CondLiterals(xs[i].on)
    ensures JoinLiterals(ys) == JoinLiterals(xs)
    decreases |xs|
  {
    if xs != [] {
      JoinsKeepLiterals(xs[1..], ys[1..]);
    }
  }

  lemma {:induction false} JoinArgsAreLiterals(xs: seq<Join>, es: seq<JoinExpr>)
    requires |xs| == |es| && forall i :: 0 <= i < |xs| ==> es[i] == JoinOf(xs[i])
    ensures JoinArgs(es) == JoinLiterals(xs)
    decreases |xs|
  {
    if xs != [] {
      BuildCondKeepsLiterals(xs[0].on, false);
      JoinArgsAreLiterals(xs[1..], es[1..]);
    }
  }

  lemma {:induction false} ResolveKeepsLiterals(cat: Catalog, q: Query, p: Query)
    requires Resolves(cat, q, p)
    ensures QueryLiterals(p) == QueryLiterals(q)
  {
    var ts, names := JoinTables(q), Aliases(q.columns);
    forall i | 0 <= i < |q.joins|
      ensures CondLiterals(p.joins[i].on) == CondLiterals(q.joins[i].on)
    {
      RewriteKeepsLiterals(cat, ts, names, q.joins[i].on, p.joins[i].on);
    }
    JoinsKeepLiterals(q.joins, p.joins);
    if q.where.Some? {
      RewriteKeepsLiterals(cat, ts, names, q.where.value, p.where.value);
    }
  }

  lemma {:induction false} TranslateKeepsLiterals(q: Query, ds: Dataset)
    requires IsDatasetOf(q, ds) && (q.offset.Some? ==> q.limit.Some?)
    ensures DatasetArgs(ds) == QueryLiterals(q)
  {
    JoinArgsAreLiterals(q.joins, ds.joins);
    if q.where.Some? {
      BuildCondKeepsLiterals(q.where.value, false);
    }
  }

  // ---------- Literals of the tokens ----------

  predicate IsLiteral(l: Lexeme) {
    l.TokString? || l.TokNumber? || l == TokKeyword(TRUE) || l == TokKeyword(FALSE) || l == TokKeyword(NULL)
  }

  /** Stands for a number that cannot be read; no value of an accepted query equals it. */
  const UNREADABLE := GoInt64(MAX_INT64 + 1)

  /** The decoded literal at `k`; the NULL of IS [NOT] NULL is none. */
  function LiteralAt(pf: FloatParser, ts: seq<Token>, k: int): seq<GoValue>
    requires 0 <= k < |ts|
  {
    if IsKw(ts, k, NULL) && (IsKw(ts, k - 1, IS) || IsKw(ts, k - 1, NOT)) then []
    else if !IsLiteral(ts[k].lex) then []
    else
      match ValueOf(pf, ts[k].lex)
      case Some(v) => [Go(v)]
      case None => [UNREADABLE]
  }

  /** The decoded literals among the tokens `i..j`, in order. */
  function TokenLiterals(pf: FloatParser, ts: seq<Token>, i: int, j: int): seq<GoValue>
    requires 0 <= i && j <= |ts|
    decreases j - i
  {
    if j <= i then [] else TokenLiterals(pf, ts, i, j - 1) + LiteralAt(pf, ts, j - 1)
  }

  lemma {:induction false} LiteralsSplit(pf: FloatParser, ts: seq<Token>, i: int, k: int, j: int)
    requires 0 <= i <= k <= j <= |ts|
    ensures TokenLiterals(pf, ts, i, j) == TokenLiterals(pf, ts, i, k) + TokenLiterals(pf, ts, k, j)
    decreases j - k
  {
    hide LiteralAt;
    if k < j {
      LiteralsSplit(pf, ts, i, k, j - 1);
    }
  }

  ghost predicate NoLiterals(ts: seq<Token>, i: int, j: int) {
    0 <= i <= j <= |ts| && forall k :: i <= k < j ==> !IsLiteral(ts[k].lex)
  }

  lemma {:induction false} NoLiteralsNone(pf: FloatParser, ts: seq<Token>, i: int, j: int)
    requires NoLiterals(ts, i, j)
    ensures TokenLiterals(pf, ts, i, j) == []
    decreases j - i
  {
    if i < j {
      NoLiteralsNone(pf, ts, i, j - 1);
    }
  }

  lemma {:induction false} ValuesLiterals(pf: FloatParser, ts: seq<Token>, i: int, j: int, vs: seq<Value>)
    requires DValues(pf, ts, i, j, vs)
    requires i > 0 && !IsKw(ts, i - 1, IS) && !IsKw(ts, i - 1, NOT)
    ensures TokenLiterals(pf, ts, i, j) == GoValues(vs)
    decreases |vs|
  {
    hide TokenLiterals, LiteralAt, GoValues, ValueOf;
    LiteralsStep(pf, ts, i, i);
    LiteralValue(pf, ts, i, vs[0]);
    FirstGoValue(vs);
    if |vs| > 1 {
      ValuesLiterals(pf, ts, i + 2, j, vs[1..]);
      LiteralsStep(pf, ts, i, i + 1);
      NoLiteralAt(pf, ts, i + 1);
      LiteralsSplit(pf, ts, i, i + 2, j);
    }
  }

  lemma FirstGoValue(vs: seq<Value>)
    requires vs != []
    ensures GoValues(vs) == [Go(vs[0])] + GoValues(vs[1..])
    ensures |vs| == 1 ==> GoValues(vs) == [Go(vs[0])]
  {
  }

  lemma ColumnNoLiterals(ts: seq<Token>, i: int, j: int, c: Column)
    requires DColumn(ts, i, j, c)
    ensures NoLiterals(ts, i, j)
  {
  }

  /** One token more. */
  lemma LiteralsStep(pf: FloatParser, ts: seq<Token>, i: int, k: int)
    requires 0 <= i <= k < |ts|
    ensures TokenLiterals(pf, ts, i, i) == []
    ensures TokenLiterals(pf, ts, i, k + 1) == TokenLiterals(pf, ts, i, k) + LiteralAt(pf, ts, k)
  {
  }

  /** A token that is a literal, and does not follow IS or NOT. */
  lemma LiteralValue(pf: FloatParser, ts: seq<Token>, k: int, v: Value)
    requires 0 < k < |ts| && ValueOf(pf, ts[k].lex) == Some(v)
    requires !IsKw(ts, k - 1, IS) && !IsKw(ts, k - 1, NOT)
    ensures LiteralAt(pf, ts, k) == [Go(v)]
  {
  }

  lemma NoLiteralAt(pf: FloatParser, ts: seq<Token>, k: int)
    requires 0 <= k < |ts| && !IsLiteral(ts[k].lex)
    ensures LiteralAt(pf, ts, k) == []
  {
  }

  /** A word and one literal. */
  lemma {:induction false} WordThenValue(pf: FloatParser, ts: seq<Token>, k: int, v: Value)
    requires 0 <= k && k + 1 < |ts| && !IsLiteral(ts[k].lex) && ts[k].lex != TokKeyword(IS)
    requires ts[k].lex != TokKeyword(NOT) && ValueOf(pf, ts[k + 1].lex) == Some(v)
    ensures TokenLiterals(pf, ts, k, k + 2) == [Go(v)]
  {
    LiteralsStep(pf, ts, k, k);
    LiteralsStep(pf, ts, k, k + 1);
    NoLiteralAt(pf, ts, k);
    LiteralValue(pf, ts, k + 1, v);
    hide TokenLiterals, LiteralAt, ValueOf;
  }

  lemma {:induction false} NullTestLiterals(pf: FloatParser, ts: seq<Token>, k: int, j: int, c: Condition)
    requires c.IsNull? && DTest(pf, ts, k, j, c)
    ensures TokenLiterals(pf, ts, k, j) == []
  {
    LiteralsStep(pf, ts, k, k);
    LiteralsStep(pf, ts, k, k + 1);
    if c.negate {
      LiteralsStep(pf, ts, k, k + 2);
    }
    hide TokenLiterals;
  }

  lemma {:induction false} TestLiterals(pf: FloatParser, ts: seq<Token>, k: int, j: int, c: Condition)
    requires !c.Logical? && !c.Not? && DTest(pf, ts, k, j, c)
    ensures TokenLiterals(pf, ts, k, j) == CondLiterals(c)
  {
    hide TokenLiterals, LiteralAt, ValueOf;
    match c {
      case Comparison(_, _, ColOperand(right)) =>
        ColumnNoLiterals(ts, k + 1, j, right);
        NoLiteralsNone(pf, ts, k, j);
      case Comparison(_, _, ValOperand(v)) => WordThenValue(pf, ts, k, v);
      case In(_, vals) =>
        ValuesLiterals(pf, ts, k + 2, j - 1, vals);
        NoLiteralsNone(pf, ts, k, k + 2);
        NoLiteralsNone(pf, ts, j - 1, j);
        LiteralsSplit(pf, ts, k, k + 2, j);
        LiteralsSplit(pf, ts, k + 2, j - 1, j);
      case Like(_, pattern) => WordThenValue(pf, ts, k, pattern);
      case IsNull(_, _) => NullTestLiterals(pf, ts, k, j, c);
      case Between(_, low, high) =>
        WordThenValue(pf, ts, k, low);
        WordThenValue(pf, ts, k + 2, high);
        LiteralsSplit(pf, ts, k, k + 2, j);
    }
  }

  lemma {:induction false} PredicateLiterals(pf: FloatParser, ts: seq<Token>, i: int, j: int, c: Condition)
    requires DPredicate(pf, ts, i, j, c)
    ensures TokenLiterals(pf, ts, i, j) == CondLiterals(c)
  {
    var k :| DColumn(ts, i, k, c.col) && DTest(pf, ts, k, j, c);
    ColumnNoLiterals(ts, i, k, c.col);
    NoLiteralsNone(pf, ts, i, k);
    TestLiterals(pf, ts, k, j, c);
    LiteralsSplit(pf, ts, i, k, j);
  }

  /** Left operand, a keyword, right operand. */
  lemma {:induction false} AroundKeyword(pf: FloatParser, ts: seq<Token>, i: int, k: int, j: int)
    requires 0 <= i <= k < j <= |ts| && !IsLiteral(ts[k].lex)
    ensures TokenLiterals(pf, ts, i, j) == TokenLiterals(pf, ts, i, k) + TokenLiterals(pf, ts, k + 1, j)
  {
    hide TokenLiterals, LiteralAt, IsLiteral;
    LiteralsSplit(pf, ts, i, k + 1, j);
    LiteralsStep(pf, ts, i, k);
    NoLiteralAt(pf, ts, k);
  }

  lemma {:induction false} FactorLiterals(pf: FloatParser, ts: seq<Token>, i: int, j: int, c: Condition)
    requires DFactor(pf, ts, i, j, c)
    ensures TokenLiterals(pf, ts, i, j) == CondLiterals(c)
    decreases j - i, 0
  {
    hide TokenLiterals, LiteralAt, CondLiterals, DPredicate, DCondition;
    if DPredicate(pf, ts, i, j, c) {
      PredicateLiterals(pf, ts, i, j, c);
    } else {
      ConditionTokens(pf, ts, i + 1, j - 1, c);
      LiteralsStep(pf, ts, i, i);
      NoLiteralAt(pf, ts, i);
      LiteralsSplit(pf, ts, i, i + 1, j - 1);
      LiteralsStep(pf, ts, i, j - 1);
      NoLiteralAt(pf, ts, j - 1);
    }
  }

  lemma {:induction false} NotFactorLiterals(pf: FloatParser, ts: seq<Token>, i: int, j: int, c: Condition)
    requires DNotFactor(pf, ts, i, j, c)
    ensures TokenLiterals(pf, ts, i, j) == CondLiterals(c)
    decreases j - i, 1
  {
    if DFactor(pf, ts, i, j, c) {
      FactorLiterals(pf, ts, i, j, c);
    } else {
      FactorLiterals(pf, ts, i + 1, j, c.cond);
      AroundKeyword(pf, ts, i, i, j);
    }
  }

  lemma {:induction false} AndTermLiterals(pf: FloatParser, ts: seq<Token>, i: int, j: int, c: Condition)
    requires DAndTerm(pf, ts, i, j, c)
    ensures TokenLiterals(pf, ts, i, j) == CondLiterals(c)
    decreases j - i, 2
  {
    if DNotFactor(pf, ts, i, j, c) {
      NotFactorLiterals(pf, ts, i, j, c);
    } else {
      var k :| i <= k < j && IsKw(ts, k, AND)
        && DAndTerm(pf, ts, i, k, c.left) && DNotFactor(pf, ts, k + 1, j, c.right);
      AndTermLiterals(pf, ts, i, k, c.left);
      NotFactorLiterals(pf, ts, k + 1, j, c.right);
      AroundKeyword(pf, ts, i, k, j);
    }
  }

  lemma {:induction false} ConditionTokens(pf: FloatParser, ts: seq<Token>, i: int, j: int, c: Condition)
    requires DCondition(pf, ts, i, j, c)
    ensures TokenLiterals(pf, ts, i, j) == CondLiterals(c)
    decreases j - i, 3
  {
    if DAndTerm(pf, ts, i, j, c) {
      AndTermLiterals(pf, ts, i, j, c);
    } else {
      var k :| i <= k < j && IsKw(ts, k, OR)
        && DCondition(pf, ts, i, k, c.left) && DAndTerm(pf, ts, k + 1, j, c.right);
      ConditionTokens(pf, ts, i, k, c.left);
      AndTermLiterals(pf, ts, k + 1, j, c.right);
      AroundKeyword(pf, ts, i, k, j);
    }
  }

  lemma {:induction false} SelectBaseNoLiterals(ts: seq<Token>, i: int, j: int, x: SelectItem)
    requires DSelectBase(ts, i, j, x)
    ensures NoLiterals(ts, i, j)
  {
    hide DColumn;
    if x.agg == "" && !x.star && DColumn(ts, i, j, x.column) {
      ColumnNoLiterals(ts, i, j, x.column);
    } else if !x.star {
      ColumnNoLiterals(ts, i + 2, j - 1, x.column);
    }
  }

  lemma {:induction false} SelectItemNoLiterals(ts: seq<Token>, i: int, j: int, x: SelectItem)
    requires DSelectItem(ts, i, j, x)
    ensures NoLiterals(ts, i, j)
  {
    hide DSelectBase;
    SelectBaseNoLiterals(ts, i, if x.alias == "" && DSelectBase(ts, i, j, x) then j else j - 2, x);
  }

  lemma {:induction false} SelectListNoLiterals(ts: seq<Token>, i: int, j: int, xs: seq<SelectItem>)
    requires DSelectList(ts, i, j, xs)
    ensures NoLiterals(ts, i, j)
    decreases |xs|
  {
    hide DSelectItem;
    var k :| DSelectItem(ts, i, k, xs[0]) &&
      if |xs| == 1 then j == k else Is(ts, k, TokComma) && DSelectList(ts, k + 1, j, xs[1..]);
    SelectItemNoLiterals(ts, i, k, xs[0]);
    if |xs| > 1 {
      SelectListNoLiterals(ts, k + 1, j, xs[1..]);
    }
  }

  lemma {:induction false} ColumnsNoLiterals(ts: seq<Token>, i: int, j: int, cs: seq<Column>)
    requires DColumns(ts, i, j, cs)
    ensures NoLiterals(ts, i, j)
    decreases |cs|
  {
    var k :| DColumn(ts, i, k, cs[0]) &&
      if |cs| == 1 then j == k else Is(ts, k, TokComma) && DColumns(ts, k + 1, j, cs[1..]);
    if |cs| > 1 {
      ColumnsNoLiterals(ts, k + 1, j, cs[1..]);
    }
  }

  lemma OrderItemNoLiterals(ts: seq<Token>, i: int, j: int, x: OrderItem)
    requires DOrderItem(ts, i, j, x)
    ensures NoLiterals(ts, i, j)
  {
  }

  lemma {:induction false} OrderItemsNoLiterals(ts: seq<Token>, i: int, j: int, xs: seq<OrderItem>)
    requires DOrderItems(ts, i, j, xs)
    ensures NoLiterals(ts, i, j)
    decreases |xs|
  {
    hide DOrderItem;
    var k :| DOrderItem(ts, i, k, xs[0]) &&
      if |xs| == 1 then j == k else Is(ts, k, TokComma) && DOrderItems(ts, k + 1, j, xs[1..]);
    OrderItemNoLiterals(ts, i, k, xs[0]);
    if |xs| > 1 {
      OrderItemsNoLiterals(ts, k + 1, j, xs[1..]);
    }
  }

  lemma {:induction false} JoinsTokens(pf: FloatParser, ts: seq<Token>, i: int, j: int, xs: seq<Join>)
    requires 0 <= i && j <= |ts| && DJoins(pf, ts, i, j, xs)
    ensures TokenLiterals(pf, ts, i, j) == JoinLiterals(xs)
    decreases |xs|
  {
    if xs != [] {
      var k :| DJoin(pf, ts, i, k, xs[0]) && DJoins(pf, ts, k, j, xs[1..]);
      JoinTokens(pf, ts, i, k, xs[0]);
      JoinsTokens(pf, ts, k, j, xs[1..]);
      LiteralsSplit(pf, ts, i, k, j);
    }
  }

  lemma {:induction false} JoinHeadNoLiterals(
      ts: seq<Token>, i: int, a: int, b: int, kind: JoinType, table: TableRef)
    requires DJoinType(ts, i, a, kind) && DTableRef(ts, a, b, table) && IsKw(ts, b, ON)
    ensures i <= b && NoLiterals(ts, i, b + 1)
  {
    assert forall k :: i <= k < a ==> !IsLiteral(ts[k].lex);
    assert forall k :: a <= k < b ==> !IsLiteral(ts[k].lex);
  }

  lemma {:induction false} JoinTokens(pf: FloatParser, ts: seq<Token>, i: int, j: int, x: Join)
    requires DJoin(pf, ts, i, j, x)
    ensures TokenLiterals(pf, ts, i, j) == CondLiterals(x.on)
  {
    hide DJoinType, DTableRef, DCondition, TokenLiterals, CondLiterals, NoLiterals;
    var a, b :|
      && DJoinType(ts, i, a, x.kind) && DTableRef(ts, a, b, x.table)
      && IsKw(ts, b, ON) && DCondition(pf, ts, b + 1, j, x.on);
    JoinHeadNoLiterals(ts, i, a, b, x.kind, x.table);
    NoLiteralsNone(pf, ts, i, b + 1);
    ConditionTokens(pf, ts, b + 1, j, x.on);
    LiteralsSplit(pf, ts, i, b + 1, j);
  }

  lemma {:induction false} CountToken(pf: FloatParser, ts: seq<Token>, k: int, n: int)
    requires 0 <= k && k + 1 < |ts| && !IsLiteral(ts[k].lex) && ts[k].lex != TokKeyword(IS)
    requires ts[k].lex != TokKeyword(NOT) && DNonNegInt(ts, k + 1, n)
    ensures TokenLiterals(pf, ts, k, k + 2) == [GoInt64(n)]
  {
    ParseNumberOfInt(pf, ts[k + 1].lex.spelling);
    WordThenValue(pf, ts, k, NumberVal(Int64(n)));
  }

  lemma CountWords()
    ensures !IsLiteral(TokKeyword(LIMIT)) && !IsLiteral(TokKeyword(OFFSET))
  {
  }

  lemma {:induction false} LimitTokens(
      pf: FloatParser, ts: seq<Token>, i: int, j: int, limit: Option<int>, offset: Option<int>)
    requires 0 <= i && j <= |ts| && DLimit(ts, i, j, limit, offset)
    ensures TokenLiterals(pf, ts, i, j) == CountLiteral(limit) + CountLiteral(offset)
  {
    hide DNonNegInt, IsLiteral, LiteralAt;
    assert !IsLiteral(TokKeyword(LIMIT)) && !IsLiteral(TokKeyword(OFFSET)) by {
      CountWords();
    }
    if limit.Some? {
      CountToken(pf, ts, i, limit.value);
    }
    if offset.Some? {
      CountToken(pf, ts, i + 2, offset.value);
      LiteralsSplit(pf, ts, i, i + 2, j);
    }
  }

  lemma {:induction false} WhereTokens(pf: FloatParser, ts: seq<Token>, i: int, j: int, w: Option<Condition>)
    requires 0 <= i && j <= |ts| && DWhere(pf, ts, i, j, w)
    ensures TokenLiterals(pf, ts, i, j) == if w.Some? then CondLiterals(w.value) else []
  {
    if w.Some? {
      ConditionTokens(pf, ts, i + 1, j, w.value);
      AroundKeyword(pf, ts, i, i, j);
    }
  }

  lemma {:induction false} HeadNoLiterals(pf: FloatParser, ts: seq<Token>, at: Cuts, j: int, q: Query)
    requires DQueryAt(pf, ts, 0, at, j, q)
    ensures NoLiterals(ts, 0, at.from)
  {
    hide DSelectList, DJoins, DWhere, DGroupBy, DOrderBy, DLimit;
    if !q.star {
      SelectListNoLiterals(ts, 1, at.select, q.columns);
    }
  }

  lemma {:induction false} GroupOrderNoLiterals(
      ts: seq<Token>, i: int, k: int, j: int, cs: seq<Column>, xs: seq<OrderItem>)
    requires 0 <= i && j <= |ts| && DGroupBy(ts, i, k, cs) && DOrderBy(ts, k, j, xs)
    ensures NoLiterals(ts, i, j)
  {
    hide DColumns, DOrderItems;
    if cs != [] {
      ColumnsNoLiterals(ts, i + 2, k, cs);
    }
    if xs != [] {
      OrderItemsNoLiterals(ts, k + 2, j, xs);
    }
  }

  lemma {:induction false} SixPieces(pf: FloatParser, ts: seq<Token>, a: int, b: int, c: int, d: int, e: int)
    requires 0 <= a <= b <= c <= d <= e <= |ts|
    ensures TokenLiterals(pf, ts, 0, |ts|) ==
      TokenLiterals(pf, ts, 0, a) + (TokenLiterals(pf, ts, a, b) + (TokenLiterals(pf, ts, b, c)
        + (TokenLiterals(pf, ts, c, d) + (TokenLiterals(pf, ts, d, e) + TokenLiterals(pf, ts, e, |ts|)))))
  {
    hide TokenLiterals;
    LiteralsSplit(pf, ts, 0, a, |ts|);
    LiteralsSplit(pf, ts, a, b, |ts|);
    LiteralsSplit(pf, ts, b, c, |ts|);
    LiteralsSplit(pf, ts, c, d, |ts|);
    LiteralsSplit(pf, ts, d, e, |ts|);
  }

  lemma {:induction false} ClausesTokens(pf: FloatParser, ts: seq<Token>, at: Cuts, j: int, q: Query)
    requires Stream(ts) && DQueryAt(pf, ts, 0, at, j, q) && j == |ts| - 1
    ensures 0 <= at.from <= at.joins <= at.where <= at.order <= j
    ensures TokenLiterals(pf, ts, at.from, at.joins) == JoinLiterals(q.joins)
    ensures TokenLiterals(pf, ts, at.joins, at.where)
         == if q.where.Some? then CondLiterals(q.where.value) else []
    ensures NoLiterals(ts, at.where, at.order) && NoLiterals(ts, j, |ts|)
    ensures TokenLiterals(pf, ts, at.order, j) == CountLiteral(q.limit) + CountLiteral(q.offset)
  {
    HeadNoLiterals(pf, ts, at, j, q);
    hide DSelect, DJoins, DWhere, DGroupBy, DOrderBy, DLimit, DTableRef, TokenLiterals, NoLiterals;
    assert NoLiterals(ts, j, |ts|) by { LastNoLiteral(ts); }
    assert 0 <= at.from by { FromNonNegative(ts, at.from); }
    JoinsTokens(pf, ts, at.from, at.joins, q.joins);
    WhereTokens(pf, ts, at.joins, at.where, q.where);
    GroupOrderNoLiterals(ts, at.where, at.group, at.order, q.groupBy, q.orderBy);
    LimitTokens(pf, ts, at.order, j, q.limit, q.offset);
  }

  lemma LastNoLiteral(ts: seq<Token>)
    requires Stream(ts)
    ensures NoLiterals(ts, |ts| - 1, |ts|)
  {
  }

  lemma FromNonNegative(ts: seq<Token>, i: int)
    requires NoLiterals(ts, 0, i)
    ensures 0 <= i
  {
  }

  lemma {:induction false} QueryTokensAt(pf: FloatParser, ts: seq<Token>, at: Cuts, q: Query)
    requires Stream(ts) && DQueryAt(pf, ts, 0, at, |ts| - 1, q)
    ensures TokenLiterals(pf, ts, 0, |ts|) == QueryLiterals(q)
  {
    hide DQueryAt, TokenLiterals, NoLiterals, JoinLiterals, CondLiterals, Stream;
    var j := |ts| - 1;
    HeadNoLiterals(pf, ts, at, j, q);
    ClausesTokens(pf, ts, at, j, q);
    NoLiteralsNone(pf, ts, 0, at.from);
    NoLiteralsNone(pf, ts, at.where, at.order);
    NoLiteralsNone(pf, ts, j, |ts|);
    SixPieces(pf, ts, at.from, at.joins, at.where, at.order, j);
  }

  /** The literals among the tokens of a query are the literals of its tree, in order. */
  lemma {:induction false} QueryTokens(pf: FloatParser, ts: seq<Token>, q: Query)
    requires Stream(ts) && Derives(pf, ts, q)
    ensures TokenLiterals(pf, ts, 0, |ts|) == QueryLiterals(q)
  {
    hide DQueryAt, TokenLiterals, QueryLiterals, Stream;
    var at :| DQueryAt(pf, ts, 0, at, |ts| - 1, q);
    QueryTokensAt(pf, ts, at, q);
  }

  // ---------- What the values are ----------

  /** `v` is what the literal `l` stands for, said of its text and the float parser alone. */
  ghost predicate Stands(pf: FloatParser, l: Lexeme, v: GoValue) {
    match l
    case TokString(t) => v == GoString(t)
    case TokNumber(s) =>
      if IsInteger(s) && InInt64(IntegerValue(s)) then v == GoInt64(IntegerValue(s))
      else pf(s).Some? && v == GoFloat64(pf(s).value)
    case TokKeyword(k) =>
      (k == TRUE && v == GoBool(true)) || (k == FALSE && v == GoBool(false)) || (k == NULL && v == GoNil)
    case _ => false
  }

  /** A token is read as a value exactly when it stands for one, and as that one. */
  lemma {:induction false} LiteralStands(pf: FloatParser, l: Lexeme, v: GoValue)
    ensures ValueOf(pf, l).Some? && Go(ValueOf(pf, l).value) == v <==> Stands(pf, l, v)
  {
    hide ParseNumber;
    if l.TokNumber? {
      ParseNumberExactly(pf, l.spelling);
    }
  }

  /** A token is read as a row count exactly when it is a 64-bit integer that is not negative. */
  lemma {:induction false} CountStands(l: Lexeme, n: int)
    ensures NonNegIntOf(l) == Some(n) <==>
      l.TokNumber? && IsInteger(l.spelling) && IntegerValue(l.spelling) == n && 0 <= n <= MAX_INT64
  {
    if l.TokNumber? {
      ParseIntExactly(l.spelling);
    }
  }

  /** A literal token that is bound: not the NULL of IS NULL or IS NOT NULL. */
  ghost predicate IsBound(ts: seq<Token>, k: int) {
    && 0 <= k < |ts| && IsLiteral(ts[k].lex)
    && !(IsKw(ts, k, NULL) && (IsKw(ts, k - 1, IS) || IsKw(ts, k - 1, NOT)))
  }

  /** `at` are the positions of all bound literals before `j`, in order. */
  ghost predicate AreBound(ts: seq<Token>, j: int, at: seq<int>) {
    && (forall i :: 0 <= i < |at| ==> IsBound(ts, at[i]) && at[i] < j)
    && (forall i, m :: 0 <= i < m < |at| ==> at[i] < at[m])
    && forall k :: 0 <= k < j && IsBound(ts, k) ==> k in at
  }

  /** `vs` are the values of the literals at these positions, one for each. */
  ghost predicate StandFor(pf: FloatParser, ts: seq<Token>, at: seq<int>, vs: seq<GoValue>) {
    |vs| == |at| && forall i :: 0 <= i < |at| ==> 0 <= at[i] < |ts| && Stands(pf, ts[at[i]].lex, vs[i])
  }

  /** If every literal can be read, the literals of the tokens are the values they stand for. */
  lemma {:induction false} TokenLiteralsStand(pf: FloatParser, ts: seq<Token>, j: nat) returns (at: seq<int>)
    requires j <= |ts| && UNREADABLE !in TokenLiterals(pf, ts, 0, j)
    ensures AreBound(ts, j, at) && StandFor(pf, ts, at, TokenLiterals(pf, ts, 0, j))
    decreases j
  {
    hide Stands, IsLiteral, IsKw;
    if j == 0 {
      return [];
    }
    var k := j - 1;
    var before := TokenLiterals(pf, ts, 0, k);
    assert TokenLiterals(pf, ts, 0, j) == before + LiteralAt(pf, ts, k);
    at := TokenLiteralsStand(pf, ts, k);
    if IsBound(ts, k) {
      var v := LiteralAt(pf, ts, k)[0];
      assert v in TokenLiterals(pf, ts, 0, j);
      LiteralStands(pf, ts[k].lex, v);
      at := at + [k];
    }
  }

  // ---------- No accepted text has an unreadable number ----------

  lemma {:induction false} ReadableValue(pf: FloatParser, v: Value)
    requires WfValue(pf, v)
    ensures Go(v) != UNREADABLE
  {
    if v.NumberVal? {
      var s :| Denotes(pf, s, v.n);
    }
  }

  lemma {:induction false} ReadableCondition(pf: FloatParser, c: Condition)
    requires WfCondition(pf, c)
    ensures UNREADABLE !in CondLiterals(c)
    decreases c
  {
    match c {
      case Logical(_, l, r) =>
        ReadableCondition(pf, l);
        ReadableCondition(pf, r);
      case Not(d) => ReadableCondition(pf, d);
      case Comparison(_, _, ValOperand(v)) => ReadableValue(pf, v);
      case In(_, vals) =>
        forall i | 0 <= i < |vals|
          ensures GoValues(vals)[i] != UNREADABLE
        {
          ReadableValue(pf, vals[i]);
        }
      case Like(_, pattern) => ReadableValue(pf, pattern);
      case Between(_, low, high) =>
        ReadableValue(pf, low);
        ReadableValue(pf, high);
      case _ =>
    }
  }

  lemma {:induction false} ReadableJoins(pf: FloatParser, xs: seq<Join>)
    requires forall x <- xs :: WfJoin(pf, x)
    ensures UNREADABLE !in JoinLiterals(xs)
    decreases |xs|
  {
    if xs != [] {
      assert WfJoin(pf, xs[0]);
      ReadableCondition(pf, xs[0].on);
      ReadableJoins(pf, xs[1..]);
    }
  }

  lemma {:induction false} ReadableQuery(pf: FloatParser, q: Query)
    requires WfQuery(pf, q)
    ensures UNREADABLE !in QueryLiterals(q)
  {
    hide WfCondition, CondLiterals;
    ReadableJoins(pf, q.joins);
    if q.where.Some? {
      ReadableCondition(pf, q.where.value);
    }
  }
}
