/**
 The invariant of parsed queries: non-empty lists, the seven operators, the five
 aggregates, "*" under COUNT only, string patterns, OFFSET only with LIMIT, names that are
 identifiers, numbers that some literal denotes.  Every accepted source satisfies it.
 */
module WellFormed {
  import opened Common
  import opened Numbers
  import opened Tokens
  import opened Ast
  import opened Grammar
  import opened Tokenisation
  import opened ParseExact
  import Lexer
  import Parser

  ghost predicate ValidName(n: string) {
    WfLexeme(TokIdent(n))
  }

  ghost predicate WfColumn(c: Column) {
    ValidName(c.name) && (c.table == "" || ValidName(c.table))
  }

  /** The spelling `s` is a number literal for `n`. */
  ghost predicate Denotes(pf: FloatParser, s: string, n: Number) {
    NumberSpelling(s) && ParseNumber(pf, s) == Some(n)
  }

  ghost predicate WfValue(pf: FloatParser, v: Value) {
    v.NumberVal? ==> exists s :: Denotes(pf, s, v.n)
  }

  ghost predicate WfCondition(pf: FloatParser, c: Condition) {
    match c
    case Logical(_, l, r) => WfCondition(pf, l) && WfCondition(pf, r)
    case Not(d) => WfCondition(pf, d)
    case Comparison(col, op, ColOperand(right)) =>
      WfColumn(col) && IsOperator(op) && WfColumn(right)
    case Comparison(col, op, ValOperand(v)) =>
      WfColumn(col) && IsOperator(op) && WfValue(pf, v)
    case In(col, vals) => WfColumn(col) && |vals| > 0 && forall v <- vals :: WfValue(pf, v)
    case Like(col, pattern) => WfColumn(col) && pattern.StringVal?
    case IsNull(col, _) => WfColumn(col)
    case Between(col, low, high) => WfColumn(col) && WfValue(pf, low) && WfValue(pf, high)
  }

  ghost predicate IsAggregateName(agg: string) {
    exists k :: IsAggregate(k) && KwText(k) == agg
  }

  ghost predicate WfAlias(a: string) {
    a == "" || ValidName(a)
  }

  ghost predicate WfSelectItem(x: SelectItem) {
    && WfAlias(x.alias)
    && (x.agg == "" || IsAggregateName(x.agg))
    && if x.star then x.agg == "COUNT" && x.column == NO_COLUMN else WfColumn(x.column)
  }

  ghost predicate WfTableRef(t: TableRef) {
    ValidName(t.name) && WfAlias(t.alias)
  }

  ghost predicate WfJoin(pf: FloatParser, x: Join) {
    WfTableRef(x.table) && WfCondition(pf, x.on)
  }

  ghost predicate WfCount(n: Option<int>) {
    n.Some? ==> 0 <= n.value <= MAX_INT64
  }

  ghost predicate WfQuery(pf: FloatParser, q: Query) {
    && (if q.star then q.columns == [] else |q.columns| > 0)
    && (forall x <- q.columns :: WfSelectItem(x))
    && WfTableRef(q.from)
    && (forall x <- q.joins :: WfJoin(pf, x))
    && (q.where.Some? ==> WfCondition(pf, q.where.value))
    && (forall c <- q.groupBy :: WfColumn(c))
    && (forall x <- q.orderBy :: WfColumn(x.column))
    && WfCount(q.limit) && WfCount(q.offset)
    && (q.offset.Some? ==> q.limit.Some?)
  }

  // ---------- Accepted sources satisfy it ----------

  /** Every token but the final EOF is one a source text can contain. */
  ghost predicate WfStream(ts: seq<Token>) {
    Stream(ts) && forall k :: 0 <= k < |ts| - 1 ==> WfLexeme(ts[k].lex)
  }

  lemma DColumnWf(ts: seq<Token>, i: int, j: int, c: Column)
    requires WfStream(ts) && DColumn(ts, i, j, c)
    ensures WfColumn(c)
  {
  }

  lemma {:induction false} DValueWf(pf: FloatParser, ts: seq<Token>, i: int, j: int, v: Value)
    requires WfStream(ts) && DValue(pf, ts, i, j, v)
    ensures WfValue(pf, v)
  {
    if v.NumberVal? {
      assert Denotes(pf, ts[i].lex.spelling, v.n);
    }
  }

  lemma {:induction false} DValuesWf(pf: FloatParser, ts: seq<Token>, i: int, j: int, vs: seq<Value>)
    requires WfStream(ts) && DValues(pf, ts, i, j, vs)
    ensures forall v <- vs :: WfValue(pf, v)
    decreases |vs|
  {
    DValueWf(pf, ts, i, i + 1, vs[0]);
    if |vs| > 1 {
      DValuesWf(pf, ts, i + 2, j, vs[1..]);
    }
  }

  lemma {:induction false} DPredicateWf(pf: FloatParser, ts: seq<Token>, i: int, j: int, c: Condition)
    requires WfStream(ts) && DPredicate(pf, ts, i, j, c)
    ensures WfCondition(pf, c)
  {
    hide DColumn, WfColumn;
    var k :| DColumn(ts, i, k, c.col) && DTest(pf, ts, k, j, c);
    DColumnWf(ts, i, k, c.col);
    match c {
      case Comparison(_, op, ColOperand(right)) =>
        assert WfLexeme(TokOp(op));
        DColumnWf(ts, k + 1, j, right);
      case Comparison(_, op, ValOperand(v)) =>
        assert WfLexeme(TokOp(op));
        DValueWf(pf, ts, k + 1, j, v);
      case In(_, vals) => DValuesWf(pf, ts, k + 2, j - 1, vals);
      case Between(_, low, high) =>
        DValueWf(pf, ts, k + 1, k + 2, low);
        DValueWf(pf, ts, k + 3, j, high);
      case _ =>
    }
  }

  lemma {:induction false} DFactorWf(pf: FloatParser, ts: seq<Token>, i: int, j: int, c: Condition)
    requires WfStream(ts) && DFactor(pf, ts, i, j, c)
    ensures WfCondition(pf, c)
    decreases j - i, 0
  {
    if DPredicate(pf, ts, i, j, c) {
      DPredicateWf(pf, ts, i, j, c);
    } else {
      DConditionWf(pf, ts, i + 1, j - 1, c);
    }
  }

  lemma {:induction false} DNotFactorWf(pf: FloatParser, ts: seq<Token>, i: int, j: int, c: Condition)
    requires WfStream(ts) && DNotFactor(pf, ts, i, j, c)
    ensures WfCondition(pf, c)
    decreases j - i, 1
  {
    if DFactor(pf, ts, i, j, c) {
      DFactorWf(pf, ts, i, j, c);
    } else {
      DFactorWf(pf, ts, i + 1, j, c.cond);
    }
  }

  lemma {:induction false} DAndTermWf(pf: FloatParser, ts: seq<Token>, i: int, j: int, c: Condition)
    requires WfStream(ts) && DAndTerm(pf, ts, i, j, c)
    ensures WfCondition(pf, c)
    decreases j - i, 2
  {
    if DNotFactor(pf, ts, i, j, c) {
      DNotFactorWf(pf, ts, i, j, c);
    } else {
      var k :| i <= k < j && IsKw(ts, k, AND)
        && DAndTerm(pf, ts, i, k, c.left) && DNotFactor(pf, ts, k + 1, j, c.right);
      DAndTermWf(pf, ts, i, k, c.left);
      DNotFactorWf(pf, ts, k + 1, j, c.right);
    }
  }

  lemma {:induction false} DConditionWf(pf: FloatParser, ts: seq<Token>, i: int, j: int, c: Condition)
    requires WfStream(ts) && DCondition(pf, ts, i, j, c)
    ensures WfCondition(pf, c)
    decreases j - i, 3
  {
    if DAndTerm(pf, ts, i, j, c) {
      DAndTermWf(pf, ts, i, j, c);
    } else {
      var k :| i <= k < j && IsKw(ts, k, OR)
        && DCondition(pf, ts, i, k, c.left) && DAndTerm(pf, ts, k + 1, j, c.right);
      DConditionWf(pf, ts, i, k, c.left);
      DAndTermWf(pf, ts, k + 1, j, c.right);
    }
  }

  lemma {:induction false} DSelectItemWf(ts: seq<Token>, i: int, j: int, x: SelectItem)
    requires WfStream(ts) && DSelectItem(ts, i, j, x)
    ensures WfSelectItem(x)
  {
    hide DSelectBase, WfColumn, IsAggregateName;
    if x.alias == "" && DSelectBase(ts, i, j, x) {
      DSelectBaseWf(ts, i, j, x);
    } else {
      assert WfLexeme(ts[j - 1].lex);
      DSelectBaseWf(ts, i, j - 2, x);
    }
  }

  lemma {:induction false} DSelectBaseWf(ts: seq<Token>, i: int, j: int, x: SelectItem)
    requires WfStream(ts) && DSelectBase(ts, i, j, x)
    ensures x.agg == "" || IsAggregateName(x.agg)
    ensures if x.star then x.agg == "COUNT" && x.column == NO_COLUMN else WfColumn(x.column)
  {
    hide WfColumn, DColumn;
    if !x.star {
      if x.agg == "" && DColumn(ts, i, j, x.column) {
        DColumnWf(ts, i, j, x.column);
      } else {
        DColumnWf(ts, i + 2, j - 1, x.column);
      }
    }
  }

  lemma {:induction false} DSelectListWf(ts: seq<Token>, i: int, j: int, xs: seq<SelectItem>)
    requires WfStream(ts) && DSelectList(ts, i, j, xs)
    ensures forall x <- xs :: WfSelectItem(x)
    decreases |xs|
  {
    hide DSelectItem, WfSelectItem;
    var k :| DSelectItem(ts, i, k, xs[0]) &&
      if |xs| == 1 then j == k else Is(ts, k, TokComma) && DSelectList(ts, k + 1, j, xs[1..]);
    DSelectItemWf(ts, i, k, xs[0]);
    if |xs| > 1 {
      DSelectListWf(ts, k + 1, j, xs[1..]);
    }
  }

  lemma {:induction false} DColumnsWf(ts: seq<Token>, i: int, j: int, cs: seq<Column>)
    requires WfStream(ts) && DColumns(ts, i, j, cs)
    ensures forall c <- cs :: WfColumn(c)
    decreases |cs|
  {
    hide WfColumn;
    var k :| DColumn(ts, i, k, cs[0]) &&
      if |cs| == 1 then j == k else Is(ts, k, TokComma) && DColumns(ts, k + 1, j, cs[1..]);
    DColumnWf(ts, i, k, cs[0]);
    if |cs| > 1 {
      DColumnsWf(ts, k + 1, j, cs[1..]);
    }
  }

  lemma {:induction false} DOrderItemsWf(ts: seq<Token>, i: int, j: int, xs: seq<OrderItem>)
    requires WfStream(ts) && DOrderItems(ts, i, j, xs)
    ensures forall x <- xs :: WfColumn(x.column)
    decreases |xs|
  {
    hide WfColumn;
    var k :| DOrderItem(ts, i, k, xs[0]) &&
      if |xs| == 1 then j == k else Is(ts, k, TokComma) && DOrderItems(ts, k + 1, j, xs[1..]);
    DColumnWf(ts, i, if DColumn(ts, i, k, xs[0].column) then k else k - 1, xs[0].column);
    if |xs| > 1 {
      DOrderItemsWf(ts, k + 1, j, xs[1..]);
    }
  }

  lemma DTableRefWf(ts: seq<Token>, i: int, j: int, t: TableRef)
    requires WfStream(ts) && DTableRef(ts, i, j, t)
    ensures WfTableRef(t)
  {
  }

  lemma {:induction false} DJoinsWf(pf: FloatParser, ts: seq<Token>, i: int, j: int, xs: seq<Join>)
    requires WfStream(ts) && DJoins(pf, ts, i, j, xs)
    ensures forall x <- xs :: WfJoin(pf, x)
    decreases |xs|
  {
    hide DTableRef, DJoinType, WfTableRef;
    if xs != [] {
      var k :| DJoin(pf, ts, i, k, xs[0]) && DJoins(pf, ts, k, j, xs[1..]);
      var x := xs[0];
      var a, b :|
        && DJoinType(ts, i, a, x.kind) && DTableRef(ts, a, b, x.table)
        && IsKw(ts, b, ON) && DCondition(pf, ts, b + 1, k, x.on);
      DTableRefWf(ts, a, b, x.table);
      DConditionWf(pf, ts, b + 1, k, x.on);
      DJoinsWf(pf, ts, k, j, xs[1..]);
    }
  }

  lemma DLimitWf(ts: seq<Token>, i: int, j: int, limit: Option<int>, offset: Option<int>)
    requires DLimit(ts, i, j, limit, offset)
    ensures WfCount(limit) && WfCount(offset) && (offset.Some? ==> limit.Some?)
  {
  }

  lemma {:induction false} DerivedWf(pf: FloatParser, ts: seq<Token>, q: Query)
    requires WfStream(ts) && Derives(pf, ts, q)
    ensures WfQuery(pf, q)
  {
    hide DSelectList, DTableRef, DJoins, DCondition, DColumns, DOrderItems, DLimit;
    hide WfSelectItem, WfTableRef, WfJoin, WfCondition, WfColumn, WfCount;
    var at :| DQueryAt(pf, ts, 0, at, |ts| - 1, q);
    if !q.star {
      DSelectListWf(ts, 1, at.select, q.columns);
      assert |q.columns| > 0 by { DSelectListNonEmpty(ts, 1, at.select, q.columns); }
    }
    DTableRefWf(ts, at.select + 1, at.from, q.from);
    DJoinsWf(pf, ts, at.from, at.joins, q.joins);
    if q.where.Some? {
      DConditionWf(pf, ts, at.joins + 1, at.where, q.where.value);
    }
    if q.groupBy != [] {
      DColumnsWf(ts, at.where + 2, at.group, q.groupBy);
    }
    if q.orderBy != [] {
      DOrderItemsWf(ts, at.group + 2, at.order, q.orderBy);
    }
    DLimitWf(ts, at.order, |ts| - 1, q.limit, q.offset);
  }

  lemma DSelectListNonEmpty(ts: seq<Token>, i: int, j: int, xs: seq<SelectItem>)
    requires DSelectList(ts, i, j, xs)
    ensures |xs| > 0
  {
  }

  lemma {:induction false} ScannedIsWf(src: string)
    requires Lexer.Scan(src).Some?
    ensures WfStream(Lexer.Scan(src).value)
  {
    LexExact(src, Lexer.Scan(src).value);
    TokensInOrder(src, 0, Lexer.Scan(src).value);
  }

  /** Whatever is accepted satisfies the invariant. */
  lemma {:induction false} AcceptedIsWf(pf: FloatParser, src: string)
    requires Parser.ParseText(pf, src).Some?
    ensures WfQuery(pf, Parser.ParseText(pf, src).value)
  {
    var ts := Lexer.Scan(src).value;
    ScannedIsWf(src);
    ParseExactly(pf, ts, Parser.ParseText(pf, src).value);
    DerivedWf(pf, ts, Parser.ParseText(pf, src).value);
  }
}
