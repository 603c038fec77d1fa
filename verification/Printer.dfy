/**
 Printing a query back to source text, with parentheses only where the grammar needs
 them, and the round trip: what is printed parses to the very same query.
 */
module Printer {
  import opened Common
  import opened Chars
  import opened Numbers
  import opened Tokens
  import opened Ast
  import opened Grammar
  import opened WellFormed
  import Tokenisation
  import ParseExact
  import Lexer
  import Parser

  // ---------- Printing to lexemes ----------

  function PrintColumn(c: Column): seq<Lexeme> {
    if c.table == "" then [TokIdent(c.name)] else [TokIdent(c.table), TokDot, TokIdent(c.name)]
  }

  /** Any literal for the number; a float has many. */
  ghost function NumberText(pf: FloatParser, n: Number): (s: string)
    requires exists s :: Denotes(pf, s, n)
    ensures Denotes(pf, s, n)
  {
    var s :| Denotes(pf, s, n);
    s
  }

  ghost function PrintValue(pf: FloatParser, v: Value): Lexeme
    requires WfValue(pf, v)
  {
    match v
    case StringVal(s) => TokString(s)
    case NumberVal(n) => TokNumber(NumberText(pf, n))
    case BoolVal(b) => TokKeyword(if b then TRUE else FALSE)
    case NullVal => TokKeyword(NULL)
  }

  ghost function PrintValues(pf: FloatParser, vs: seq<Value>): seq<Lexeme>
    requires |vs| > 0 && forall v <- vs :: WfValue(pf, v)
  {
    [PrintValue(pf, vs[0])] + if |vs| == 1 then [] else [TokComma] + PrintValues(pf, vs[1..])
  }

  /** What follows the column of a predicate. */
  ghost function PrintTest(pf: FloatParser, c: Condition): seq<Lexeme>
    requires WfCondition(pf, c) && !c.Logical? && !c.Not?
  {
    match c
    case Comparison(_, op, ColOperand(right)) => [TokOp(op)] + PrintColumn(right)
    case Comparison(_, op, ValOperand(v)) => [TokOp(op), PrintValue(pf, v)]
    case In(_, vals) =>
      [TokKeyword(IN), TokLParen] + PrintValues(pf, vals) + [TokRParen]
    case Like(_, pattern) => [TokKeyword(LIKE), TokString(pattern.s)]
    case IsNull(_, negate) =>
      if negate then [TokKeyword(IS), TokKeyword(NOT), TokKeyword(NULL)]
      else [TokKeyword(IS), TokKeyword(NULL)]
    case Between(_, low, high) =>
      [TokKeyword(BETWEEN), PrintValue(pf, low), TokKeyword(AND), PrintValue(pf, high)]
  }

  function Paren(wrap: bool, w: seq<Lexeme>): seq<Lexeme> {
    if wrap then [TokLParen] + w + [TokRParen] else w
  }

  /** The productions a printed condition may stand for, from loosest to tightest. */
  datatype Level = OrLevel | AndLevel | NotLevel | FactorLevel

  ghost function PrintCondition(pf: FloatParser, c: Condition, at: Level): seq<Lexeme>
    requires WfCondition(pf, c)
    decreases c
  {
    match c
    case Logical(OpOr, l, r) =>
      Paren(at != OrLevel,
        PrintCondition(pf, l, OrLevel) + [TokKeyword(OR)] + PrintCondition(pf, r, AndLevel))
    case Logical(OpAnd, l, r) =>
      Paren(at == NotLevel || at == FactorLevel,
        PrintCondition(pf, l, AndLevel) + [TokKeyword(AND)] + PrintCondition(pf, r, NotLevel))
    case Not(d) =>
      Paren(at == FactorLevel, [TokKeyword(NOT)] + PrintCondition(pf, d, FactorLevel))
    case _ => PrintColumn(c.col) + PrintTest(pf, c)
  }

  function PrintAlias(a: string): seq<Lexeme> {
    if a == "" then [] else [TokKeyword(AS), TokIdent(a)]
  }

  ghost function AggregateKw(agg: string): (k: Kw)
    requires IsAggregateName(agg)
    ensures IsAggregate(k) && KwText(k) == agg
  {
    var k :| IsAggregate(k) && KwText(k) == agg;
    k
  }

  ghost function PrintSelectBase(x: SelectItem): seq<Lexeme>
    requires WfSelectItem(x)
  {
    if x.agg == "" then PrintColumn(x.column)
    else [TokKeyword(AggregateKw(x.agg)), TokLParen]
         + (if x.star then [TokStar] else PrintColumn(x.column)) + [TokRParen]
  }

  ghost function PrintSelectItem(x: SelectItem): seq<Lexeme>
    requires WfSelectItem(x)
  {
    PrintSelectBase(x) + PrintAlias(x.alias)
  }

  ghost function PrintSelectList(xs: seq<SelectItem>): seq<Lexeme>
    requires |xs| > 0 && forall x <- xs :: WfSelectItem(x)
  {
    PrintSelectItem(xs[0]) + if |xs| == 1 then [] else [TokComma] + PrintSelectList(xs[1..])
  }

  function PrintTableRef(t: TableRef): seq<Lexeme> {
    [TokIdent(t.name)] + PrintAlias(t.alias)
  }

  function PrintJoinType(k: JoinType): seq<Lexeme> {
    match k
    case InnerJoin => [TokKeyword(JOIN)]
    case LeftJoin => [TokKeyword(LEFT), TokKeyword(JOIN)]
    case RightJoin => [TokKeyword(RIGHT), TokKeyword(JOIN)]
  }

  ghost function PrintJoin(pf: FloatParser, x: Join): seq<Lexeme>
    requires WfJoin(pf, x)
  {
    PrintJoinType(x.kind)
    + (PrintTableRef(x.table) + ([TokKeyword(ON)] + PrintCondition(pf, x.on, OrLevel)))
  }

  ghost function PrintJoins(pf: FloatParser, xs: seq<Join>): seq<Lexeme>
    requires forall x <- xs :: WfJoin(pf, x)
  {
    if xs == [] then [] else assert xs[0] in xs; PrintJoin(pf, xs[0]) + PrintJoins(pf, xs[1..])
  }

  ghost function PrintWhere(pf: FloatParser, w: Option<Condition>): seq<Lexeme>
    requires w.Some? ==> WfCondition(pf, w.value)
  {
    if w.None? then [] else [TokKeyword(WHERE)] + PrintCondition(pf, w.value, OrLevel)
  }

  function PrintColumns(cs: seq<Column>): seq<Lexeme>
    requires |cs| > 0
  {
    PrintColumn(cs[0]) + if |cs| == 1 then [] else [TokComma] + PrintColumns(cs[1..])
  }

  function PrintGroupBy(cs: seq<Column>): seq<Lexeme> {
    if cs == [] then [] else [TokKeyword(GROUP), TokKeyword(BY)] + PrintColumns(cs)
  }

  function PrintOrderItem(x: OrderItem): seq<Lexeme> {
    PrintColumn(x.column) + [TokKeyword(if x.desc then DESC else ASC)]
  }

  function PrintOrderItems(xs: seq<OrderItem>): seq<Lexeme>
    requires |xs| > 0
  {
    PrintOrderItem(xs[0]) + if |xs| == 1 then [] else [TokComma] + PrintOrderItems(xs[1..])
  }

  function PrintOrderBy(xs: seq<OrderItem>): seq<Lexeme> {
    if xs == [] then [] else [TokKeyword(ORDER), TokKeyword(BY)] + PrintOrderItems(xs)
  }

  function PrintCount(k: Kw, n: Option<int>): seq<Lexeme>
    requires WfCount(n)
  {
    if n.None? then [] else [TokKeyword(k), TokNumber(NatText(n.value))]
  }

  ghost function PrintSelect(q: Query): seq<Lexeme>
    requires if q.star then q.columns == [] else |q.columns| > 0
    requires forall x <- q.columns :: WfSelectItem(x)
  {
    if q.star then [TokStar] else PrintSelectList(q.columns)
  }

  ghost function PrintQuery(pf: FloatParser, q: Query): seq<Lexeme>
    requires WfQuery(pf, q)
  {
    [TokKeyword(SELECT)] + PrintSelect(q)
    + ([TokKeyword(FROM)] + PrintTableRef(q.from)
       + (PrintJoins(pf, q.joins)
          + (PrintWhere(pf, q.where)
             + (PrintGroupBy(q.groupBy)
                + (PrintOrderBy(q.orderBy)
                   + (PrintCount(LIMIT, q.limit) + PrintCount(OFFSET, q.offset)))))))
  }

  /** The printed source text. */
  ghost function PrintText(pf: FloatParser, q: Query): string
    requires WfQuery(pf, q)
  {
    Tokenisation.Render(PrintQuery(pf, q))
  }

  // ---------- What is printed is derived ----------

  /** The tokens `i..j` are the lexemes `w`. */
  ghost predicate Matches(ts: seq<Token>, i: int, j: int, w: seq<Lexeme>) {
    0 <= i <= j <= |ts| && j - i == |w| && forall k :: 0 <= k < |w| ==> ts[i + k].lex == w[k]
  }

  lemma {:induction false} MatchesSplit(ts: seq<Token>, i: int, j: int, a: seq<Lexeme>, b: seq<Lexeme>)
    requires Matches(ts, i, j, a + b)
    ensures Matches(ts, i, i + |a|, a) && Matches(ts, i + |a|, j, b)
  {
    forall k | 0 <= k < |a|
      ensures ts[i + k].lex == a[k]
    {
      assert (a + b)[k] == a[k];
    }
    forall k | 0 <= k < |b|
      ensures ts[i + |a| + k].lex == b[k]
    {
      assert (a + b)[|a| + k] == b[k];
    }
  }

  lemma {:induction false} ColumnDerives(ts: seq<Token>, i: int, j: int, c: Column)
    requires Matches(ts, i, j, PrintColumn(c)) && WfColumn(c)
    ensures DColumn(ts, i, j, c)
  {
    var w := PrintColumn(c);
    assert ts[i].lex == w[0];
    if |w| == 3 {
      assert ts[i + 1].lex == w[1] && ts[i + 2].lex == w[2];
    }
  }

  lemma ValueDerives(pf: FloatParser, ts: seq<Token>, i: int, v: Value)
    requires WfValue(pf, v) && Is(ts, i, PrintValue(pf, v))
    ensures DValue(pf, ts, i, i + 1, v)
  {
  }

  lemma {:induction false} ValuesDerive(pf: FloatParser, ts: seq<Token>, i: int, j: int, vs: seq<Value>)
    requires |vs| > 0 && forall v <- vs :: WfValue(pf, v)
    requires Matches(ts, i, j, PrintValues(pf, vs))
    ensures DValues(pf, ts, i, j, vs)
    decreases |vs|
  {
    var w := PrintValues(pf, vs);
    assert ts[i].lex == w[0];
    ValueDerives(pf, ts, i, vs[0]);
    if |vs| > 1 {
      assert ts[i + 1].lex == w[1];
      assert w == [PrintValue(pf, vs[0]), TokComma] + PrintValues(pf, vs[1..]);
      MatchesSplit(ts, i, j, [PrintValue(pf, vs[0]), TokComma], PrintValues(pf, vs[1..]));
      ValuesDerive(pf, ts, i + 2, j, vs[1..]);
    }
  }

  lemma {:induction false} TestDerives(pf: FloatParser, ts: seq<Token>, k: int, j: int, c: Condition)
    requires WfCondition(pf, c) && !c.Logical? && !c.Not?
    requires Matches(ts, k, j, PrintTest(pf, c))
    ensures DTest(pf, ts, k, j, c)
  {
    var w := PrintTest(pf, c);
    assert ts[k].lex == w[0] && ts[k + 1].lex == w[1];
    match c {
      case Comparison(_, op, ColOperand(right)) =>
        MatchesSplit(ts, k, j, [TokOp(op)], PrintColumn(right));
        ColumnDerives(ts, k + 1, j, right);
      case Comparison(_, _, ValOperand(v)) =>
        ValueDerives(pf, ts, k + 1, v);
      case In(_, vals) =>
        var open := [TokKeyword(IN), TokLParen];
        MatchesSplit(ts, k, j, open + PrintValues(pf, vals), [TokRParen]);
        MatchesSplit(ts, k, j - 1, open, PrintValues(pf, vals));
        assert ts[j - 1].lex == [TokRParen][0];
        ValuesDerive(pf, ts, k + 2, j - 1, vals);
      case Like(_, pattern) =>
      case IsNull(_, negate) =>
        if negate {
          assert ts[k + 2].lex == w[2];
        }
      case Between(_, low, high) =>
        assert ts[k + 2].lex == w[2] && ts[k + 3].lex == w[3];
        ValueDerives(pf, ts, k + 1, low);
        ValueDerives(pf, ts, k + 3, high);
    }
  }

  ghost predicate DAt(pf: FloatParser, ts: seq<Token>, i: int, j: int, c: Condition, at: Level) {
    match at
    case OrLevel => DCondition(pf, ts, i, j, c)
    case AndLevel => DAndTerm(pf, ts, i, j, c)
    case NotLevel => DNotFactor(pf, ts, i, j, c)
    case FactorLevel => DFactor(pf, ts, i, j, c)
  }

  /** Every production contains the tighter ones. */
  lemma TighterIsLooser(pf: FloatParser, ts: seq<Token>, i: int, j: int, c: Condition)
    ensures DFactor(pf, ts, i, j, c) ==> DNotFactor(pf, ts, i, j, c)
    ensures DNotFactor(pf, ts, i, j, c) ==> DAndTerm(pf, ts, i, j, c)
    ensures DAndTerm(pf, ts, i, j, c) ==> DCondition(pf, ts, i, j, c)
  {
  }

  lemma {:induction false} ParenDerives(pf: FloatParser, ts: seq<Token>, i: int, j: int, c: Condition, w: seq<Lexeme>)
    requires Matches(ts, i, j, Paren(true, w)) && DCondition(pf, ts, i + 1, j - 1, c)
    ensures DFactor(pf, ts, i, j, c)
  {
    assert ts[i].lex == Paren(true, w)[0];
    assert ts[i + (j - i - 1)].lex == Paren(true, w)[j - i - 1];
  }

  lemma {:induction false} ParenMatches(ts: seq<Token>, i: int, j: int, w: seq<Lexeme>)
    requires Matches(ts, i, j, Paren(true, w))
    ensures Matches(ts, i + 1, j - 1, w)
  {
    MatchesSplit(ts, i, j, [TokLParen] + w, [TokRParen]);
    MatchesSplit(ts, i, j - 1, [TokLParen], w);
  }

  lemma {:induction false} WrappedDerives(
      pf: FloatParser, ts: seq<Token>, i: int, j: int, c: Condition, w: seq<Lexeme>, own: Level)
    requires Matches(ts, i, j, Paren(true, w)) && DAt(pf, ts, i + 1, j - 1, c, own)
    ensures DFactor(pf, ts, i, j, c)
  {
    TighterIsLooser(pf, ts, i + 1, j - 1, c);
    ParenDerives(pf, ts, i, j, c, w);
  }

  lemma {:induction false} PredicateDerives(pf: FloatParser, ts: seq<Token>, i: int, j: int, c: Condition)
    requires WfCondition(pf, c) && !c.Logical? && !c.Not?
    requires Matches(ts, i, j, PrintColumn(c.col) + PrintTest(pf, c))
    ensures DPredicate(pf, ts, i, j, c)
  {
    hide DColumn, DTest;
    var k := i + |PrintColumn(c.col)|;
    MatchesSplit(ts, i, j, PrintColumn(c.col), PrintTest(pf, c));
    ColumnDerives(ts, i, k, c.col);
    TestDerives(pf, ts, k, j, c);
  }

  lemma {:induction false} ConditionDerives(
      pf: FloatParser, ts: seq<Token>, i: int, j: int, c: Condition, at: Level)
    requires WfCondition(pf, c) && Matches(ts, i, j, PrintCondition(pf, c, at))
    ensures DAt(pf, ts, i, j, c, at)
    decreases c, 1
  {
    hide DCondition, DAndTerm, DNotFactor, DFactor, Matches;
    TighterIsLooser(pf, ts, i, j, c);
    match c {
      case Logical(op, l, r) =>
        var own := if op == OpOr then OrLevel else AndLevel;
        var w := PrintCondition(pf, c, own);
        if at == own || (at == OrLevel && own == AndLevel) {
          LogicalDerives(pf, ts, i, j, c);
        } else {
          ParenMatches(ts, i, j, w);
          LogicalDerives(pf, ts, i + 1, j - 1, c);
          WrappedDerives(pf, ts, i, j, c, w, own);
        }
      case Not(d) =>
        var w := PrintCondition(pf, c, NotLevel);
        if at != FactorLevel {
          NotDerives(pf, ts, i, j, c);
        } else {
          ParenMatches(ts, i, j, w);
          NotDerives(pf, ts, i + 1, j - 1, c);
          WrappedDerives(pf, ts, i, j, c, w, NotLevel);
        }
      case _ =>
        PredicateDerives(pf, ts, i, j, c);
        PredicateIsFactor(pf, ts, i, j, c);
    }
  }

  lemma PredicateIsFactor(pf: FloatParser, ts: seq<Token>, i: int, j: int, c: Condition)
    requires DPredicate(pf, ts, i, j, c)
    ensures DFactor(pf, ts, i, j, c)
  {
  }

  lemma {:induction false} LogicalDerives(pf: FloatParser, ts: seq<Token>, i: int, j: int, c: Condition)
    requires WfCondition(pf, c) && c.Logical?
    requires Matches(ts, i, j, PrintCondition(pf, c, if c.op == OpOr then OrLevel else AndLevel))
    ensures DAt(pf, ts, i, j, c, if c.op == OpOr then OrLevel else AndLevel)
    decreases c, 0
  {
    var (lo, hi, kw) := if c.op == OpOr then (OrLevel, AndLevel, OR) else (AndLevel, NotLevel, AND);
    var left, right := PrintCondition(pf, c.left, lo), PrintCondition(pf, c.right, hi);
    var k := i + |left|;
    MatchesSplit(ts, i, j, left + [TokKeyword(kw)], right);
    MatchesSplit(ts, i, k + 1, left, [TokKeyword(kw)]);
    assert ts[k + 0].lex == [TokKeyword(kw)][0];
    ConditionDerives(pf, ts, i, k, c.left, lo);
    ConditionDerives(pf, ts, k + 1, j, c.right, hi);
  }

  lemma {:induction false} NotDerives(pf: FloatParser, ts: seq<Token>, i: int, j: int, c: Condition)
    requires WfCondition(pf, c) && c.Not? && Matches(ts, i, j, PrintCondition(pf, c, NotLevel))
    ensures DNotFactor(pf, ts, i, j, c)
    decreases c, 0
  {
    var w := PrintCondition(pf, c.cond, FactorLevel);
    MatchesSplit(ts, i, j, [TokKeyword(NOT)], w);
    assert ts[i + 0].lex == [TokKeyword(NOT)][0];
    ConditionDerives(pf, ts, i + 1, j, c.cond, FactorLevel);
  }

  // ---------- Clauses ----------

  lemma {:induction false} AliasMatches(ts: seq<Token>, i: int, j: int, a: string)
    requires Matches(ts, i, j, PrintAlias(a))
    ensures if a == "" then j == i else j == i + 2 && IsKw(ts, i, AS) && Is(ts, i + 1, TokIdent(a))
  {
    var w := PrintAlias(a);
    if a != "" {
      assert ts[i + 0].lex == w[0] && ts[i + 1].lex == w[1];
    }
  }

  lemma {:induction false} SelectBaseDerives(ts: seq<Token>, i: int, j: int, x: SelectItem)
    requires WfSelectItem(x) && Matches(ts, i, j, PrintSelectBase(x))
    ensures DSelectBase(ts, i, j, x)
  {
    if x.agg == "" {
      ColumnDerives(ts, i, j, x.column);
    } else {
      var open := [TokKeyword(AggregateKw(x.agg)), TokLParen];
      var arg := if x.star then [TokStar] else PrintColumn(x.column);
      MatchesSplit(ts, i, j, open + arg, [TokRParen]);
      MatchesSplit(ts, i, j - 1, open, arg);
      assert ts[i + 0].lex == open[0] && ts[i + 1].lex == open[1];
      assert ts[j - 1 + 0].lex == [TokRParen][0];
      hide Matches;
      if x.star {
        assert ts[i + 2 + 0].lex == arg[0];
        assert KwText(AggregateKw(x.agg)) == KwText(COUNT);
        KwTextInjective(AggregateKw(x.agg), COUNT);
      } else {
        ColumnDerives(ts, i + 2, j - 1, x.column);
      }
    }
  }

  lemma {:induction false} SelectItemDerives(ts: seq<Token>, i: int, j: int, x: SelectItem)
    requires WfSelectItem(x) && Matches(ts, i, j, PrintSelectItem(x))
    ensures DSelectItem(ts, i, j, x)
  {
    hide DSelectBase, PrintSelectBase, WfSelectItem;
    var base := PrintSelectBase(x);
    MatchesSplit(ts, i, j, base, PrintAlias(x.alias));
    SelectBaseDerives(ts, i, i + |base|, x);
    AliasMatches(ts, i + |base|, j, x.alias);
  }

  /** A printed list is its first item and, if there is more, a comma and the rest. */
  lemma {:induction false} ListMatches(ts: seq<Token>, i: int, j: int, item: seq<Lexeme>, more: bool, rest: seq<Lexeme>)
    requires Matches(ts, i, j, item + if more then [TokComma] + rest else [])
    ensures Matches(ts, i, i + |item|, item)
    ensures if more then Is(ts, i + |item|, TokComma) && Matches(ts, i + |item| + 1, j, rest)
            else j == i + |item|
  {
    var k := i + |item|;
    MatchesSplit(ts, i, j, item, if more then [TokComma] + rest else []);
    if more {
      MatchesSplit(ts, k, j, [TokComma], rest);
      assert ts[k + 0].lex == [TokComma][0];
    }
  }

  lemma {:induction false} SelectListDerives(ts: seq<Token>, i: int, j: int, xs: seq<SelectItem>)
    requires |xs| > 0 && (forall x <- xs :: WfSelectItem(x)) && Matches(ts, i, j, PrintSelectList(xs))
    ensures DSelectList(ts, i, j, xs)
    decreases |xs|
  {
    hide DSelectItem, WfSelectItem, PrintSelectItem, Matches;
    var k := i + |PrintSelectItem(xs[0])|;
    assert xs[0] in xs;
    ListMatches(ts, i, j, PrintSelectItem(xs[0]), |xs| > 1, if |xs| > 1 then PrintSelectList(xs[1..]) else []);
    SelectItemDerives(ts, i, k, xs[0]);
    if |xs| > 1 {
      SelectListDerives(ts, k + 1, j, xs[1..]);
    }
  }

  lemma {:induction false} ColumnsDerive(ts: seq<Token>, i: int, j: int, cs: seq<Column>)
    requires |cs| > 0 && (forall c <- cs :: WfColumn(c)) && Matches(ts, i, j, PrintColumns(cs))
    ensures DColumns(ts, i, j, cs)
    decreases |cs|
  {
    hide DColumn, WfColumn, PrintColumn, Matches;
    var k := i + |PrintColumn(cs[0])|;
    ListMatches(ts, i, j, PrintColumn(cs[0]), |cs| > 1, if |cs| > 1 then PrintColumns(cs[1..]) else []);
    ColumnDerives(ts, i, k, cs[0]);
    if |cs| > 1 {
      ColumnsDerive(ts, k + 1, j, cs[1..]);
    }
  }

  lemma {:induction false} OrderItemDerives(ts: seq<Token>, i: int, j: int, x: OrderItem)
    requires WfColumn(x.column) && Matches(ts, i, j, PrintOrderItem(x))
    ensures DOrderItem(ts, i, j, x)
  {
    var dir := [TokKeyword(if x.desc then DESC else ASC)];
    MatchesSplit(ts, i, j, PrintColumn(x.column), dir);
    assert ts[j - 1 + 0].lex == dir[0];
    ColumnDerives(ts, i, j - 1, x.column);
  }

  lemma {:induction false} OrderItemsDerive(ts: seq<Token>, i: int, j: int, xs: seq<OrderItem>)
    requires |xs| > 0 && (forall x <- xs :: WfColumn(x.column)) && Matches(ts, i, j, PrintOrderItems(xs))
    ensures DOrderItems(ts, i, j, xs)
    decreases |xs|
  {
    hide DOrderItem, WfColumn, PrintOrderItem, Matches;
    var k := i + |PrintOrderItem(xs[0])|;
    ListMatches(ts, i, j, PrintOrderItem(xs[0]), |xs| > 1, if |xs| > 1 then PrintOrderItems(xs[1..]) else []);
    OrderItemDerives(ts, i, k, xs[0]);
    if |xs| > 1 {
      OrderItemsDerive(ts, k + 1, j, xs[1..]);
    }
  }

  lemma {:induction false} TableRefDerives(ts: seq<Token>, i: int, j: int, t: TableRef)
    requires WfTableRef(t) && Matches(ts, i, j, PrintTableRef(t))
    ensures DTableRef(ts, i, j, t)
  {
    MatchesSplit(ts, i, j, [TokIdent(t.name)], PrintAlias(t.alias));
    assert ts[i + 0].lex == [TokIdent(t.name)][0];
    AliasMatches(ts, i + 1, j, t.alias);
  }

  lemma {:induction false} JoinTypeDerives(ts: seq<Token>, i: int, j: int, k: JoinType)
    requires Matches(ts, i, j, PrintJoinType(k))
    ensures DJoinType(ts, i, j, k)
  {
    var w := PrintJoinType(k);
    assert ts[i + 0].lex == w[0];
    assert |w| == 2 ==> ts[i + 1].lex == w[1];
  }

  lemma {:induction false} JoinDerives(pf: FloatParser, ts: seq<Token>, i: int, j: int, x: Join)
    requires WfJoin(pf, x) && Matches(ts, i, j, PrintJoin(pf, x))
    ensures DJoin(pf, ts, i, j, x)
  {
    hide DJoinType, DTableRef, DCondition, WfTableRef, WfCondition;
    var kind, table := PrintJoinType(x.kind), PrintTableRef(x.table);
    var on, cond := [TokKeyword(ON)], PrintCondition(pf, x.on, OrLevel);
    var a := i + |kind|;
    var b := a + |table|;
    MatchesSplit(ts, i, j, kind, table + (on + cond));
    MatchesSplit(ts, a, j, table, on + cond);
    MatchesSplit(ts, b, j, on, cond);
    assert ts[b + 0].lex == on[0];
    JoinTypeDerives(ts, i, a, x.kind);
    TableRefDerives(ts, a, b, x.table);
    ConditionDerives(pf, ts, b + 1, j, x.on, OrLevel);
  }

  lemma {:induction false} JoinsDerive(pf: FloatParser, ts: seq<Token>, i: int, j: int, xs: seq<Join>)
    requires (forall x <- xs :: WfJoin(pf, x)) && Matches(ts, i, j, PrintJoins(pf, xs))
    ensures DJoins(pf, ts, i, j, xs)
    decreases |xs|
  {
    hide DJoin, WfJoin, PrintJoin;
    if xs != [] {
      assert xs[0] in xs;
      var k := i + |PrintJoin(pf, xs[0])|;
      MatchesSplit(ts, i, j, PrintJoin(pf, xs[0]), PrintJoins(pf, xs[1..]));
      JoinDerives(pf, ts, i, k, xs[0]);
      JoinsDerive(pf, ts, k, j, xs[1..]);
    }
  }

  lemma {:induction false} WhereDerives(pf: FloatParser, ts: seq<Token>, i: int, j: int, w: Option<Condition>)
    requires (w.Some? ==> WfCondition(pf, w.value)) && Matches(ts, i, j, PrintWhere(pf, w))
    ensures DWhere(pf, ts, i, j, w)
  {
    if w.Some? {
      MatchesSplit(ts, i, j, [TokKeyword(WHERE)], PrintCondition(pf, w.value, OrLevel));
      assert ts[i + 0].lex == [TokKeyword(WHERE)][0];
      ConditionDerives(pf, ts, i + 1, j, w.value, OrLevel);
    }
  }

  lemma {:induction false} TwoKws(ts: seq<Token>, i: int, j: int, a: Kw, b: Kw, rest: seq<Lexeme>)
    requires Matches(ts, i, j, [TokKeyword(a), TokKeyword(b)] + rest)
    ensures IsKw(ts, i, a) && IsKw(ts, i + 1, b) && Matches(ts, i + 2, j, rest)
  {
    var w := [TokKeyword(a), TokKeyword(b)];
    MatchesSplit(ts, i, j, w, rest);
    assert ts[i + 0].lex == w[0] && ts[i + 1].lex == w[1];
  }

  lemma {:induction false} GroupByDerives(ts: seq<Token>, i: int, j: int, cs: seq<Column>)
    requires (forall c <- cs :: WfColumn(c)) && Matches(ts, i, j, PrintGroupBy(cs))
    ensures DGroupBy(ts, i, j, cs)
  {
    if cs != [] {
      TwoKws(ts, i, j, GROUP, BY, PrintColumns(cs));
      ColumnsDerive(ts, i + 2, j, cs);
    }
  }

  lemma {:induction false} OrderByDerives(ts: seq<Token>, i: int, j: int, xs: seq<OrderItem>)
    requires (forall x <- xs :: WfColumn(x.column)) && Matches(ts, i, j, PrintOrderBy(xs))
    ensures DOrderBy(ts, i, j, xs)
  {
    if xs != [] {
      TwoKws(ts, i, j, ORDER, BY, PrintOrderItems(xs));
      OrderItemsDerive(ts, i + 2, j, xs);
    }
  }

  lemma {:induction false} CountDerives(ts: seq<Token>, i: int, j: int, k: Kw, n: Option<int>)
    requires WfCount(n) && Matches(ts, i, j, PrintCount(k, n))
    ensures if n.None? then j == i else j == i + 2 && IsKw(ts, i, k) && DNonNegInt(ts, i + 1, n.value)
  {
    if n.Some? {
      var w := PrintCount(k, n);
      assert ts[i + 0].lex == w[0] && ts[i + 1].lex == w[1];
      ParseIntOfIntText(n.value);
    }
  }

  lemma {:induction false} LimitDerives(ts: seq<Token>, i: int, j: int, limit: Option<int>, offset: Option<int>)
    requires WfCount(limit) && WfCount(offset) && (offset.Some? ==> limit.Some?)
    requires Matches(ts, i, j, PrintCount(LIMIT, limit) + PrintCount(OFFSET, offset))
    ensures DLimit(ts, i, j, limit, offset)
  {
    var k := i + |PrintCount(LIMIT, limit)|;
    MatchesSplit(ts, i, j, PrintCount(LIMIT, limit), PrintCount(OFFSET, offset));
    CountDerives(ts, i, k, LIMIT, limit);
    CountDerives(ts, k, j, OFFSET, offset);
  }

  lemma {:induction false} SelectDerives(ts: seq<Token>, i: int, j: int, q: Query)
    requires if q.star then q.columns == [] else |q.columns| > 0
    requires (forall x <- q.columns :: WfSelectItem(x)) && Matches(ts, i, j, PrintSelect(q))
    ensures DSelect(ts, i, j, q.star, q.columns)
  {
    if q.star {
      assert ts[i + 0].lex == [TokStar][0];
    } else {
      SelectListDerives(ts, i, j, q.columns);
    }
  }

  lemma {:induction false} QueryDerives(pf: FloatParser, ts: seq<Token>, q: Query)
    requires WfQuery(pf, q) && Stream(ts) && Matches(ts, 0, |ts| - 1, PrintQuery(pf, q))
    ensures Derives(pf, ts, q)
  {
    hide DSelect, DTableRef, DJoins, DWhere, DGroupBy, DOrderBy, DLimit, Matches;
    hide PrintSelect, PrintTableRef, PrintJoins, PrintWhere, PrintGroupBy, PrintOrderBy, PrintCount;
    hide WfSelectItem, WfTableRef, WfJoin, WfCondition, WfColumn, WfCount;
    var j := |ts| - 1;
    var limit := PrintCount(LIMIT, q.limit) + PrintCount(OFFSET, q.offset);
    var order := PrintOrderBy(q.orderBy) + limit;
    var group := PrintGroupBy(q.groupBy) + order;
    var where := PrintWhere(pf, q.where) + group;
    var joins := PrintJoins(pf, q.joins) + where;
    var select, from := [TokKeyword(SELECT)] + PrintSelect(q), [TokKeyword(FROM)] + PrintTableRef(q.from);
    MatchesSplit(ts, 0, j, select, from + joins);
    var a := |select|;
    FirstKw(ts, 0, a, SELECT, PrintSelect(q));
    SelectDerives(ts, 1, a, q);
    MatchesSplit(ts, a, j, from, joins);
    var b := a + |from|;
    FirstKw(ts, a, b, FROM, PrintTableRef(q.from));
    TableRefDerives(ts, a + 1, b, q.from);
    MatchesSplit(ts, b, j, PrintJoins(pf, q.joins), where);
    var c := b + |PrintJoins(pf, q.joins)|;
    JoinsDerive(pf, ts, b, c, q.joins);
    MatchesSplit(ts, c, j, PrintWhere(pf, q.where), group);
    var d := c + |PrintWhere(pf, q.where)|;
    WhereDerives(pf, ts, c, d, q.where);
    MatchesSplit(ts, d, j, PrintGroupBy(q.groupBy), order);
    var e := d + |PrintGroupBy(q.groupBy)|;
    GroupByDerives(ts, d, e, q.groupBy);
    MatchesSplit(ts, e, j, PrintOrderBy(q.orderBy), limit);
    var f := e + |PrintOrderBy(q.orderBy)|;
    OrderByDerives(ts, e, f, q.orderBy);
    LimitDerives(ts, f, j, q.limit, q.offset);
    assert DQueryAt(pf, ts, 0, Cuts(a, b, c, d, e, f), j, q);
  }

  lemma {:induction false} FirstKw(ts: seq<Token>, i: int, j: int, k: Kw, rest: seq<Lexeme>)
    requires Matches(ts, i, j, [TokKeyword(k)] + rest)
    ensures IsKw(ts, i, k) && Matches(ts, i + 1, j, rest)
  {
    MatchesSplit(ts, i, j, [TokKeyword(k)], rest);
    assert ts[i + 0].lex == [TokKeyword(k)][0];
  }

  // ---------- What is printed can be scanned ----------

  ghost predicate Scannable(w: seq<Lexeme>) {
    forall l <- w :: Tokenisation.WfLexeme(l)
  }

  lemma {:induction false} NatTextIsSpelling(n: nat)
    ensures Tokenisation.NumberSpelling(NatText(n))
  {
    var s := NatText(n);
    assert IsDigit(s[0]);
    assert Lexer.SignEnd(s, 0) == 0;
    assert Tokenisation.Mantissa(s, 0, |s|, |s|) && Tokenisation.Exponent(s, |s|, |s|);
  }

  /** Every int64 has a literal, so every integer value is well-formed. */
  lemma {:induction false} Int64IsWf(pf: FloatParser, v: int)
    requires InInt64(v)
    ensures WfValue(pf, NumberVal(Int64(v)))
  {
    ParseIntOfIntText(v);
    ParseNumberOfInt(pf, IntText(v));
    if v < 0 {
      var s, d := IntText(v), NatText(-v);
      assert s[1..] == d;
      assert forall k :: 1 <= k < |s| ==> s[k] == d[k - 1];
      assert Lexer.SignEnd(s, 0) == 1;
      assert Tokenisation.Mantissa(s, 0, |s|, |s|) && Tokenisation.Exponent(s, |s|, |s|);
    } else {
      NatTextIsSpelling(v);
    }
    assert Denotes(pf, IntText(v), Int64(v));
  }

  lemma {:induction false} ValuesScannable(pf: FloatParser, vs: seq<Value>)
    requires |vs| > 0 && forall v <- vs :: WfValue(pf, v)
    ensures Scannable(PrintValues(pf, vs))
    decreases |vs|
  {
    ValueScannable(pf, vs[0]);
    if |vs| > 1 {
      ValuesScannable(pf, vs[1..]);
    }
  }

  lemma ValueScannable(pf: FloatParser, v: Value)
    requires WfValue(pf, v)
    ensures Tokenisation.WfLexeme(PrintValue(pf, v))
  {
  }

  lemma {:induction false} TestScannable(pf: FloatParser, c: Condition)
    requires WfCondition(pf, c) && !c.Logical? && !c.Not?
    ensures Scannable(PrintTest(pf, c))
  {
    match c {
      case Comparison(_, _, ValOperand(v)) => ValueScannable(pf, v);
      case In(_, vals) => ValuesScannable(pf, vals);
      case Between(_, low, high) =>
        ValueScannable(pf, low);
        ValueScannable(pf, high);
      case _ =>
    }
  }

  lemma {:induction false} ConditionScannable(pf: FloatParser, c: Condition, at: Level)
    requires WfCondition(pf, c)
    ensures Scannable(PrintCondition(pf, c, at))
    decreases c
  {
    hide PrintColumn, PrintTest, Tokenisation.WfLexeme;
    WordsScannable();
    match c {
      case Logical(op, l, r) =>
        ConditionScannable(pf, l, if op == OpOr then OrLevel else AndLevel);
        ConditionScannable(pf, r, if op == OpOr then AndLevel else NotLevel);
      case Not(d) => ConditionScannable(pf, d, FactorLevel);
      case _ =>
        ColumnScannable(c.col);
        TestScannable(pf, c);
    }
  }

  lemma ColumnScannable(c: Column)
    requires WfColumn(c)
    ensures Scannable(PrintColumn(c))
  {
  }

  lemma {:induction false} SelectListScannable(xs: seq<SelectItem>)
    requires |xs| > 0 && forall x <- xs :: WfSelectItem(x)
    ensures Scannable(PrintSelectList(xs))
    decreases |xs|
  {
    hide WfSelectItem, PrintSelectItem;
    SelectItemScannable(xs[0]);
    if |xs| > 1 {
      SelectListScannable(xs[1..]);
    }
  }

  lemma WordsScannable()
    ensures forall k :: Tokenisation.WfLexeme(TokKeyword(k))
    ensures Tokenisation.WfLexeme(TokLParen) && Tokenisation.WfLexeme(TokRParen)
    ensures Tokenisation.WfLexeme(TokStar)
  {
  }

  lemma {:induction false} SelectItemScannable(x: SelectItem)
    requires WfSelectItem(x)
    ensures Scannable(PrintSelectItem(x))
  {
    hide PrintColumn, IsAggregateName, Tokenisation.WfLexeme, Scannable;
    SelectBaseScannable(x);
    AliasScannable(x.alias);
    ScannableAppend(PrintSelectBase(x), PrintAlias(x.alias));
  }

  lemma {:induction false} SelectBaseScannable(x: SelectItem)
    requires WfSelectItem(x)
    ensures Scannable(PrintSelectBase(x))
  {
    hide PrintColumn, IsAggregateName, Tokenisation.WfLexeme;
    WordsScannable();
    if !x.star {
      ColumnScannable(x.column);
    }
  }

  lemma AliasScannable(alias: string)
    requires WfAlias(alias)
    ensures Scannable(PrintAlias(alias))
  {
  }

  lemma {:induction false} JoinsScannable(pf: FloatParser, xs: seq<Join>)
    requires forall x <- xs :: WfJoin(pf, x)
    ensures Scannable(PrintJoins(pf, xs))
    decreases |xs|
  {
    if xs != [] {
      var x := xs[0];
      assert WfJoin(pf, x);
      ConditionScannable(pf, x.on, OrLevel);
      assert Scannable(PrintJoin(pf, x));
      JoinsScannable(pf, xs[1..]);
    }
  }

  lemma {:induction false} ColumnsScannable(cs: seq<Column>)
    requires |cs| > 0 && forall c <- cs :: WfColumn(c)
    ensures Scannable(PrintColumns(cs))
    decreases |cs|
  {
    assert cs[0] in cs;
    assert Scannable(PrintColumn(cs[0]));
    if |cs| > 1 {
      ColumnsScannable(cs[1..]);
    }
  }

  lemma {:induction false} OrderItemsScannable(xs: seq<OrderItem>)
    requires |xs| > 0 && forall x <- xs :: WfColumn(x.column)
    ensures Scannable(PrintOrderItems(xs))
    decreases |xs|
  {
    assert xs[0] in xs;
    assert Scannable(PrintOrderItem(xs[0]));
    if |xs| > 1 {
      OrderItemsScannable(xs[1..]);
    }
  }

  lemma ScannableAppend(a: seq<Lexeme>, b: seq<Lexeme>)
    requires Scannable(a) && Scannable(b)
    ensures Scannable(a + b)
  {
  }

  lemma {:induction false} CountScannable(k: Kw, n: Option<int>)
    requires WfCount(n)
    ensures Scannable(PrintCount(k, n))
  {
    if n.Some? {
      NatTextIsSpelling(n.value);
    }
  }

  lemma {:induction false} TailScannable(pf: FloatParser, q: Query)
    requires WfQuery(pf, q)
    ensures Scannable(PrintWhere(pf, q.where))
    ensures Scannable(PrintGroupBy(q.groupBy))
    ensures Scannable(PrintOrderBy(q.orderBy))
    ensures Scannable(PrintCount(LIMIT, q.limit) + PrintCount(OFFSET, q.offset))
  {
    if q.where.Some? {
      ConditionScannable(pf, q.where.value, OrLevel);
    }
    if q.groupBy != [] {
      ColumnsScannable(q.groupBy);
    }
    if q.orderBy != [] {
      OrderItemsScannable(q.orderBy);
    }
    CountScannable(LIMIT, q.limit);
    CountScannable(OFFSET, q.offset);
  }

  lemma {:induction false} HeadScannable(pf: FloatParser, q: Query)
    requires WfQuery(pf, q)
    ensures Scannable([TokKeyword(SELECT)] + PrintSelect(q))
    ensures Scannable([TokKeyword(FROM)] + PrintTableRef(q.from))
    ensures Scannable(PrintJoins(pf, q.joins))
  {
    hide PrintSelectList, PrintJoins, WfSelectItem, WfJoin;
    if !q.star {
      SelectListScannable(q.columns);
    }
    JoinsScannable(pf, q.joins);
  }

  lemma {:induction false} QueryScannable(pf: FloatParser, q: Query)
    requires WfQuery(pf, q)
    ensures Scannable(PrintQuery(pf, q))
  {
    hide PrintSelect, PrintTableRef, PrintJoins, PrintWhere, PrintGroupBy, PrintOrderBy, PrintCount;
    hide Scannable;
    HeadScannable(pf, q);
    TailScannable(pf, q);
    var limit := PrintCount(LIMIT, q.limit) + PrintCount(OFFSET, q.offset);
    var order := PrintOrderBy(q.orderBy) + limit;
    ScannableAppend(PrintOrderBy(q.orderBy), limit);
    var group := PrintGroupBy(q.groupBy) + order;
    ScannableAppend(PrintGroupBy(q.groupBy), order);
    var where := PrintWhere(pf, q.where) + group;
    ScannableAppend(PrintWhere(pf, q.where), group);
    var joins := PrintJoins(pf, q.joins) + where;
    ScannableAppend(PrintJoins(pf, q.joins), where);
    var from := [TokKeyword(FROM)] + PrintTableRef(q.from);
    ScannableAppend(from, joins);
    ScannableAppend([TokKeyword(SELECT)] + PrintSelect(q), from + joins);
  }

  // ---------- The round trip ----------

  /** Printing any well-formed query and parsing the text gives the same query. */
  lemma {:induction false} PrintThenParse(pf: FloatParser, q: Query)
    requires WfQuery(pf, q)
    ensures Parser.ParseText(pf, PrintText(pf, q)) == Some(q)
  {
    hide WfQuery, PrintQuery;
    var w := PrintQuery(pf, q);
    QueryScannable(pf, q);
    Tokenisation.ScanRender(w);
    var ts := Tokenisation.RenderTokens(w, 0);
    Parser.ScannedStream(Tokenisation.Render(w));
    assert forall k :: 0 <= k < |w| ==> ts[0 + k].lex == Tokenisation.Lexemes(ts)[k] == w[k];
    assert Matches(ts, 0, |ts| - 1, w);
    QueryDerives(pf, ts, q);
    ParseExact.ParseExactly(pf, ts, q);
  }

  /** Different queries are printed differently. */
  lemma {:induction false} PrintInjective(pf: FloatParser, p: Query, q: Query)
    requires WfQuery(pf, p) && WfQuery(pf, q) && PrintText(pf, p) == PrintText(pf, q)
    ensures p == q
  {
    PrintThenParse(pf, p);
    PrintThenParse(pf, q);
  }

  /** Every accepted source has a printed form that parses to the same query. */
  lemma {:induction false} AcceptedReparses(pf: FloatParser, src: string)
    requires Parser.ParseText(pf, src).Some?
    ensures var q := Parser.ParseText(pf, src).value;
            WfQuery(pf, q) && Parser.ParseText(pf, PrintText(pf, q)) == Some(q)
  {
    AcceptedIsWf(pf, src);
    PrintThenParse(pf, Parser.ParseText(pf, src).value);
  }
}
