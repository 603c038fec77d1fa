/**
 The parser accepts a token stream with result `q` exactly when the grammar derives `q`.
 Each construct has a sound half (what is parsed is derived) and a complete half (what is
 derived, up to a token that cannot continue it, is parsed).
 */
module ParseExact {
  import opened Common
  import opened Numbers
  import opened Tokens
  import opened Ast
  import opened Grammar
  import opened ParseFns

  // ---------- Columns and values ----------

  lemma ColumnExact(ts: seq<Token>, i: nat, j: nat, c: Column)
    requires Stream(ts) && i < |ts|
    ensures ParseColumn(ts, i) == Ok(c, j) ==> DColumn(ts, i, j, c)
    ensures DColumn(ts, i, j, c) && !Is(ts, j, TokDot) ==> ParseColumn(ts, i) == Ok(c, j)
  {
  }

  lemma {:induction false} ValuesSound(pf: FloatParser, ts: seq<Token>, acc: seq<Value>, i: nat)
    requires Stream(ts) && i < |ts| && ParseValues(pf, ts, acc, i).Ok?
    ensures var Ok(vs, j) := ParseValues(pf, ts, acc, i);
            acc <= vs && DValues(pf, ts, i, j, vs[|acc|..])
    decreases |ts| - i
  {
    var Ok(v, k) := ParseValue(pf, ts, i);
    var Ok(vs, j) := ParseValues(pf, ts, acc, i);
    if Is(ts, k, TokComma) {
      ValuesSound(pf, ts, acc + [v], k + 1);
      assert vs[|acc|..][1..] == vs[|acc + [v]|..];
    }
  }

  lemma {:induction false} ValuesComplete(
      pf: FloatParser, ts: seq<Token>, acc: seq<Value>, i: nat, j: nat, vs: seq<Value>)
    requires Stream(ts) && i < |ts| && DValues(pf, ts, i, j, vs) && !Is(ts, j, TokComma)
    ensures ParseValues(pf, ts, acc, i) == Ok(acc + vs, j)
    decreases |vs|
  {
    if |vs| == 1 {
      assert vs == [vs[0]];
    } else {
      ValuesComplete(pf, ts, acc + [vs[0]], i + 2, j, vs[1..]);
      assert acc + [vs[0]] + vs[1..] == acc + vs;
    }
  }

  lemma {:induction false} ColumnsSound(ts: seq<Token>, acc: seq<Column>, i: nat)
    requires Stream(ts) && i < |ts| && ParseColumns(ts, acc, i).Ok?
    ensures var Ok(cs, j) := ParseColumns(ts, acc, i);
            acc <= cs && DColumns(ts, i, j, cs[|acc|..])
    decreases |ts| - i
  {
    var Ok(c, k) := ParseColumn(ts, i);
    var Ok(cs, j) := ParseColumns(ts, acc, i);
    ColumnExact(ts, i, k, c);
    if Is(ts, k, TokComma) {
      ColumnsSound(ts, acc + [c], k + 1);
      assert cs[|acc|..][1..] == cs[|acc + [c]|..];
    }
    assert DColumn(ts, i, k, cs[|acc|..][0]);
  }

  lemma {:induction false} ColumnsComplete(
      ts: seq<Token>, acc: seq<Column>, i: nat, j: nat, cs: seq<Column>)
    requires Stream(ts) && i < |ts| && DColumns(ts, i, j, cs)
    requires !Is(ts, j, TokComma) && !Is(ts, j, TokDot)
    ensures ParseColumns(ts, acc, i) == Ok(acc + cs, j)
    decreases |cs|
  {
    var k :| DColumn(ts, i, k, cs[0]) &&
      if |cs| == 1 then j == k else Is(ts, k, TokComma) && DColumns(ts, k + 1, j, cs[1..]);
    ColumnExact(ts, i, k, cs[0]);
    if |cs| == 1 {
      assert cs == [cs[0]];
    } else {
      ColumnsComplete(ts, acc + [cs[0]], k + 1, j, cs[1..]);
      assert acc + [cs[0]] + cs[1..] == acc + cs;
    }
  }

  // ---------- Conditions ----------

  lemma {:induction false} TestSound(pf: FloatParser, ts: seq<Token>, col: Column, k: nat)
    requires Stream(ts) && k < |ts| && ParseTest(pf, ts, col, k).Ok?
    ensures var Ok(c, j) := ParseTest(pf, ts, col, k);
            !c.Logical? && !c.Not? && c.col == col && DTest(pf, ts, k, j, c)
  {
    var Ok(c, j) := ParseTest(pf, ts, col, k);
    match c {
      case Comparison(_, _, ColOperand(right)) => ColumnExact(ts, k + 1, j, right);
      case In(_, vals) =>
        ValuesSound(pf, ts, [], k + 2);
        assert vals[0..] == vals;
      case _ =>
    }
  }

  lemma {:induction false} TestComplete(pf: FloatParser, ts: seq<Token>, k: nat, j: nat, c: Condition)
    requires Stream(ts) && k < |ts| && !c.Logical? && !c.Not? && DTest(pf, ts, k, j, c)
    requires !Is(ts, j, TokDot)
    ensures ParseTest(pf, ts, c.col, k) == Ok(c, j)
  {
    hide ParseColumn, ParseValues, DValues;
    match c {
      case Comparison(_, _, ColOperand(right)) => ColumnExact(ts, k + 1, j, right);
      case In(_, vals) =>
        ValuesComplete(pf, ts, [], k + 2, j - 1, vals);
        assert [] + vals == vals;
      case _ =>
    }
  }

  lemma {:induction false} PredicateSound(pf: FloatParser, ts: seq<Token>, i: nat)
    requires Stream(ts) && i < |ts| && ParsePredicate(pf, ts, i).Ok?
    ensures var Ok(c, j) := ParsePredicate(pf, ts, i); DPredicate(pf, ts, i, j, c)
  {
    var Ok(col, k) := ParseColumn(ts, i);
    ColumnExact(ts, i, k, col);
    TestSound(pf, ts, col, k);
  }

  lemma {:induction false} PredicateComplete(pf: FloatParser, ts: seq<Token>, i: nat, j: nat, c: Condition)
    requires Stream(ts) && i < |ts| && DPredicate(pf, ts, i, j, c) && !Is(ts, j, TokDot)
    ensures IsIdent(ts, i) && ParsePredicate(pf, ts, i) == Ok(c, j)
  {
    var k :| DColumn(ts, i, k, c.col) && DTest(pf, ts, k, j, c);
    ColumnExact(ts, i, k, c.col);
    TestComplete(pf, ts, k, j, c);
  }

  lemma {:induction false} ConditionSound(pf: FloatParser, ts: seq<Token>, i: nat)
    requires Stream(ts) && i < |ts| && ParseCondition(pf, ts, i).Ok?
    ensures var Ok(c, j) := ParseCondition(pf, ts, i); DCondition(pf, ts, i, j, c)
    decreases |ts| - i, 4
  {
    var Ok(left, k) := ParseAndTerm(pf, ts, i);
    AndTermSound(pf, ts, i);
    OrLoopSound(pf, ts, left, i, k);
  }

  lemma {:induction false} OrLoopSound(
      pf: FloatParser, ts: seq<Token>, left: Condition, i: nat, k: nat)
    requires Stream(ts) && i < k < |ts|
    requires DCondition(pf, ts, i, k, left) && OrLoop(pf, ts, left, k).Ok?
    ensures var Ok(c, j) := OrLoop(pf, ts, left, k); DCondition(pf, ts, i, j, c)
    decreases |ts| - k, 0
  {
    if IsKw(ts, k, OR) {
      var Ok(right, m) := ParseAndTerm(pf, ts, k + 1);
      AndTermSound(pf, ts, k + 1);
      OrLoopSound(pf, ts, Logical(OpOr, left, right), i, m);
    }
  }

  lemma {:induction false} AndTermSound(pf: FloatParser, ts: seq<Token>, i: nat)
    requires Stream(ts) && i < |ts| && ParseAndTerm(pf, ts, i).Ok?
    ensures var Ok(c, j) := ParseAndTerm(pf, ts, i); DAndTerm(pf, ts, i, j, c)
    decreases |ts| - i, 3
  {
    var Ok(left, k) := ParseNotFactor(pf, ts, i);
    NotFactorSound(pf, ts, i);
    AndLoopSound(pf, ts, left, i, k);
  }

  lemma {:induction false} AndLoopSound(
      pf: FloatParser, ts: seq<Token>, left: Condition, i: nat, k: nat)
    requires Stream(ts) && i < k < |ts|
    requires DAndTerm(pf, ts, i, k, left) && AndLoop(pf, ts, left, k).Ok?
    ensures var Ok(c, j) := AndLoop(pf, ts, left, k); DAndTerm(pf, ts, i, j, c)
    decreases |ts| - k, 0
  {
    if IsKw(ts, k, AND) {
      var Ok(right, m) := ParseNotFactor(pf, ts, k + 1);
      NotFactorSound(pf, ts, k + 1);
      AndLoopSound(pf, ts, Logical(OpAnd, left, right), i, m);
    }
  }

  lemma {:induction false} NotFactorSound(pf: FloatParser, ts: seq<Token>, i: nat)
    requires Stream(ts) && i < |ts| && ParseNotFactor(pf, ts, i).Ok?
    ensures var Ok(c, j) := ParseNotFactor(pf, ts, i); DNotFactor(pf, ts, i, j, c)
    decreases |ts| - i, 2
  {
    FactorSound(pf, ts, if IsKw(ts, i, NOT) then i + 1 else i);
  }

  lemma {:induction false} FactorSound(pf: FloatParser, ts: seq<Token>, i: nat)
    requires Stream(ts) && i < |ts| && ParseFactor(pf, ts, i).Ok?
    ensures var Ok(c, j) := ParseFactor(pf, ts, i); DFactor(pf, ts, i, j, c)
    decreases |ts| - i, 1
  {
    if Is(ts, i, TokLParen) {
      ConditionSound(pf, ts, i + 1);
    } else {
      PredicateSound(pf, ts, i);
    }
  }

  /** A derived condition is what the OR loop holds when it stands at the condition's end. */
  lemma {:induction false} OrSpine(pf: FloatParser, ts: seq<Token>, i: nat, j: nat, c: Condition)
    requires Stream(ts) && i < |ts| && j < |ts| && DCondition(pf, ts, i, j, c)
    requires !Is(ts, j, TokDot) && !IsKw(ts, j, AND)
    ensures ParseAndTerm(pf, ts, i).Ok?
    ensures var Ok(first, m) := ParseAndTerm(pf, ts, i);
            OrLoop(pf, ts, first, m) == OrLoop(pf, ts, c, j)
    decreases j - i, 3
  {
    if DAndTerm(pf, ts, i, j, c) {
      AndTermComplete(pf, ts, i, j, c);
    } else {
      var k :| i <= k < j && IsKw(ts, k, OR)
        && DCondition(pf, ts, i, k, c.left) && DAndTerm(pf, ts, k + 1, j, c.right);
      OrSpine(pf, ts, i, k, c.left);
      AndTermComplete(pf, ts, k + 1, j, c.right);
    }
  }

  lemma {:induction false} ConditionComplete(pf: FloatParser, ts: seq<Token>, i: nat, j: nat, c: Condition)
    requires Stream(ts) && i < |ts| && j < |ts| && DCondition(pf, ts, i, j, c)
    requires !Is(ts, j, TokDot) && !IsKw(ts, j, AND) && !IsKw(ts, j, OR)
    ensures ParseCondition(pf, ts, i) == Ok(c, j)
    decreases j - i, 4
  {
    OrSpine(pf, ts, i, j, c);
  }

  lemma {:induction false} AndSpine(pf: FloatParser, ts: seq<Token>, i: nat, j: nat, c: Condition)
    requires Stream(ts) && i < |ts| && j < |ts| && DAndTerm(pf, ts, i, j, c)
    requires !Is(ts, j, TokDot)
    ensures ParseNotFactor(pf, ts, i).Ok?
    ensures var Ok(first, m) := ParseNotFactor(pf, ts, i);
            AndLoop(pf, ts, first, m) == AndLoop(pf, ts, c, j)
    decreases j - i, 1
  {
    if DNotFactor(pf, ts, i, j, c) {
      NotFactorComplete(pf, ts, i, j, c);
    } else {
      var k :| i <= k < j && IsKw(ts, k, AND)
        && DAndTerm(pf, ts, i, k, c.left) && DNotFactor(pf, ts, k + 1, j, c.right);
      AndSpine(pf, ts, i, k, c.left);
      NotFactorComplete(pf, ts, k + 1, j, c.right);
    }
  }

  lemma {:induction false} AndTermComplete(pf: FloatParser, ts: seq<Token>, i: nat, j: nat, c: Condition)
    requires Stream(ts) && i < |ts| && j < |ts| && DAndTerm(pf, ts, i, j, c)
    requires !Is(ts, j, TokDot) && !IsKw(ts, j, AND)
    ensures ParseAndTerm(pf, ts, i) == Ok(c, j)
    decreases j - i, 2
  {
    AndSpine(pf, ts, i, j, c);
  }

  lemma {:induction false} NotFactorComplete(pf: FloatParser, ts: seq<Token>, i: nat, j: nat, c: Condition)
    requires Stream(ts) && i < |ts| && j < |ts| && DNotFactor(pf, ts, i, j, c)
    requires !Is(ts, j, TokDot)
    ensures ParseNotFactor(pf, ts, i) == Ok(c, j)
    decreases j - i, 0, 1
  {
    if DFactor(pf, ts, i, j, c) {
      FactorComplete(pf, ts, i, j, c);
    } else {
      FactorComplete(pf, ts, i + 1, j, c.cond);
    }
  }

  lemma {:induction false} FactorComplete(pf: FloatParser, ts: seq<Token>, i: nat, j: nat, c: Condition)
    requires Stream(ts) && i < |ts| && j < |ts| && DFactor(pf, ts, i, j, c)
    requires !Is(ts, j, TokDot)
    ensures ParseFactor(pf, ts, i) == Ok(c, j) && !IsKw(ts, i, NOT)
    decreases j - i, 0, 0
  {
    if DPredicate(pf, ts, i, j, c) {
      PredicateComplete(pf, ts, i, j, c);
    } else {
      ConditionComplete(pf, ts, i + 1, j - 1, c);
    }
  }

  // ---------- Clauses ----------

  lemma {:induction false} SelectItemSound(ts: seq<Token>, i: nat)
    requires Stream(ts) && i < |ts| && ParseSelectItem(ts, i).Ok?
    ensures var Ok(x, j) := ParseSelectItem(ts, i); DSelectItem(ts, i, j, x)
  {
    var Ok(base, k) := ParseSelectBase(ts, i);
    var Ok(x, _) := ParseSelectItem(ts, i);
    assert DSelectBase(ts, i, k, base) && DSelectBase(ts, i, k, x);
  }

  lemma SelectBaseComplete(ts: seq<Token>, i: nat, j: nat, x: SelectItem)
    requires Stream(ts) && i < |ts| && DSelectBase(ts, i, j, x) && !Is(ts, j, TokDot)
    ensures ParseSelectBase(ts, i) == Ok(x.(alias := ""), j) && !Is(ts, i, TokStar)
  {
  }

  lemma {:induction false} SelectItemComplete(ts: seq<Token>, i: nat, j: nat, x: SelectItem)
    requires Stream(ts) && i < |ts| && DSelectItem(ts, i, j, x)
    requires !Is(ts, j, TokDot) && !IsKw(ts, j, AS)
    ensures ParseSelectItem(ts, i) == Ok(x, j) && !Is(ts, i, TokStar)
  {
    hide ParseSelectBase;
    var k := if DSelectBase(ts, i, j, x) && x.alias == "" then j else j - 2;
    SelectBaseComplete(ts, i, k, x);
  }

  lemma {:induction false} SelectListSound(ts: seq<Token>, acc: seq<SelectItem>, i: nat)
    requires Stream(ts) && i < |ts| && ParseSelectList(ts, acc, i).Ok?
    ensures var Ok(xs, j) := ParseSelectList(ts, acc, i);
            acc <= xs && DSelectList(ts, i, j, xs[|acc|..])
    decreases |ts| - i
  {
    hide ParseSelectItem, DSelectItem;
    var Ok(x, k) := ParseSelectItem(ts, i);
    var Ok(xs, j) := ParseSelectList(ts, acc, i);
    SelectItemSound(ts, i);
    if Is(ts, k, TokComma) {
      SelectListSound(ts, acc + [x], k + 1);
      assert xs[|acc|..][1..] == xs[|acc + [x]|..];
    }
    assert DSelectItem(ts, i, k, xs[|acc|..][0]);
  }

  lemma {:induction false} SelectListComplete(
      ts: seq<Token>, acc: seq<SelectItem>, i: nat, j: nat, xs: seq<SelectItem>)
    requires Stream(ts) && i < |ts| && DSelectList(ts, i, j, xs) && IsKw(ts, j, FROM)
    ensures ParseSelectList(ts, acc, i) == Ok(acc + xs, j) && !Is(ts, i, TokStar)
    decreases |xs|
  {
    hide ParseSelectItem, DSelectItem;
    var k :| DSelectItem(ts, i, k, xs[0]) &&
      if |xs| == 1 then j == k else Is(ts, k, TokComma) && DSelectList(ts, k + 1, j, xs[1..]);
    SelectItemComplete(ts, i, k, xs[0]);
    if |xs| == 1 {
      assert xs == [xs[0]];
    } else {
      SelectListComplete(ts, acc + [xs[0]], k + 1, j, xs[1..]);
      assert acc + [xs[0]] + xs[1..] == acc + xs;
    }
  }

  lemma {:induction false} SelectExact(ts: seq<Token>, i: nat, j: nat, star: bool, xs: seq<SelectItem>)
    requires Stream(ts) && i < |ts|
    ensures ParseSelect(ts, i) == Ok((star, xs), j) ==> DSelect(ts, i, j, star, xs)
    ensures DSelect(ts, i, j, star, xs) && IsKw(ts, j, FROM) ==> ParseSelect(ts, i) == Ok((star, xs), j)
  {
    hide ParseSelectList, DSelectList;
    if ParseSelect(ts, i) == Ok((star, xs), j) && !star {
      SelectListSound(ts, [], i);
      assert xs[0..] == xs;
    }
    if DSelect(ts, i, j, star, xs) && IsKw(ts, j, FROM) && !star {
      SelectListComplete(ts, [], i, j, xs);
      assert [] + xs == xs;
    }
  }

  lemma {:induction false} OrderListSound(ts: seq<Token>, acc: seq<OrderItem>, i: nat)
    requires Stream(ts) && i < |ts| && ParseOrderList(ts, acc, i).Ok?
    ensures var Ok(xs, j) := ParseOrderList(ts, acc, i);
            acc <= xs && DOrderItems(ts, i, j, xs[|acc|..])
    decreases |ts| - i
  {
    hide ParseOrderItem, DOrderItem;
    var Ok(x, k) := ParseOrderItem(ts, i);
    var Ok(xs, j) := ParseOrderList(ts, acc, i);
    OrderItemSound(ts, i);
    if Is(ts, k, TokComma) {
      OrderListSound(ts, acc + [x], k + 1);
      assert xs[|acc|..][1..] == xs[|acc + [x]|..];
    }
    assert DOrderItem(ts, i, k, xs[|acc|..][0]);
  }

  lemma OrderItemSound(ts: seq<Token>, i: nat)
    requires Stream(ts) && i < |ts| && ParseOrderItem(ts, i).Ok?
    ensures var Ok(x, j) := ParseOrderItem(ts, i); DOrderItem(ts, i, j, x)
  {
  }

  /** A token at which every clause before it has to stop. */
  ghost predicate ClauseEnd(ts: seq<Token>, k: int) {
    || Is(ts, k, TokEOF) || AtJoinStart(ts, k)
    || IsKw(ts, k, WHERE) || IsKw(ts, k, GROUP) || IsKw(ts, k, ORDER) || IsKw(ts, k, LIMIT)
  }

  lemma OrderItemComplete(ts: seq<Token>, i: nat, j: nat, x: OrderItem)
    requires Stream(ts) && i < |ts| && DOrderItem(ts, i, j, x)
    requires !Is(ts, j, TokDot) && !IsKw(ts, j, ASC) && !IsKw(ts, j, DESC)
    ensures ParseOrderItem(ts, i) == Ok(x, j)
  {
  }

  lemma {:induction false} OrderListComplete(
      ts: seq<Token>, acc: seq<OrderItem>, i: nat, j: nat, xs: seq<OrderItem>)
    requires Stream(ts) && i < |ts| && DOrderItems(ts, i, j, xs) && ClauseEnd(ts, j)
    ensures ParseOrderList(ts, acc, i) == Ok(acc + xs, j)
    decreases |xs|
  {
    hide ParseOrderItem, DOrderItem;
    var k :| DOrderItem(ts, i, k, xs[0]) &&
      if |xs| == 1 then j == k else Is(ts, k, TokComma) && DOrderItems(ts, k + 1, j, xs[1..]);
    OrderItemComplete(ts, i, k, xs[0]);
    if |xs| == 1 {
      assert xs == [xs[0]];
    } else {
      OrderListComplete(ts, acc + [xs[0]], k + 1, j, xs[1..]);
      assert acc + [xs[0]] + xs[1..] == acc + xs;
    }
  }

  lemma TableRefExact(ts: seq<Token>, i: nat, j: nat, t: TableRef)
    requires Stream(ts) && i < |ts|
    ensures ParseTableRef(ts, i) == Ok(t, j) ==> DTableRef(ts, i, j, t)
    ensures DTableRef(ts, i, j, t) && !IsIdent(ts, j) && !IsKw(ts, j, AS)
            ==> ParseTableRef(ts, i) == Ok(t, j)
  {
  }

  lemma JoinTypeExact(ts: seq<Token>, i: nat, j: nat, k: JoinType)
    requires Stream(ts) && i < |ts|
    ensures ParseJoinType(ts, i) == Ok(k, j) <==> DJoinType(ts, i, j, k)
    ensures DJoinType(ts, i, j, k) ==> AtJoinStart(ts, i)
  {
  }

  lemma {:induction false} JoinSound(pf: FloatParser, ts: seq<Token>, i: nat)
    requires Stream(ts) && i < |ts| && ParseJoin(pf, ts, i).Ok?
    ensures var Ok(x, j) := ParseJoin(pf, ts, i); DJoin(pf, ts, i, j, x)
  {
    hide ParseJoinType, ParseTableRef, DJoinType, DTableRef;
    var Ok(kind, a) := ParseJoinType(ts, i);
    var Ok(table, b) := ParseTableRef(ts, a);
    JoinTypeExact(ts, i, a, kind);
    TableRefExact(ts, a, b, table);
    ConditionSound(pf, ts, b + 1);
  }

  lemma {:induction false} JoinComplete(pf: FloatParser, ts: seq<Token>, i: nat, j: nat, x: Join)
    requires Stream(ts) && i < |ts| && DJoin(pf, ts, i, j, x) && ClauseEnd(ts, j)
    ensures ParseJoin(pf, ts, i) == Ok(x, j) && AtJoinStart(ts, i)
  {
    hide ParseJoinType, ParseTableRef, ParseCondition, DJoin, DJoinType, DTableRef, DCondition;
    var a, b := JoinParts(pf, ts, i, j, x);
    JoinTypeExact(ts, i, a, x.kind);
    TableRefExact(ts, a, b, x.table);
    ConditionComplete(pf, ts, b + 1, j, x.on);
  }

  lemma {:induction false} JoinParts(pf: FloatParser, ts: seq<Token>, i: nat, j: nat, x: Join)
    returns (a: nat, b: nat)
    requires DJoin(pf, ts, i, j, x)
    ensures a < b < |ts| && DJoinType(ts, i, a, x.kind) && DTableRef(ts, a, b, x.table)
    ensures IsKw(ts, b, ON) && DCondition(pf, ts, b + 1, j, x.on)
  {
    a, b :| && DJoinType(ts, i, a, x.kind) && DTableRef(ts, a, b, x.table)
            && IsKw(ts, b, ON) && DCondition(pf, ts, b + 1, j, x.on);
  }

  lemma {:induction false} JoinsSound(pf: FloatParser, ts: seq<Token>, acc: seq<Join>, i: nat)
    requires Stream(ts) && i < |ts| && ParseJoins(pf, ts, acc, i).Ok?
    ensures var Ok(xs, j) := ParseJoins(pf, ts, acc, i);
            acc <= xs && DJoins(pf, ts, i, j, xs[|acc|..])
    decreases |ts| - i
  {
    hide ParseJoin, DJoin;
    if AtJoinStart(ts, i) {
      var Ok(x, k) := ParseJoin(pf, ts, i);
      var Ok(xs, j) := ParseJoins(pf, ts, acc, i);
      JoinSound(pf, ts, i);
      JoinsSound(pf, ts, acc + [x], k);
      assert xs[|acc|..][1..] == xs[|acc + [x]|..];
      assert DJoin(pf, ts, i, k, xs[|acc|..][0]);
    }
  }

  lemma {:induction false} JoinsComplete(
      pf: FloatParser, ts: seq<Token>, acc: seq<Join>, i: nat, j: nat, xs: seq<Join>)
    requires Stream(ts) && i < |ts| && j < |ts| && DJoins(pf, ts, i, j, xs)
    requires ClauseEnd(ts, j) && !AtJoinStart(ts, j)
    ensures ParseJoins(pf, ts, acc, i) == Ok(acc + xs, j)
    ensures ClauseEnd(ts, i)
    decreases |xs|
  {
    hide ParseJoin, DJoin;
    if xs == [] {
      assert acc + xs == acc;
    } else {
      var k :| DJoin(pf, ts, i, k, xs[0]) && DJoins(pf, ts, k, j, xs[1..]);
      JoinsComplete(pf, ts, acc + [xs[0]], k, j, xs[1..]);
      JoinComplete(pf, ts, i, k, xs[0]);
      assert acc + [xs[0]] + xs[1..] == acc + xs;
    }
  }

  lemma {:induction false} WhereExact(pf: FloatParser, ts: seq<Token>, i: nat, j: nat, w: Option<Condition>)
    requires Stream(ts) && i < |ts|
    ensures ParseWhere(pf, ts, i) == Ok(w, j) ==> DWhere(pf, ts, i, j, w)
    ensures DWhere(pf, ts, i, j, w) && ClauseEnd(ts, j) && !IsKw(ts, j, WHERE)
            ==> ParseWhere(pf, ts, i) == Ok(w, j)
  {
    hide ParseCondition, DCondition;
    if ParseWhere(pf, ts, i) == Ok(w, j) && w.Some? {
      ConditionSound(pf, ts, i + 1);
    }
    if DWhere(pf, ts, i, j, w) && ClauseEnd(ts, j) && w.Some? {
      ConditionComplete(pf, ts, i + 1, j, w.value);
    }
  }

  lemma {:induction false} GroupByExact(ts: seq<Token>, i: nat, j: nat, cs: seq<Column>)
    requires Stream(ts) && i < |ts|
    ensures ParseGroupBy(ts, i) == Ok(cs, j) ==> DGroupBy(ts, i, j, cs)
    ensures DGroupBy(ts, i, j, cs) && ClauseEnd(ts, j) && !IsKw(ts, j, GROUP)
            ==> ParseGroupBy(ts, i) == Ok(cs, j)
  {
    if ParseGroupBy(ts, i) == Ok(cs, j) && IsKw(ts, i, GROUP) {
      ColumnsSound(ts, [], i + 2);
      assert cs[0..] == cs;
    }
    if DGroupBy(ts, i, j, cs) && ClauseEnd(ts, j) && cs != [] {
      ColumnsComplete(ts, [], i + 2, j, cs);
      assert [] + cs == cs;
    }
  }

  lemma {:induction false} OrderByExact(ts: seq<Token>, i: nat, j: nat, xs: seq<OrderItem>)
    requires Stream(ts) && i < |ts|
    ensures ParseOrderBy(ts, i) == Ok(xs, j) ==> DOrderBy(ts, i, j, xs)
    ensures DOrderBy(ts, i, j, xs) && ClauseEnd(ts, j) && !IsKw(ts, j, ORDER)
            ==> ParseOrderBy(ts, i) == Ok(xs, j)
  {
    hide ParseOrderItem, DOrderItem;
    if ParseOrderBy(ts, i) == Ok(xs, j) && IsKw(ts, i, ORDER) {
      OrderListSound(ts, [], i + 2);
      assert xs[0..] == xs;
    }
    if DOrderBy(ts, i, j, xs) && ClauseEnd(ts, j) && xs != [] {
      OrderListComplete(ts, [], i + 2, j, xs);
      assert [] + xs == xs;
    }
  }

  lemma LimitExact(ts: seq<Token>, i: nat, j: nat, limit: Option<int>, offset: Option<int>)
    requires Stream(ts) && i < |ts|
    ensures ParseLimit(ts, i) == Ok((limit, offset), j) ==> DLimit(ts, i, j, limit, offset)
    ensures DLimit(ts, i, j, limit, offset) && Is(ts, j, TokEOF)
            ==> ParseLimit(ts, i) == Ok((limit, offset), j)
  {
  }

  // ---------- Queries ----------

  lemma {:induction false} QuerySound(pf: FloatParser, ts: seq<Token>, i: nat)
    requires Stream(ts) && i < |ts| && ParseQuery(pf, ts, i).Ok?
    ensures var Ok(q, j) := ParseQuery(pf, ts, i); DQuery(pf, ts, i, j, q)
  {
    hide ParseSelect, ParseTableRef, ParseJoins, ParseWhere, ParseGroupBy, ParseOrderBy, ParseLimit;
    hide DSelect, DTableRef, DJoins, DWhere, DGroupBy, DOrderBy, DLimit;
    var Ok(q, j) := ParseQuery(pf, ts, i);
    var Ok(sel, a) := ParseSelect(ts, i + 1);
    SelectExact(ts, i + 1, a, sel.0, sel.1);
    var Ok(from, b) := ParseTableRef(ts, a + 1);
    TableRefExact(ts, a + 1, b, from);
    var Ok(joins, c) := ParseJoins(pf, ts, [], b);
    JoinsSound(pf, ts, [], b);
    assert joins[0..] == joins;
    var Ok(where, d) := ParseWhere(pf, ts, c);
    WhereExact(pf, ts, c, d, where);
    var Ok(group, e) := ParseGroupBy(ts, d);
    GroupByExact(ts, d, e, group);
    var Ok(order, f) := ParseOrderBy(ts, e);
    OrderByExact(ts, e, f, order);
    LimitExact(ts, f, j, q.limit, q.offset);
    assert DQueryAt(pf, ts, i, Cuts(a, b, c, d, e, f), j, q);
  }

  /** The cuts of a derived query lie in order, each at a token that ends the clause before. */
  lemma {:induction false} CutsInOrder(pf: FloatParser, ts: seq<Token>, i: nat, at: Cuts, j: nat, q: Query)
    requires Stream(ts) && DQueryAt(pf, ts, i, at, j, q) && Is(ts, j, TokEOF)
    ensures i < at.select < at.from <= at.joins <= at.where <= at.group <= at.order <= j < |ts|
    ensures ClauseEnd(ts, at.joins) && !AtJoinStart(ts, at.joins)
    ensures ClauseEnd(ts, at.where) && !AtJoinStart(ts, at.where) && !IsKw(ts, at.where, WHERE)
    ensures Is(ts, at.group, TokEOF) || IsKw(ts, at.group, ORDER) || IsKw(ts, at.group, LIMIT)
    ensures Is(ts, at.order, TokEOF) || IsKw(ts, at.order, LIMIT)
  {
    hide DSelectList, DJoins, DCondition, DColumns, DOrderItems;
  }

  lemma {:induction false} QueryComplete(pf: FloatParser, ts: seq<Token>, i: nat, j: nat, q: Query)
    requires Stream(ts) && i < |ts| && DQuery(pf, ts, i, j, q) && Is(ts, j, TokEOF)
    ensures ParseQuery(pf, ts, i) == Ok(q, j)
  {
    hide ParseSelect, ParseTableRef, ParseJoins, ParseWhere, ParseGroupBy, ParseOrderBy, ParseLimit;
    hide DSelect, DTableRef, DJoins, DWhere, DGroupBy, DOrderBy, DLimit;
    var at :| DQueryAt(pf, ts, i, at, j, q);
    CutsInOrder(pf, ts, i, at, j, q);
    SelectExact(ts, i + 1, at.select, q.star, q.columns);
    JoinsComplete(pf, ts, [], at.from, at.joins, q.joins);
    assert [] + q.joins == q.joins;
    TableRefExact(ts, at.select + 1, at.from, q.from);
    WhereExact(pf, ts, at.joins, at.where, q.where);
    GroupByExact(ts, at.where, at.group, q.groupBy);
    OrderByExact(ts, at.group, at.order, q.orderBy);
    LimitExact(ts, at.order, j, q.limit, q.offset);
  }

  /** A token stream is accepted with result `q` exactly when the grammar derives `q` from it. */
  lemma {:induction false} ParseExactly(pf: FloatParser, ts: seq<Token>, q: Query)
    requires Stream(ts)
    ensures ParseTokens(pf, ts) == Some(q) <==> Derives(pf, ts, q)
  {
    hide ParseQuery, DQuery;
    if ParseTokens(pf, ts) == Some(q) {
      QuerySound(pf, ts, 0);
    }
    if Derives(pf, ts, q) {
      QueryComplete(pf, ts, 0, |ts| - 1, q);
    }
  }

  /** The grammar is unambiguous: no token stream derives two queries. */
  lemma {:induction false} Unambiguous(pf: FloatParser, ts: seq<Token>, p: Query, q: Query)
    requires Stream(ts) && Derives(pf, ts, p) && Derives(pf, ts, q)
    ensures p == q
  {
    ParseExactly(pf, ts, p);
    ParseExactly(pf, ts, q);
  }
}
