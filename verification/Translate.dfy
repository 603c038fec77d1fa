/**
 Translation to the query builder.  The builder is not part of this model: `Expr` and
 `Dataset` record exactly the calls made to it, and the model stops there.
 */
module Translate {
  import opened Common
  import opened Numbers
  import opened Ast

  /** The value handed to the builder for a literal. */
  datatype GoValue = GoString(s: string) | GoInt64(i: int) | GoFloat64(r: real) | GoBool(b: bool) | GoNil

  function Go(v: Value): GoValue {
    match v
    case StringVal(s) => GoString(s)
    case NumberVal(Int64(i)) => GoInt64(i)
    case NumberVal(Float64(r)) => GoFloat64(r)
    case BoolVal(b) => GoBool(b)
    case NullVal => GoNil
  }

  datatype Ident = Bare(name: string) | Qualified(table: string, name: string)

  datatype Arg = IdentArg(id: Ident) | ValueArg(v: GoValue)

  /** The builder's condition nodes; there is no negation node. */
  datatype Expr =
    | And(left: Expr, right: Expr)
    | Or(left: Expr, right: Expr)
    | Eq(id: Ident, arg: Arg)
    | Neq(id: Ident, arg: Arg)
    | Lt(id: Ident, arg: Arg)
    | Lte(id: Ident, arg: Arg)
    | Gt(id: Ident, arg: Arg)
    | Gte(id: Ident, arg: Arg)
    | InList(id: Ident, vals: seq<GoValue>)
    | NotInList(id: Ident, vals: seq<GoValue>)
    | LikePattern(id: Ident, pattern: GoValue)
    | NotLikePattern(id: Ident, pattern: GoValue)
    | NullTest(id: Ident)
    | NotNullTest(id: Ident)
    | InRange(id: Ident, low: GoValue, high: GoValue)
    | NotInRange(id: Ident, low: GoValue, high: GoValue)

  datatype Aggregate = CountFn | SumFn | AvgFn | MinFn | MaxFn

  datatype SelectArg = StarArg | ColumnArg(id: Ident)

  datatype SelectBase = PlainColumn(id: Ident) | Call(fn: Aggregate, arg: SelectArg)

  datatype SelectExpr = SelectExpr(base: SelectBase, alias: Option<string>)

  datatype TableExpr = TableExpr(name: string, alias: Option<string>)

  datatype JoinExpr = JoinExpr(kind: JoinType, table: TableExpr, on: Expr)

  datatype OrderExpr = OrderExpr(id: Ident, desc: bool)

  /** `select` is None when the builder's default list, all columns, is kept. */
  datatype Dataset = Dataset(
    from: TableExpr, joins: seq<JoinExpr>, select: Option<seq<SelectExpr>>,
    where: Option<Expr>, groupBy: seq<Ident>, orderBy: seq<OrderExpr>,
    limit: Option<int>, offset: Option<int>)

  function Named(alias: string): Option<string> {
    if alias == "" then None else Some(alias)
  }

  function TableOf(t: TableRef): TableExpr {
    TableExpr(t.name, Named(t.alias))
  }

  function ColIdent(c: Column): Ident {
    if c.table == "" then Bare(c.name) else Qualified(c.table, c.name)
  }

  function AggExpr(agg: string): Aggregate {
    match agg
    case "COUNT" => CountFn
    case "SUM" => SumFn
    case "AVG" => AvgFn
    case "MIN" => MinFn
    case "MAX" => MaxFn
    case _ => CountFn
  }

  function SelectOf(x: SelectItem): SelectExpr {
    var base :=
      if x.agg != "" then Call(AggExpr(x.agg), if x.star then StarArg else ColumnArg(ColIdent(x.column)))
      else PlainColumn(ColIdent(x.column));
    SelectExpr(base, Named(x.alias))
  }

  function NegateOp(op: string): string {
    match op
    case "=" => "!="
    case "!=" => "="
    case "<>" => "="
    case "<" => ">="
    case "<=" => ">"
    case ">" => "<="
    case ">=" => "<"
    case _ => op
  }

  function CompareExpr(col: Column, cmp: string, rhs: Operand, negate: bool): Expr {
    var op := if negate then NegateOp(cmp) else cmp;
    var id := ColIdent(col);
    var arg := match rhs case ColOperand(c) => IdentArg(ColIdent(c)) case ValOperand(v) => ValueArg(Go(v));
    match op
    case "=" => Eq(id, arg)
    case "!=" => Neq(id, arg)
    case "<>" => Neq(id, arg)
    case "<" => Lt(id, arg)
    case "<=" => Lte(id, arg)
    case ">" => Gt(id, arg)
    case ">=" => Gte(id, arg)
    case _ => Eq(id, arg)
  }

  function GoValues(vals: seq<Value>): (r: seq<GoValue>)
    ensures |r| == |vals| && forall i :: 0 <= i < |vals| ==> r[i] == Go(vals[i])
  {
    seq(|vals|, i requires 0 <= i < |vals| => Go(vals[i]))
  }

  method FillGoValues(vals: seq<Value>) returns (r: seq<GoValue>)
    ensures r == GoValues(vals)
  {
    var out := new GoValue[|vals|](_ => GoNil);
    for i := 0 to |vals|
      invariant forall k :: 0 <= k < i ==> out[k] == Go(vals[k])
    {
      out[i] := Go(vals[i]);
    }
    return out[..];
  }

  /** The node for a condition, or for its negation, pushed down to the predicates. */
  function BuildCond(c: Condition, negate: bool): Expr {
    match c
    case Logical(op, l, r) =>
      var left, right := BuildCond(l, negate), BuildCond(r, negate);
      if (op == OpAnd) != negate then And(left, right) else Or(left, right)
    case Not(d) => BuildCond(d, !negate)
    case Comparison(col, cmp, rhs) => CompareExpr(col, cmp, rhs, negate)
    case In(col, vals) =>
      if negate then NotInList(ColIdent(col), GoValues(vals)) else InList(ColIdent(col), GoValues(vals))
    case Like(col, pattern) =>
      if negate then NotLikePattern(ColIdent(col), Go(pattern)) else LikePattern(ColIdent(col), Go(pattern))
    case IsNull(col, isNot) =>
      if isNot != negate then NotNullTest(ColIdent(col)) else NullTest(ColIdent(col))
    case Between(col, low, high) =>
      if negate then NotInRange(ColIdent(col), Go(low), Go(high)) else InRange(ColIdent(col), Go(low), Go(high))
  }

  function JoinOf(x: Join): JoinExpr {
    JoinExpr(x.kind, TableOf(x.table), BuildCond(x.on, false))
  }

  function OrderOf(x: OrderItem): OrderExpr {
    OrderExpr(ColIdent(x.column), x.desc)
  }

  /** The dataset built for a query. */
  ghost predicate IsDatasetOf(q: Query, ds: Dataset) {
    && ds.from == TableOf(q.from)
    && |ds.joins| == |q.joins| && (forall i :: 0 <= i < |q.joins| ==> ds.joins[i] == JoinOf(q.joins[i]))
    && ds.select.Some? == !q.star
    && (ds.select.Some? ==>
          && |ds.select.value| == |q.columns|
          && forall i :: 0 <= i < |q.columns| ==> ds.select.value[i] == SelectOf(q.columns[i]))
    && ds.where == (match q.where case None => None case Some(c) => Some(BuildCond(c, false)))
    && |ds.groupBy| == |q.groupBy|
    && (forall i :: 0 <= i < |q.groupBy| ==> ds.groupBy[i] == ColIdent(q.groupBy[i]))
    && |ds.orderBy| == |q.orderBy|
    && (forall i :: 0 <= i < |q.orderBy| ==> ds.orderBy[i] == OrderOf(q.orderBy[i]))
    && ds.limit == q.limit
    && ds.offset == if q.limit.Some? then q.offset else None
  }

  /** Builds the node, converting the values of every list. */
  method BuildNode(c: Condition, negate: bool) returns (e: Expr)
    ensures e == BuildCond(c, negate)
    decreases c
  {
    match c {
      case Logical(op, l, r) =>
        var left := BuildNode(l, negate);
        var right := BuildNode(r, negate);
        return if (op == OpAnd) != negate then And(left, right) else Or(left, right);
      case Not(d) =>
        e := BuildNode(d, !negate);
      case In(col, vals) =>
        var args := FillGoValues(vals);
        return if negate then NotInList(ColIdent(col), args) else InList(ColIdent(col), args);
      case _ =>
        return BuildCond(c, negate);
    }
  }

  method FillJoins(joins: seq<Join>) returns (r: seq<JoinExpr>)
    ensures |r| == |joins| && forall i :: 0 <= i < |joins| ==> r[i] == JoinOf(joins[i])
  {
    r := [];
    for i := 0 to |joins|
      invariant |r| == i && forall k :: 0 <= k < i ==> r[k] == JoinOf(joins[k])
    {
      var on := BuildNode(joins[i].on, false);
      r := r + [JoinExpr(joins[i].kind, TableOf(joins[i].table), on)];
    }
  }

  method FillSelect(items: seq<SelectItem>) returns (r: seq<SelectExpr>)
    ensures |r| == |items| && forall i :: 0 <= i < |items| ==> r[i] == SelectOf(items[i])
  {
    var sel := new SelectExpr[|items|](_ => SelectExpr(PlainColumn(Bare("")), None));
    for i := 0 to |items|
      invariant forall k :: 0 <= k < i ==> sel[k] == SelectOf(items[k])
    {
      sel[i] := SelectOf(items[i]);
    }
    return sel[..];
  }

  method FillGroupBy(columns: seq<Column>) returns (r: seq<Ident>)
    ensures |r| == |columns| && forall i :: 0 <= i < |columns| ==> r[i] == ColIdent(columns[i])
  {
    var gb := new Ident[|columns|](_ => Bare(""));
    for i := 0 to |columns|
      invariant forall k :: 0 <= k < i ==> gb[k] == ColIdent(columns[k])
    {
      gb[i] := ColIdent(columns[i]);
    }
    return gb[..];
  }

  method FillOrderBy(items: seq<OrderItem>) returns (r: seq<OrderExpr>)
    ensures |r| == |items| && forall i :: 0 <= i < |items| ==> r[i] == OrderOf(items[i])
  {
    var ob := new OrderExpr[|items|](_ => OrderExpr(Bare(""), false));
    for i := 0 to |items|
      invariant forall k :: 0 <= k < i ==> ob[k] == OrderOf(items[k])
    {
      ob[i] := OrderOf(items[i]);
    }
    return ob[..];
  }

  method Translate(q: Query) returns (ds: Dataset)
    ensures IsDatasetOf(q, ds)
  {
    hide BuildCond, JoinOf, SelectOf, OrderOf, ColIdent, TableOf;
    var joins := FillJoins(q.joins);
    ds := Dataset(TableOf(q.from), joins, None, None, [], [], None, None);
    if !q.star {
      var sel := FillSelect(q.columns);
      ds := ds.(select := Some(sel));
    }
    if q.where.Some? {
      var where := BuildNode(q.where.value, false);
      ds := ds.(where := Some(where));
    }
    if |q.groupBy| > 0 {
      var gb := FillGroupBy(q.groupBy);
      ds := ds.(groupBy := gb);
    }
    if |q.orderBy| > 0 {
      var ob := FillOrderBy(q.orderBy);
      ds := ds.(orderBy := ob);
    }
    if q.limit.Some? {
      ds := ds.(limit := q.limit);
      if q.offset.Some? {
        ds := ds.(offset := q.offset);
      }
    }
  }
}
