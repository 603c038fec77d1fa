/** The syntax tree of a read-only query. */
module Ast {
  import opened Common
  import opened Numbers

  datatype Value = StringVal(s: string) | NumberVal(n: Number) | BoolVal(b: bool) | NullVal

  /** `table` is empty for an unqualified column. */
  datatype Column = Column(table: string, name: string)

  /** `alias` is empty when none was given. */
  datatype TableRef = TableRef(name: string, alias: string)

  /** `agg` is empty for a plain column; `star` stands for an aggregate over "*". */
  datatype SelectItem = SelectItem(agg: string, star: bool, column: Column, alias: string)

  datatype JoinType = InnerJoin | LeftJoin | RightJoin

  datatype LogicalOp = OpAnd | OpOr

  /** The right-hand side of a comparison. */
  datatype Operand = ColOperand(col: Column) | ValOperand(val: Value)

  datatype Condition =
    | Logical(op: LogicalOp, left: Condition, right: Condition)
    | Not(cond: Condition)
    | Comparison(col: Column, cmp: string, rhs: Operand)
    | In(col: Column, vals: seq<Value>)
    | Like(col: Column, pattern: Value)
    | IsNull(col: Column, negate: bool)
    | Between(col: Column, low: Value, high: Value)

  datatype Join = Join(kind: JoinType, table: TableRef, on: Condition)

  datatype OrderItem = OrderItem(column: Column, desc: bool)

  datatype Query = Query(
    star: bool, columns: seq<SelectItem>, from: TableRef, joins: seq<Join>,
    where: Option<Condition>, groupBy: seq<Column>, orderBy: seq<OrderItem>,
    limit: Option<int>, offset: Option<int>)

  const NO_COLUMN := Column("", "")

  const NO_QUERY := Query(false, [], TableRef("", ""), [], None, [], [], None, None)

  /** A query that is filled in and rewritten in place. */
  class QueryPtr {
    var val: Query

    constructor (q: Query)
      ensures val == q
    {
      val := q;
    }
  }
}
