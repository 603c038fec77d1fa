/**
 Three-valued meaning of conditions, given twice: for source conditions over references,
 and for builder nodes over qualified identifiers.  Translation preserves it.
 */
module Semantics {
  import opened Common
  import opened Ast
  import opened Catalog
  import opened Resolution
  import opened Translate
  import opened WellFormed
  import Numbers
  import Tokenisation

  datatype Tri = Yes | No | Maybe

  function Of(b: bool): Tri {
    if b then Yes else No
  }

  function And3(a: Tri, b: Tri): Tri {
    if a == No || b == No then No else if a == Yes && b == Yes then Yes else Maybe
  }

  function Or3(a: Tri, b: Tri): Tri {
    if a == Yes || b == Yes then Yes else if a == No && b == No then No else Maybe
  }

  function Not3(a: Tri): Tri {
    match a case Yes => No case No => Yes case Maybe => Maybe
  }

  /** No, Maybe and Yes, from the least to the greatest. */
  function Truth(a: Tri): int {
    match a case No => -1 case Maybe => 0 case Yes => 1
  }

  /** The connectives are those of three-valued logic: minimum, maximum and sign change. */
  lemma Kleene(a: Tri, b: Tri)
    ensures Truth(And3(a, b)) == if Truth(a) < Truth(b) then Truth(a) else Truth(b)
    ensures Truth(Or3(a, b)) == if Truth(a) < Truth(b) then Truth(b) else Truth(a)
    ensures Truth(Not3(a)) == -Truth(a)
    ensures Truth(Of(true)) == 1 && Truth(Of(false)) == -1
  {
  }

  /**
   What the database contributes: how it orders non-null values, how it matches patterns,
   and what comparing for equality with NULL or a truth value yields.
   */
  datatype Collation = Collation(
    less: (GoValue, GoValue) -> bool,
    like: (GoValue, GoValue) -> bool,
    equalsSpecial: (GoValue, GoValue) -> Tri)

  /** No two values are each below the other. */
  ghost predicate Orders(k: Collation) {
    forall a, b :: k.less(a, b) ==> !k.less(b, a)
  }

  predicate IsSpecial(v: GoValue) {
    v.GoNil? || v.GoBool?
  }

  // ---------- Source conditions ----------

  function Same(k: Collation, a: GoValue, b: GoValue): bool {
    !k.less(a, b) && !k.less(b, a)
  }

  /** `a = b` for a column value `a` and an operand; `literal` if the operand is a literal. */
  function EqualTo(k: Collation, a: GoValue, b: GoValue, literal: bool): Tri {
    if literal && IsSpecial(b) then k.equalsSpecial(a, b)
    else if a.GoNil? || b.GoNil? then Maybe
    else Of(Same(k, a, b))
  }

  function Ordered(k: Collation, a: GoValue, b: GoValue, holds: bool): Tri {
    if a.GoNil? || b.GoNil? then Maybe else Of(holds)
  }

  function Compare(k: Collation, op: string, a: GoValue, b: GoValue, literal: bool): Tri {
    match op
    case "=" => EqualTo(k, a, b, literal)
    case "!=" => Not3(EqualTo(k, a, b, literal))
    case "<>" => Not3(EqualTo(k, a, b, literal))
    case "<" => Ordered(k, a, b, k.less(a, b))
    case "<=" => Ordered(k, a, b, k.less(a, b) || Same(k, a, b))
    case ">" => Ordered(k, a, b, k.less(b, a))
    case ">=" => Ordered(k, a, b, k.less(b, a) || Same(k, a, b))
    case _ => Maybe
  }

  /** Membership: true on an equal value, unknown if only a NULL could make it true. */
  function Member(k: Collation, a: GoValue, vals: seq<GoValue>): Tri {
    if !a.GoNil? && exists i :: 0 <= i < |vals| && !vals[i].GoNil? && Same(k, a, vals[i]) then Yes
    else if (a.GoNil? && vals != []) || GoNil in vals then Maybe
    else No
  }

  /** The meaning of a source condition, where `env` gives the value a reference stands for. */
  function Eval(k: Collation, env: Column -> GoValue, c: Condition): Tri {
    match c
    case Logical(op, l, r) =>
      if op == OpAnd then And3(Eval(k, env, l), Eval(k, env, r)) else Or3(Eval(k, env, l), Eval(k, env, r))
    case Not(d) => Not3(Eval(k, env, d))
    case Comparison(col, op, ColOperand(right)) => Compare(k, op, env(col), env(right), false)
    case Comparison(col, op, ValOperand(v)) => Compare(k, op, env(col), Go(v), true)
    case In(col, vals) => Member(k, env(col), GoValues(vals))
    case Like(col, pattern) =>
      if env(col).GoNil? then Maybe else Of(k.like(env(col), Go(pattern)))
    case IsNull(col, negate) => Of(env(col).GoNil? != negate)
    case Between(col, low, high) =>
      And3(Compare(k, "<=", Go(low), env(col), false), Compare(k, "<=", env(col), Go(high), false))
  }

  // ---------- Builder nodes ----------

  /** The value of every column in a row: by the name its table is bound by, and its own. */
  type Row = (string, string) -> GoValue

  /** An identifier is read by its parts; one without a table belongs to none. */
  function IdentValue(row: Row, id: Ident): GoValue {
    match id
    case Qualified(table, name) => row(table, name)
    case Bare(name) => row("", name)
  }

  /** A resolved reference has the value of the column it names. */
  function ByName(row: Row): Column -> GoValue {
    (c: Column) => row(c.table, c.name)
  }

  function ArgValue(row: Row, a: Arg): GoValue {
    match a case IdentArg(id) => IdentValue(row, id) case ValueArg(v) => v
  }

  function NodeEq(k: Collation, x: GoValue, a: Arg, y: GoValue): Tri {
    if a.ValueArg? && (y.GoNil? || y.GoBool?) then k.equalsSpecial(x, y)
    else if x.GoNil? || y.GoNil? then Maybe
    else if k.less(x, y) || k.less(y, x) then No else Yes
  }

  function NodeLess(k: Collation, x: GoValue, y: GoValue): Tri {
    if x.GoNil? || y.GoNil? then Maybe else if k.less(x, y) then Yes else No
  }

  function PlainEq(k: Collation, x: GoValue, y: GoValue): Tri {
    if x.GoNil? || y.GoNil? then Maybe else if k.less(x, y) || k.less(y, x) then No else Yes
  }

  /** IN as a disjunction of equalities. */
  function AnyEqual(k: Collation, x: GoValue, vals: seq<GoValue>): Tri {
    if vals == [] then No else Or3(PlainEq(k, x, vals[0]), AnyEqual(k, x, vals[1..]))
  }

  /** NOT IN as a conjunction of inequalities. */
  function AllDiffer(k: Collation, x: GoValue, vals: seq<GoValue>): Tri {
    if vals == [] then Yes else And3(Not3(PlainEq(k, x, vals[0])), AllDiffer(k, x, vals[1..]))
  }

  function EvalExpr(k: Collation, row: Row, e: Expr): Tri {
    match e
    case And(l, r) => And3(EvalExpr(k, row, l), EvalExpr(k, row, r))
    case Or(l, r) => Or3(EvalExpr(k, row, l), EvalExpr(k, row, r))
    case Eq(id, a) => NodeEq(k, IdentValue(row, id), a, ArgValue(row, a))
    case Neq(id, a) => Not3(NodeEq(k, IdentValue(row, id), a, ArgValue(row, a)))
    case Lt(id, a) => NodeLess(k, IdentValue(row, id), ArgValue(row, a))
    case Lte(id, a) => Not3(NodeLess(k, ArgValue(row, a), IdentValue(row, id)))
    case Gt(id, a) => NodeLess(k, ArgValue(row, a), IdentValue(row, id))
    case Gte(id, a) => Not3(NodeLess(k, IdentValue(row, id), ArgValue(row, a)))
    case InList(id, vals) => AnyEqual(k, IdentValue(row, id), vals)
    case NotInList(id, vals) => AllDiffer(k, IdentValue(row, id), vals)
    case LikePattern(id, p) => if IdentValue(row, id).GoNil? then Maybe else Of(k.like(IdentValue(row, id), p))
    case NotLikePattern(id, p) => if IdentValue(row, id).GoNil? then Maybe else Of(!k.like(IdentValue(row, id), p))
    case NullTest(id) => Of(IdentValue(row, id).GoNil?)
    case NotNullTest(id) => Of(!IdentValue(row, id).GoNil?)
    case InRange(id, low, high) =>
      And3(Not3(NodeLess(k, IdentValue(row, id), low)), Not3(NodeLess(k, high, IdentValue(row, id))))
    case NotInRange(id, low, high) => Or3(NodeLess(k, IdentValue(row, id), low), NodeLess(k, high, IdentValue(row, id)))
  }

  // ---------- Translation preserves meaning ----------

  /** Every comparison uses one of the seven operators. */
  ghost predicate KnownOperators(c: Condition) {
    match c
    case Logical(_, l, r) => KnownOperators(l) && KnownOperators(r)
    case Not(d) => KnownOperators(d)
    case Comparison(_, op, _) => Tokenisation.IsOperator(op)
    case _ => true
  }

  lemma {:induction false} WfHasKnownOperators(pf: Numbers.FloatParser, c: Condition)
    requires WfCondition(pf, c)
    ensures KnownOperators(c)
  {
    match c {
      case Logical(_, l, r) =>
        WfHasKnownOperators(pf, l);
        WfHasKnownOperators(pf, r);
      case Not(d) => WfHasKnownOperators(pf, d);
      case _ =>
    }
  }

  /** The value itself, or its negation. */
  function Signed(negate: bool, t: Tri): Tri {
    if negate then Not3(t) else t
  }

  /** Each operator is an operator again once negated, and means the opposite. */
  lemma {:induction false} NegatedOperator(k: Collation, op: string, a: GoValue, b: GoValue, literal: bool)
    requires Tokenisation.IsOperator(op) && Orders(k)
    ensures Tokenisation.IsOperator(NegateOp(op))
    ensures Compare(k, NegateOp(op), a, b, literal) == Not3(Compare(k, op, a, b, literal))
  {
    assert k.less(a, b) ==> !k.less(b, a);
  }

  lemma {:induction false} OperatorNode(
      k: Collation, row: Row, col: Column, op: string, rhs: Operand)
    requires Tokenisation.IsOperator(op) && Orders(k)
    ensures var b := match rhs case ColOperand(c) => row(c.table, c.name) case ValOperand(v) => Go(v);
            EvalExpr(k, row, CompareExpr(col, op, rhs, false))
            == Compare(k, op, row(col.table, col.name), b, rhs.ValOperand?)
  {
    var b := match rhs case ColOperand(c) => row(c.table, c.name) case ValOperand(v) => Go(v);
    var a := row(col.table, col.name);
    assert k.less(a, b) ==> !k.less(b, a);
  }

  lemma {:induction false} MemberIsAnyEqual(k: Collation, x: GoValue, vals: seq<GoValue>)
    ensures AnyEqual(k, x, vals) == Member(k, x, vals)
    ensures AllDiffer(k, x, vals) == Not3(AnyEqual(k, x, vals))
    decreases |vals|
  {
    if vals != [] {
      MemberIsAnyEqual(k, x, vals[1..]);
      var rest := vals[1..];
      assert forall i :: 0 <= i < |rest| ==> rest[i] == vals[i + 1];
      assert GoNil in vals <==> vals[0] == GoNil || GoNil in rest;
      if i :| 0 <= i < |vals| && !vals[i].GoNil? && Same(k, x, vals[i]) {
        assert i > 0 ==> rest[i - 1] == vals[i];
      }
      if i :| 0 <= i < |rest| && !rest[i].GoNil? && Same(k, x, rest[i]) {
        assert vals[i + 1] == rest[i];
      }
    }
  }

  /** A negated condition node means the negation of the condition, on every row. */
  lemma {:induction false} BuildCondMeaning(k: Collation, row: Row, c: Condition, negate: bool)
    requires KnownOperators(c) && Orders(k)
    ensures EvalExpr(k, row, BuildCond(c, negate))
         == Signed(negate, Eval(k, ByName(row), c))
    decreases c
  {
    var env := ByName(row);
    match c {
      case Logical(_, l, r) =>
        BuildCondMeaning(k, row, l, negate);
        BuildCondMeaning(k, row, r, negate);
      case Not(d) =>
        BuildCondMeaning(k, row, d, !negate);
      case Comparison(col, op, rhs) =>
        var b := match rhs case ColOperand(r) => row(r.table, r.name) case ValOperand(v) => Go(v);
        NegatedOperator(k, op, row(col.table, col.name), b, rhs.ValOperand?);
        OperatorNode(k, row, col, if negate then NegateOp(op) else op, rhs);
      case In(col, vals) =>
        MemberIsAnyEqual(k, row(col.table, col.name), GoValues(vals));
      case Between(col, low, high) =>
        var x := row(col.table, col.name);
        assert k.less(x, Go(low)) ==> !k.less(Go(low), x);
        assert k.less(Go(high), x) ==> !k.less(x, Go(high));
      case _ =>
    }
  }

  // ---------- Resolution and translation together ----------

  /** A reference has the value of the column it denotes, in the table it denotes it in. */
  ghost predicate ReadsRow(cat: Catalog, ts: seq<TableRef>, row: Row, env: Column -> GoValue) {
    forall c, t, n :: DenotesColumn(cat, ts, c, t, n) ==> env(c) == row(t, n)
  }

  /** The value a reference has in a row, NULL if it denotes no column. */
  ghost function Reading(cat: Catalog, ts: seq<TableRef>, row: Row, c: Column): GoValue {
    if exists t, n :: DenotesColumn(cat, ts, c, t, n) then
      var t, n :| DenotesColumn(cat, ts, c, t, n);
      row(t, n)
    else GoNil
  }

  /** Every row can be read. */
  lemma {:induction false} RowIsReadable(cat: Catalog, ts: seq<TableRef>, row: Row)
    ensures ReadsRow(cat, ts, row, c => Reading(cat, ts, row, c))
  {
    forall c, t, n | DenotesColumn(cat, ts, c, t, n)
      ensures Reading(cat, ts, row, c) == row(t, n)
    {
      hide DenotesColumn;
      forall t', n' | DenotesColumn(cat, ts, c, t', n')
        ensures t' == t && n' == n
      {
        DenotedColumnUnique(cat, ts, c, t, n, t', n');
      }
    }
  }

  lemma {:induction false} ReferentValue(
      cat: Catalog, ts: seq<TableRef>, names: seq<string>, row: Row, env: Column -> GoValue,
      c: Column, d: Column)
    requires ReadsRow(cat, ts, row, env) && RefersTo(cat, ts, names, c, false, d)
    ensures env(c) == row(d.table, d.name)
  {
    RefersToColumn(cat, ts, names, c, d);
  }

  lemma {:induction false} RewriteMeaning(
      k: Collation, cat: Catalog, ts: seq<TableRef>, names: seq<string>, row: Row, env: Column -> GoValue,
      c: Condition, d: Condition)
    requires ReadsRow(cat, ts, row, env) && CondRefersTo(cat, ts, names, c, d)
    ensures Eval(k, ByName(row), d) == Eval(k, env, c)
    ensures KnownOperators(c) ==> KnownOperators(d)
    decreases c
  {
    hide RefersTo, ReadsRow, Compare, Member;
    match c {
      case Logical(_, l, r) =>
        RewriteMeaning(k, cat, ts, names, row, env, l, d.left);
        RewriteMeaning(k, cat, ts, names, row, env, r, d.right);
      case Not(e) => RewriteMeaning(k, cat, ts, names, row, env, e, d.cond);
      case Comparison(col, _, ColOperand(r)) =>
        ReferentValue(cat, ts, names, row, env, col, d.col);
        ReferentValue(cat, ts, names, row, env, r, d.rhs.col);
      case _ => ReferentValue(cat, ts, names, row, env, c.col, d.col);
    }
  }

  /**
   The node built from the resolved condition has, on every row with NULLs, the truth value
   of the source condition, or its negation if it was built negated.
   */
  lemma {:induction false} CompiledMeaning(
      k: Collation, cat: Catalog, ts: seq<TableRef>, names: seq<string>, row: Row, env: Column -> GoValue,
      c: Condition, d: Condition, negate: bool)
    requires ReadsRow(cat, ts, row, env) && CondRefersTo(cat, ts, names, c, d)
    requires KnownOperators(c) && Orders(k)
    ensures EvalExpr(k, row, BuildCond(d, negate)) == Signed(negate, Eval(k, env, c))
  {
    RewriteMeaning(k, cat, ts, names, row, env, c, d);
    BuildCondMeaning(k, row, d, negate);
  }

  /** Every ON and the WHERE of the dataset keep the rows their source conditions keep. */
  lemma {:induction false} CompiledQueryMeaning(
      pf: Numbers.FloatParser, k: Collation, cat: Catalog, q: Query, p: Query, ds: Dataset,
      row: Row, env: Column -> GoValue)
    requires WfQuery(pf, q) && Resolves(cat, q, p) && IsDatasetOf(p, ds) && Orders(k)
    requires ReadsRow(cat, JoinTables(q), row, env)
    ensures |ds.joins| == |q.joins|
    ensures forall i :: 0 <= i < |q.joins| ==>
      EvalExpr(k, row, ds.joins[i].on) == Eval(k, env, q.joins[i].on)
    ensures ds.where.Some? == q.where.Some?
    ensures q.where.Some? ==> EvalExpr(k, row, ds.where.value) == Eval(k, env, q.where.value)
  {
    var ts, names := JoinTables(q), Aliases(q.columns);
    hide Bindable, CondRefersTo, WfCondition, KnownOperators, ReadsRow, JoinTables, Aliases;
    forall i | 0 <= i < |q.joins|
      ensures EvalExpr(k, row, ds.joins[i].on) == Eval(k, env, q.joins[i].on)
    {
      assert WfJoin(pf, q.joins[i]);
      WfHasKnownOperators(pf, q.joins[i].on);
      CompiledMeaning(k, cat, ts, names, row, env, q.joins[i].on, p.joins[i].on, false);
    }
    if q.where.Some? {
      WfHasKnownOperators(pf, q.where.value);
      CompiledMeaning(k, cat, ts, names, row, env, q.where.value, p.where.value, false);
    }
  }

  // ---------- The shape of the tree ----------

  /** A predicate or its negation: `<` and `>=` are one kind, as are `>` and `<=`. */
  datatype Kind = Equality | Below | Above | Membership | Pattern | Nullness | Ranged

  /** What is tested, how, and against which operands; connectives without their polarity. */
  datatype Shape = Leaf(id: Ident, kind: Kind, args: seq<Arg>) | Branch(left: Shape, right: Shape)

  function ValueArgs(vals: seq<GoValue>): seq<Arg> {
    seq(|vals|, i requires 0 <= i < |vals| => ValueArg(vals[i]))
  }

  function OperatorKind(op: string): Kind {
    if op == "<" || op == ">=" then Below else if op == ">" || op == "<=" then Above else Equality
  }

  function OperandArg(rhs: Operand): Arg {
    match rhs case ColOperand(c) => IdentArg(ColIdent(c)) case ValOperand(v) => ValueArg(Go(v))
  }

  function ConditionShape(c: Condition): Shape {
    match c
    case Logical(_, l, r) => Branch(ConditionShape(l), ConditionShape(r))
    case Not(d) => ConditionShape(d)
    case Comparison(col, op, rhs) => Leaf(ColIdent(col), OperatorKind(op), [OperandArg(rhs)])
    case In(col, vals) => Leaf(ColIdent(col), Membership, ValueArgs(GoValues(vals)))
    case Like(col, pattern) => Leaf(ColIdent(col), Pattern, [ValueArg(Go(pattern))])
    case IsNull(col, _) => Leaf(ColIdent(col), Nullness, [])
    case Between(col, low, high) => Leaf(ColIdent(col), Ranged, [ValueArg(Go(low)), ValueArg(Go(high))])
  }

  function ExprShape(e: Expr): Shape {
    match e
    case And(l, r) => Branch(ExprShape(l), ExprShape(r))
    case Or(l, r) => Branch(ExprShape(l), ExprShape(r))
    case Eq(id, a) => Leaf(id, Equality, [a])
    case Neq(id, a) => Leaf(id, Equality, [a])
    case Lt(id, a) => Leaf(id, Below, [a])
    case Gte(id, a) => Leaf(id, Below, [a])
    case Gt(id, a) => Leaf(id, Above, [a])
    case Lte(id, a) => Leaf(id, Above, [a])
    case InList(id, vals) => Leaf(id, Membership, ValueArgs(vals))
    case NotInList(id, vals) => Leaf(id, Membership, ValueArgs(vals))
    case LikePattern(id, p) => Leaf(id, Pattern, [ValueArg(p)])
    case NotLikePattern(id, p) => Leaf(id, Pattern, [ValueArg(p)])
    case NullTest(id) => Leaf(id, Nullness, [])
    case NotNullTest(id) => Leaf(id, Nullness, [])
    case InRange(id, low, high) => Leaf(id, Ranged, [ValueArg(low), ValueArg(high)])
    case NotInRange(id, low, high) => Leaf(id, Ranged, [ValueArg(low), ValueArg(high)])
  }

  /**
   Pushing negations down keeps every connective in its place, and in the place of every
   predicate stands that predicate or its negation, with its column and its operands.
   */
  lemma {:induction false} BuildCondShape(c: Condition, negate: bool)
    ensures ExprShape(BuildCond(c, negate)) == ConditionShape(c)
    decreases c
  {
    match c {
      case Logical(_, l, r) =>
        BuildCondShape(l, negate);
        BuildCondShape(r, negate);
      case Not(d) => BuildCondShape(d, !negate);
      case Comparison(_, _, _) =>
      case In(_, _) =>
      case Like(_, _) =>
      case IsNull(_, _) =>
      case Between(_, _, _) =>
    }
  }
}
