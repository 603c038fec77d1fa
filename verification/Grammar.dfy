/**
 The grammar as a derivation relation: `DX(ts, i, j, x)` says that the tokens `i..j`
 derive `x` by some production of X.  Split points are existential, so nothing here
 decides between productions; AND and OR are left-recursive.
 */
module Grammar {
  import opened Common
  import opened Numbers
  import opened Tokens
  import opened Ast

  /** EOF stands at the end and nowhere else. */
  ghost predicate Stream(ts: seq<Token>) {
    && |ts| > 0
    && ts[|ts| - 1].lex == TokEOF
    && forall k :: 0 <= k < |ts| - 1 ==> ts[k].lex != TokEOF
  }

  predicate Is(ts: seq<Token>, i: int, l: Lexeme) {
    0 <= i < |ts| && ts[i].lex == l
  }

  predicate IsKw(ts: seq<Token>, i: int, k: Kw) {
    Is(ts, i, TokKeyword(k))
  }

  predicate IsIdent(ts: seq<Token>, i: int) {
    0 <= i < |ts| && ts[i].lex.TokIdent?
  }

  /** The literal a token stands for. */
  function ValueOf(pf: FloatParser, l: Lexeme): Option<Value> {
    match l
    case TokString(t) => Some(StringVal(t))
    case TokNumber(s) =>
      (match ParseNumber(pf, s)
       case Some(n) => Some(NumberVal(n))
       case None => None)
    case TokKeyword(TRUE) => Some(BoolVal(true))
    case TokKeyword(FALSE) => Some(BoolVal(false))
    case TokKeyword(NULL) => Some(NullVal)
    case _ => None
  }

  function NonNegIntOf(l: Lexeme): Option<int> {
    if l.TokNumber? && ParseInt(l.spelling).Some? && ParseInt(l.spelling).value >= 0 then
      ParseInt(l.spelling)
    else
      None
  }

  predicate IsAggregate(k: Kw) {
    k == COUNT || k == SUM || k == AVG || k == MIN || k == MAX
  }

  // ---------- Columns and values ----------

  ghost predicate DColumn(ts: seq<Token>, i: int, j: int, c: Column) {
    || (j == i + 1 && IsIdent(ts, i) && c == Column("", ts[i].lex.name))
    || (j == i + 3 && IsIdent(ts, i) && Is(ts, i + 1, TokDot) && IsIdent(ts, i + 2)
        && c == Column(ts[i].lex.name, ts[i + 2].lex.name))
  }

  ghost predicate DValue(pf: FloatParser, ts: seq<Token>, i: int, j: int, v: Value) {
    j == i + 1 && 0 <= i < |ts| && ValueOf(pf, ts[i].lex) == Some(v)
  }

  ghost function DValues(pf: FloatParser, ts: seq<Token>, i: int, j: int, vs: seq<Value>): (b: bool)
    ensures b ==> 0 <= i < j <= |ts|
    decreases |vs|
  {
    && |vs| > 0
    && DValue(pf, ts, i, i + 1, vs[0])
    && if |vs| == 1 then j == i + 1
       else Is(ts, i + 1, TokComma) && DValues(pf, ts, i + 2, j, vs[1..])
  }

  ghost function DColumns(ts: seq<Token>, i: int, j: int, cs: seq<Column>): (b: bool)
    ensures b ==> 0 <= i < j <= |ts|
    decreases |cs|
  {
    && |cs| > 0
    && exists k :: DColumn(ts, i, k, cs[0]) &&
         if |cs| == 1 then j == k
         else Is(ts, k, TokComma) && DColumns(ts, k + 1, j, cs[1..])
  }

  // ---------- Conditions ----------

  ghost function DPredicate(pf: FloatParser, ts: seq<Token>, i: int, j: int, c: Condition): (b: bool)
    ensures b ==> 0 <= i < j <= |ts|
  {
    match c
    case Logical(_, _, _) => false
    case Not(_) => false
    case _ => exists k :: DColumn(ts, i, k, c.col) && DTest(pf, ts, k, j, c)
  }

  /** The part of a predicate after its column. */
  ghost function DTest(pf: FloatParser, ts: seq<Token>, k: int, j: int, c: Condition): (b: bool)
    ensures b ==> 0 <= k < j <= |ts|
  {
    match c
    case Comparison(_, op, ColOperand(right)) =>
      Is(ts, k, TokOp(op)) && DColumn(ts, k + 1, j, right)
    case Comparison(_, op, ValOperand(v)) =>
      Is(ts, k, TokOp(op)) && DValue(pf, ts, k + 1, j, v)
    case In(_, vals) =>
      && IsKw(ts, k, IN) && Is(ts, k + 1, TokLParen)
      && DValues(pf, ts, k + 2, j - 1, vals) && Is(ts, j - 1, TokRParen)
    case Like(_, pattern) =>
      IsKw(ts, k, LIKE) && pattern.StringVal? && DValue(pf, ts, k + 1, j, pattern)
    case IsNull(_, true) =>
      j == k + 3 && IsKw(ts, k, IS) && IsKw(ts, k + 1, NOT) && IsKw(ts, k + 2, NULL)
    case IsNull(_, false) =>
      j == k + 2 && IsKw(ts, k, IS) && IsKw(ts, k + 1, NULL)
    case Between(_, low, high) =>
      && IsKw(ts, k, BETWEEN) && DValue(pf, ts, k + 1, k + 2, low)
      && IsKw(ts, k + 2, AND) && DValue(pf, ts, k + 3, j, high)
    case _ => false
  }

  /** condition : and_term | condition OR and_term */
  ghost function DCondition(pf: FloatParser, ts: seq<Token>, i: int, j: int, c: Condition): (b: bool)
    ensures b ==> 0 <= i < j <= |ts|
    decreases j - i, 3
  {
    || DAndTerm(pf, ts, i, j, c)
    || (c.Logical? && c.op == OpOr
        && exists k :: i <= k < j && IsKw(ts, k, OR)
             && DCondition(pf, ts, i, k, c.left) && DAndTerm(pf, ts, k + 1, j, c.right))
  }

  /** and_term : not_factor | and_term AND not_factor */
  ghost function DAndTerm(pf: FloatParser, ts: seq<Token>, i: int, j: int, c: Condition): (b: bool)
    ensures b ==> 0 <= i < j <= |ts|
    decreases j - i, 2
  {
    || DNotFactor(pf, ts, i, j, c)
    || (c.Logical? && c.op == OpAnd
        && exists k :: i <= k < j && IsKw(ts, k, AND)
             && DAndTerm(pf, ts, i, k, c.left) && DNotFactor(pf, ts, k + 1, j, c.right))
  }

  /** not_factor : factor | NOT factor */
  ghost function DNotFactor(pf: FloatParser, ts: seq<Token>, i: int, j: int, c: Condition): (b: bool)
    ensures b ==> 0 <= i < j <= |ts|
    decreases j - i, 1
  {
    || DFactor(pf, ts, i, j, c)
    || (c.Not? && i < j && IsKw(ts, i, NOT) && DFactor(pf, ts, i + 1, j, c.cond))
  }

  /** factor : predicate | ( condition ) */
  ghost function DFactor(pf: FloatParser, ts: seq<Token>, i: int, j: int, c: Condition): (b: bool)
    ensures b ==> 0 <= i < j <= |ts|
    decreases j - i, 0
  {
    || DPredicate(pf, ts, i, j, c)
    || (i + 1 < j && Is(ts, i, TokLParen) && Is(ts, j - 1, TokRParen)
        && DCondition(pf, ts, i + 1, j - 1, c))
  }

  // ---------- The clauses of a query ----------

  /** What an item selects: column | AGG ( column ) | COUNT ( * ) */
  ghost predicate DSelectBase(ts: seq<Token>, i: int, j: int, x: SelectItem) {
    || (x.agg == "" && !x.star && DColumn(ts, i, j, x.column))
    || exists k :: IsAggregate(k) && IsKw(ts, i, k) && x.agg == KwText(k)
         && Is(ts, i + 1, TokLParen) && Is(ts, j - 1, TokRParen)
         && if x.star then k == COUNT && j == i + 4 && Is(ts, i + 2, TokStar) && x.column == NO_COLUMN
            else DColumn(ts, i + 2, j - 1, x.column)
  }

  ghost predicate DSelectItem(ts: seq<Token>, i: int, j: int, x: SelectItem) {
    || (x.alias == "" && DSelectBase(ts, i, j, x))
    || (IsKw(ts, j - 2, AS) && Is(ts, j - 1, TokIdent(x.alias)) && DSelectBase(ts, i, j - 2, x))
  }

  ghost function DSelectList(ts: seq<Token>, i: int, j: int, xs: seq<SelectItem>): (b: bool)
    ensures b ==> 0 <= i < j <= |ts|
    decreases |xs|
  {
    && |xs| > 0
    && exists k :: DSelectItem(ts, i, k, xs[0]) &&
         if |xs| == 1 then j == k
         else Is(ts, k, TokComma) && DSelectList(ts, k + 1, j, xs[1..])
  }

  ghost predicate DSelect(ts: seq<Token>, i: int, j: int, star: bool, xs: seq<SelectItem>) {
    if star then j == i + 1 && Is(ts, i, TokStar) && xs == [] else DSelectList(ts, i, j, xs)
  }

  /** table [[AS] alias] */
  ghost predicate DTableRef(ts: seq<Token>, i: int, j: int, t: TableRef) {
    && Is(ts, i, TokIdent(t.name))
    && (|| (j == i + 1 && t.alias == "")
        || (j == i + 2 && Is(ts, i + 1, TokIdent(t.alias)))
        || (j == i + 3 && IsKw(ts, i + 1, AS) && Is(ts, i + 2, TokIdent(t.alias))))
  }

  /** [INNER | LEFT [OUTER] | RIGHT [OUTER]] JOIN */
  ghost predicate DJoinType(ts: seq<Token>, i: int, j: int, k: JoinType) {
    && IsKw(ts, j - 1, JOIN)
    && match k
       case InnerJoin => j == i + 1 || (j == i + 2 && IsKw(ts, i, INNER))
       case LeftJoin =>
         IsKw(ts, i, LEFT) && (j == i + 2 || (j == i + 3 && IsKw(ts, i + 1, OUTER)))
       case RightJoin =>
         IsKw(ts, i, RIGHT) && (j == i + 2 || (j == i + 3 && IsKw(ts, i + 1, OUTER)))
  }

  ghost function DJoin(pf: FloatParser, ts: seq<Token>, i: int, j: int, x: Join): (b: bool)
    ensures b ==> 0 <= i < j <= |ts|
  {
    exists a, b ::
      && DJoinType(ts, i, a, x.kind) && DTableRef(ts, a, b, x.table)
      && IsKw(ts, b, ON) && DCondition(pf, ts, b + 1, j, x.on)
  }

  ghost function DJoins(pf: FloatParser, ts: seq<Token>, i: int, j: int, xs: seq<Join>): (b: bool)
    ensures b ==> i <= j
    decreases |xs|
  {
    if xs == [] then i == j
    else exists k :: DJoin(pf, ts, i, k, xs[0]) && DJoins(pf, ts, k, j, xs[1..])
  }

  ghost function DWhere(pf: FloatParser, ts: seq<Token>, i: int, j: int, w: Option<Condition>): (b: bool)
    ensures b ==> i <= j
  {
    match w
    case None => i == j
    case Some(c) => IsKw(ts, i, WHERE) && DCondition(pf, ts, i + 1, j, c)
  }

  ghost function DGroupBy(ts: seq<Token>, i: int, j: int, cs: seq<Column>): (b: bool)
    ensures b ==> i <= j
  {
    if cs == [] then i == j
    else IsKw(ts, i, GROUP) && IsKw(ts, i + 1, BY) && DColumns(ts, i + 2, j, cs)
  }

  /** column [ASC | DESC] */
  ghost predicate DOrderItem(ts: seq<Token>, i: int, j: int, x: OrderItem) {
    || (!x.desc && DColumn(ts, i, j, x.column))
    || (IsKw(ts, j - 1, if x.desc then DESC else ASC) && DColumn(ts, i, j - 1, x.column))
  }

  ghost function DOrderItems(ts: seq<Token>, i: int, j: int, xs: seq<OrderItem>): (b: bool)
    ensures b ==> 0 <= i < j <= |ts|
    decreases |xs|
  {
    && |xs| > 0
    && exists k :: DOrderItem(ts, i, k, xs[0]) &&
         if |xs| == 1 then j == k
         else Is(ts, k, TokComma) && DOrderItems(ts, k + 1, j, xs[1..])
  }

  ghost function DOrderBy(ts: seq<Token>, i: int, j: int, xs: seq<OrderItem>): (b: bool)
    ensures b ==> i <= j
  {
    if xs == [] then i == j
    else IsKw(ts, i, ORDER) && IsKw(ts, i + 1, BY) && DOrderItems(ts, i + 2, j, xs)
  }

  ghost predicate DNonNegInt(ts: seq<Token>, i: int, n: int) {
    0 <= i < |ts| && NonNegIntOf(ts[i].lex) == Some(n)
  }

  /** [LIMIT n [OFFSET n]] */
  ghost function DLimit(ts: seq<Token>, i: int, j: int, limit: Option<int>, offset: Option<int>): (b: bool)
    ensures b ==> i <= j
  {
    match (limit, offset)
    case (None, None) => i == j
    case (None, Some(_)) => false
    case (Some(n), None) => j == i + 2 && IsKw(ts, i, LIMIT) && DNonNegInt(ts, i + 1, n)
    case (Some(n), Some(m)) =>
      && j == i + 4 && IsKw(ts, i, LIMIT) && DNonNegInt(ts, i + 1, n)
      && IsKw(ts, i + 2, OFFSET) && DNonNegInt(ts, i + 3, m)
  }

  /** The ends of the clauses, in order: SELECT, FROM, joins, WHERE, GROUP BY, ORDER BY. */
  datatype Cuts = Cuts(select: int, from: int, joins: int, where: int, group: int, order: int)

  ghost predicate DQueryAt(pf: FloatParser, ts: seq<Token>, i: int, at: Cuts, j: int, q: Query) {
    && IsKw(ts, i, SELECT) && DSelect(ts, i + 1, at.select, q.star, q.columns)
    && IsKw(ts, at.select, FROM) && DTableRef(ts, at.select + 1, at.from, q.from)
    && DJoins(pf, ts, at.from, at.joins, q.joins)
    && DWhere(pf, ts, at.joins, at.where, q.where)
    && DGroupBy(ts, at.where, at.group, q.groupBy)
    && DOrderBy(ts, at.group, at.order, q.orderBy)
    && DLimit(ts, at.order, j, q.limit, q.offset)
  }

  ghost predicate DQuery(pf: FloatParser, ts: seq<Token>, i: int, j: int, q: Query) {
    exists at :: DQueryAt(pf, ts, i, at, j, q)
  }

  /** The whole stream, up to its EOF, is a query. */
  ghost predicate Derives(pf: FloatParser, ts: seq<Token>, q: Query) {
    DQuery(pf, ts, 0, |ts| - 1, q)
  }
}
