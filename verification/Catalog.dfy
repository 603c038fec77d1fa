/**
 Name resolution.  The functions say what resolution computes from the bindings; the
 class `Resolver` is the object that builds the scope and rewrites the query in place.
 */
module Catalog {
  import opened Common
  import opened Chars
  import opened Ast

  /** Table names, and the column names of each table in schema order. */
  datatype Catalog = Catalog(tables: seq<string>, columns: map<string, seq<string>>) {
    function Columns(table: string): seq<string> {
      if table in columns then columns[table] else []
    }
  }

  /** The first name equal to `key` once lower-cased. */
  function First(names: seq<string>, key: string): (r: Option<string>)
    ensures r.Some? ==> r.value in names && Lower(r.value) == key
  {
    if names == [] then None
    else if Lower(names[0]) == key then Some(names[0])
    else First(names[1..], key)
  }

  lemma {:induction false} FirstAppend(names: seq<string>, x: string, key: string)
    ensures First(names + [x], key) ==
      if First(names, key).Some? then First(names, key)
      else if Lower(x) == key then Some(x) else None
    decreases |names|
  {
    if names == [] {
      assert ([x])[1..] == [];
    } else {
      assert (names + [x])[1..] == names[1..] + [x];
      FirstAppend(names[1..], x, key);
    }
  }

  lemma {:induction false} FirstOfAll(names: seq<string>)
    requires names != []
    ensures var n := |names| - 1;
            forall k :: First(names, k) ==
              (if First(names[..n], k).Some? then First(names[..n], k)
               else if Lower(names[n]) == k then Some(names[n]) else None)
  {
    var n := |names| - 1;
    assert names == names[..n] + [names[n]];
    forall k {
      FirstAppend(names[..n], names[n], k);
    }
  }

  /** Lower-case name to first spelling. */
  function CanonMap(names: seq<string>): (m: map<string, string>)
    ensures forall k :: k in m <==> First(names, k).Some?
    ensures forall k <- m :: First(names, k) == Some(m[k])
  {
    if names == [] then map[]
    else
      var n := |names| - 1;
      var m := CanonMap(names[..n]);
      var key := Lower(names[n]);
      FirstOfAll(names);
      if key in m then m else m[key := names[n]]
  }

  method BuildCanonMap(names: seq<string>) returns (m: map<string, string>)
    ensures m == CanonMap(names)
  {
    m := map[];
    for i := 0 to |names|
      invariant m == CanonMap(names[..i])
    {
      assert names[..i + 1][..i] == names[..i];
      var key := Lower(names[i]);
      if key !in m {
        m := m[key := names[i]];
      }
    }
    assert names[..|names|] == names;
  }

  // ---------- Bindings ----------

  datatype Binding = Binding(name: string, columns: map<string, string>)

  /** The canonical spelling of the table a reference names. */
  function Canonical(cat: Catalog, t: TableRef): Option<string> {
    if ValidIdent(t.name) && (t.alias == "" || ValidIdent(t.alias)) then
      First(cat.tables, Lower(t.name))
    else None
  }

  function ResolvedRef(cat: Catalog, t: TableRef): TableRef
    requires Canonical(cat, t).Some?
  {
    TableRef(Canonical(cat, t).value, t.alias)
  }

  /** The name a table is addressed by. */
  function BindName(cat: Catalog, t: TableRef): string
    requires Canonical(cat, t).Some?
  {
    if t.alias != "" then t.alias else Canonical(cat, t).value
  }

  function BindingOf(cat: Catalog, t: TableRef): Binding
    requires Canonical(cat, t).Some?
  {
    Binding(BindName(cat, t), CanonMap(cat.Columns(Canonical(cat, t).value)))
  }

  /** Every table is known, and no two binding names agree ignoring case. */
  ghost predicate Bindable(cat: Catalog, ts: seq<TableRef>) {
    && (forall i :: 0 <= i < |ts| ==> Canonical(cat, ts[i]).Some?)
    && forall i, j :: 0 <= i < j < |ts| ==>
         Lower(BindName(cat, ts[i])) != Lower(BindName(cat, ts[j]))
  }

  ghost function BindingsOf(cat: Catalog, ts: seq<TableRef>): seq<Binding>
    requires Bindable(cat, ts)
  {
    seq(|ts|, i requires 0 <= i < |ts| => BindingOf(cat, ts[i]))
  }

  ghost predicate DistinctNames(bs: seq<Binding>) {
    forall i, j :: 0 <= i < j < |bs| ==> Lower(bs[i].name) != Lower(bs[j].name)
  }

  /** The AS names of a select list; empty where there is none. */
  function Aliases(xs: seq<SelectItem>): (names: seq<string>)
    ensures |names| == |xs| && forall i :: 0 <= i < |xs| ==> names[i] == xs[i].alias
  {
    seq(|xs|, i requires 0 <= i < |xs| => xs[i].alias)
  }

  /** The last alias equal to `key` once lower-cased. */
  function AliasOf(names: seq<string>, key: string): Option<string> {
    if names == [] then None
    else
      var a := names[|names| - 1];
      if a != "" && Lower(a) == key then Some(a) else AliasOf(names[..|names| - 1], key)
  }

  // ---------- Column references ----------

  datatype Lookup = Found(col: Column) | Unknown | Ambiguous | Invalid

  datatype Scope = Scope(bindings: seq<Binding>, aliases: seq<string>)

  predicate WellNamed(c: Column) {
    ValidIdent(c.name) && (c.table == "" || ValidIdent(c.table))
  }

  /** The column of binding `b` that the reference `c` may denote. */
  function ColumnIn(b: Binding, c: Column): Option<Column> {
    if (c.table == "" || Lower(c.table) == Lower(b.name)) && Lower(c.name) in b.columns then
      Some(Column(b.name, b.columns[Lower(c.name)]))
    else None
  }

  function LookupFrom(bs: seq<Binding>, c: Column, i: nat, found: Option<Column>): Lookup
    requires i <= |bs|
    decreases |bs| - i
  {
    if i == |bs| then
      (match found case Some(col) => Found(col) case None => Unknown)
    else
      match ColumnIn(bs[i], c)
      case None => LookupFrom(bs, c, i + 1, found)
      case Some(col) => if found.Some? then Ambiguous else LookupFrom(bs, c, i + 1, Some(col))
  }

  /** What a reference denotes: a column of the only binding that has it, or an alias. */
  function LookupColumn(s: Scope, c: Column, allowAlias: bool): Lookup {
    if !WellNamed(c) then Invalid
    else if c.table == "" && allowAlias && AliasOf(s.aliases, Lower(c.name)).Some? then
      Found(Column("", AliasOf(s.aliases, Lower(c.name)).value))
    else LookupFrom(s.bindings, c, 0, None)
  }

  function ResolveRef(s: Scope, c: Column, allowAlias: bool): Option<Column> {
    match LookupColumn(s, c, allowAlias)
    case Found(col) => Some(col)
    case _ => None
  }

  function Rewrite(s: Scope, c: Condition): Option<Condition> {
    match c
    case Logical(op, l, r) =>
      var left :- Rewrite(s, l);
      var right :- Rewrite(s, r);
      Some(Logical(op, left, right))
    case Not(d) =>
      var inner :- Rewrite(s, d);
      Some(Not(inner))
    case Comparison(col, op, rhs) =>
      var left :- ResolveRef(s, col, false);
      (match rhs
       case ValOperand(_) => Some(Comparison(left, op, rhs))
       case ColOperand(r) =>
         var right :- ResolveRef(s, r, false);
         Some(Comparison(left, op, ColOperand(right))))
    case In(col, vals) =>
      var left :- ResolveRef(s, col, false);
      Some(In(left, vals))
    case Like(col, pattern) =>
      var left :- ResolveRef(s, col, false);
      Some(Like(left, pattern))
    case IsNull(col, negate) =>
      var left :- ResolveRef(s, col, false);
      Some(IsNull(left, negate))
    case Between(col, low, high) =>
      var left :- ResolveRef(s, col, false);
      Some(Between(left, low, high))
  }

  function ResolveItem(s: Scope, x: SelectItem): Option<SelectItem> {
    if x.star then Some(x)
    else
      var col :- ResolveRef(s, x.column, false);
      Some(x.(column := col))
  }

  function ResolveOrder(s: Scope, x: OrderItem): Option<OrderItem> {
    var col :- ResolveRef(s, x.column, true);
    Some(x.(column := col))
  }

  function JoinTables(q: Query): (ts: seq<TableRef>)
    ensures |ts| == 1 + |q.joins| && ts[0] == q.from
    ensures forall i :: 0 <= i < |q.joins| ==> ts[i + 1] == q.joins[i].table
  {
    [q.from] + seq(|q.joins|, i requires 0 <= i < |q.joins| => q.joins[i].table)
  }

  ghost function ScopeOf(cat: Catalog, q: Query): Scope
    requires Bindable(cat, JoinTables(q))
  {
    Scope(BindingsOf(cat, JoinTables(q)), Aliases(q.columns))
  }

  ghost predicate ItemsResolved(s: Scope, xs: seq<SelectItem>, ys: seq<SelectItem>) {
    |ys| == |xs| && forall i :: 0 <= i < |xs| ==> ResolveItem(s, xs[i]) == Some(ys[i])
  }

  /** The join `x` with its condition rewritten is `y`. */
  ghost predicate OnResolved(s: Scope, x: Join, y: Join) {
    Rewrite(s, x.on).Some? && y == x.(on := Rewrite(s, x.on).value)
  }

  ghost predicate OnsResolved(s: Scope, xs: seq<Join>, ys: seq<Join>) {
    |ys| == |xs| && forall i :: 0 <= i < |xs| ==> OnResolved(s, xs[i], ys[i])
  }

  ghost predicate GroupByResolved(s: Scope, xs: seq<Column>, ys: seq<Column>) {
    |ys| == |xs| && forall i :: 0 <= i < |xs| ==> ResolveRef(s, xs[i], true) == Some(ys[i])
  }

  ghost predicate OrderByResolved(s: Scope, xs: seq<OrderItem>, ys: seq<OrderItem>) {
    |ys| == |xs| && forall i :: 0 <= i < |xs| ==> ResolveOrder(s, xs[i]) == Some(ys[i])
  }

  /** The joins with their tables in canonical spelling. */
  ghost function CanonicalJoins(cat: Catalog, q: Query): (xs: seq<Join>)
    requires Bindable(cat, JoinTables(q))
    ensures |xs| == |q.joins|
    ensures forall i :: 0 <= i < |xs| ==> xs[i].kind == q.joins[i].kind && xs[i].on == q.joins[i].on
  {
    seq(|q.joins|, i requires 0 <= i < |q.joins| =>
      q.joins[i].(table := ResolvedRef(cat, JoinTables(q)[i + 1])))
  }

  /** `q'` is `q` with all its tables and references resolved. */
  ghost predicate QueryResolved(cat: Catalog, q: Query, q': Query) {
    && Bindable(cat, JoinTables(q))
    && var s := ScopeOf(cat, q);
    && q'.from == ResolvedRef(cat, JoinTables(q)[0])
    && ItemsResolved(s, q.columns, q'.columns)
    && OnsResolved(s, CanonicalJoins(cat, q), q'.joins)
    && (if q.where.None? then q'.where.None?
        else q'.where.Some? && Rewrite(s, q.where.value) == q'.where)
    && GroupByResolved(s, q.groupBy, q'.groupBy)
    && OrderByResolved(s, q.orderBy, q'.orderBy)
    && q'.star == q.star && q'.limit == q.limit && q'.offset == q.offset
  }

  /** Every table and reference of `q` can be resolved. */
  ghost predicate CanResolve(cat: Catalog, q: Query) {
    && Bindable(cat, JoinTables(q))
    && var s := ScopeOf(cat, q);
    && (forall i :: 0 <= i < |q.columns| ==> ResolveItem(s, q.columns[i]).Some?)
    && (forall i :: 0 <= i < |q.joins| ==> Rewrite(s, q.joins[i].on).Some?)
    && (q.where.Some? ==> Rewrite(s, q.where.value).Some?)
    && (forall i :: 0 <= i < |q.groupBy| ==> ResolveRef(s, q.groupBy[i], true).Some?)
    && (forall i :: 0 <= i < |q.orderBy| ==> ResolveOrder(s, q.orderBy[i]).Some?)
  }
}
