/** Laws of resolution: idempotent, blind to letter case and to table order, keeps the
    parsed-query invariant, and names only real columns. */
module ResolutionLaws {
  import opened Common
  import opened Chars
  import opened Numbers
  import opened Tokens
  import opened Ast
  import opened Catalog
  import opened Resolution
  import opened WellFormed

  // ---------- Idempotence ----------

  lemma {:induction false} CanonicalStable(cat: Catalog, t: TableRef)
    requires Canonical(cat, t).Some?
    ensures Canonical(cat, ResolvedRef(cat, t)) == Canonical(cat, t)
    ensures BindName(cat, ResolvedRef(cat, t)) == BindName(cat, t)
    ensures ValidIdent(BindName(cat, t))
  {
    ValidIdentIgnoresCase(Canonical(cat, t).value, t.name);
  }

  /** The column a reference denotes denotes itself. */
  lemma {:induction false} DenotedStable(
      cat: Catalog, ts: seq<TableRef>, names: seq<string>, c: Column, al: bool, d: Column)
    requires Bindable(cat, ts) && RefersTo(cat, ts, names, c, al, d)
    ensures RefersTo(cat, ts, names, d, al, d)
    ensures Lower(d.name) == Lower(c.name)
  {
    AliasOfExact(names, Lower(c.name));
    if al && c.table == "" && IsAlias(names, Lower(c.name)) {
      ValidIdentIgnoresCase(d.name, c.name);
    } else {
      var i :| OnlyCandidate(cat, ts, c, i) && IsColumnOf(cat, ts[i], c, d);
      ValidIdentIgnoresCase(d.name, c.name);
      CanonicalStable(cat, ts[i]);
      OwnedByOne(cat, ts, c, d, i);
    }
  }

  lemma {:induction false} OwnedByOne(cat: Catalog, ts: seq<TableRef>, c: Column, d: Column, i: int)
    requires Bindable(cat, ts) && OnlyCandidate(cat, ts, c, i) && IsColumnOf(cat, ts[i], c, d)
    requires d.table != ""
    ensures OnlyCandidate(cat, ts, d, i) && IsColumnOf(cat, ts[i], d, d)
  {
    hide Canonical;
    assert Candidate(cat, ts[i], c);
    assert forall k :: 0 <= k < |ts| && k != i ==>
      Lower(BindName(cat, ts[k])) != Lower(BindName(cat, ts[i]));
  }

  /** A qualified reference does not depend on whether aliases are allowed. */
  lemma {:induction false} CondDenotedStable(
      cat: Catalog, ts: seq<TableRef>, names: seq<string>, c: Condition, d: Condition)
    requires Bindable(cat, ts) && CondRefersTo(cat, ts, names, c, d)
    ensures CondRefersTo(cat, ts, names, d, d)
    decreases c
  {
    hide Bindable, RefersTo;
    match c {
      case Logical(_, l, r) =>
        CondDenotedStable(cat, ts, names, l, d.left);
        CondDenotedStable(cat, ts, names, r, d.right);
      case Not(e) => CondDenotedStable(cat, ts, names, e, d.cond);
      case Comparison(col, _, ColOperand(r)) =>
        DenotedStable(cat, ts, names, col, false, d.col);
        DenotedStable(cat, ts, names, r, false, d.rhs.col);
      case _ => DenotedStable(cat, ts, names, c.col, false, d.col);
    }
  }

  /** Two lists of table references that bind to the same tables under the same names. */
  ghost predicate SameTables(cat: Catalog, ts: seq<TableRef>, us: seq<TableRef>) {
    && |us| == |ts|
    && forall i :: 0 <= i < |ts| ==>
         && Canonical(cat, us[i]) == Canonical(cat, ts[i])
         && (Canonical(cat, ts[i]).Some? ==> BindName(cat, us[i]) == BindName(cat, ts[i]))
  }

  lemma {:induction false} SameTablesSameBindings(cat: Catalog, ts: seq<TableRef>, us: seq<TableRef>)
    requires SameTables(cat, ts, us)
    ensures Bindable(cat, us) <==> Bindable(cat, ts)
    ensures Bindable(cat, ts) ==> BindingsOf(cat, us) == BindingsOf(cat, ts)
  {
    hide Canonical, Lower;
  }

  lemma {:induction false} SameTablesSameMeaning(cat: Catalog, ts: seq<TableRef>, us: seq<TableRef>, names: seq<string>)
    requires SameTables(cat, ts, us) && Bindable(cat, ts)
    ensures forall c, al, d :: RefersTo(cat, us, names, c, al, d) <==> RefersTo(cat, ts, names, c, al, d)
    ensures forall c, d :: CondRefersTo(cat, us, names, c, d) <==> CondRefersTo(cat, ts, names, c, d)
  {
    SameTablesSameBindings(cat, ts, us);
    forall c, al, d
      ensures RefersTo(cat, us, names, c, al, d) <==> RefersTo(cat, ts, names, c, al, d)
    {
      LookupExact(cat, ts, names, c, al, d);
      LookupExact(cat, us, names, c, al, d);
    }
    forall c, d
      ensures CondRefersTo(cat, us, names, c, d) <==> CondRefersTo(cat, ts, names, c, d)
    {
      RewriteExact(cat, ts, names, c, d);
      RewriteExact(cat, us, names, c, d);
    }
  }

  /** Resolving a resolved query changes nothing. */
  lemma {:induction false} ResolveIdempotent(cat: Catalog, q: Query, p: Query)
    requires Resolves(cat, q, p)
    ensures Resolves(cat, p, p)
  {
    var ts, us, names := JoinTables(q), JoinTables(p), Aliases(q.columns);
    assert Aliases(p.columns) == names;
    forall i | 0 <= i < |ts|
      ensures us[i] == ResolvedRef(cat, ts[i])
      ensures Canonical(cat, us[i]) == Canonical(cat, ts[i]) && BindName(cat, us[i]) == BindName(cat, ts[i])
      ensures ResolvedRef(cat, us[i]) == us[i]
    {
      CanonicalStable(cat, ts[i]);
    }
    SameTablesSameBindings(cat, ts, us);
    SameTablesSameMeaning(cat, ts, us, names);
    forall c, al, d | RefersTo(cat, ts, names, c, al, d)
      ensures RefersTo(cat, us, names, d, al, d)
    {
      DenotedStable(cat, ts, names, c, al, d);
    }
    forall c, d | CondRefersTo(cat, ts, names, c, d)
      ensures CondRefersTo(cat, us, names, d, d)
    {
      CondDenotedStable(cat, ts, names, c, d);
    }
    hide Bindable, RefersTo, CondRefersTo, ResolvedRef, BindName, Canonical;
  }

  // ---------- Letter case ----------

  ghost predicate SameColumn(c: Column, d: Column) {
    SameName(c.table, d.table) && SameName(c.name, d.name)
  }

  ghost predicate SameTable(t: TableRef, u: TableRef) {
    SameName(t.name, u.name) && t.alias == u.alias
  }

  /** The conditions differ at most in the letter case of their references. */
  ghost predicate SameCondition(c: Condition, d: Condition) {
    match c
    case Logical(op, l, r) => d.Logical? && d.op == op && SameCondition(l, d.left) && SameCondition(r, d.right)
    case Not(e) => d.Not? && SameCondition(e, d.cond)
    case Comparison(col, op, ColOperand(r)) =>
      d.Comparison? && d.cmp == op && d.rhs.ColOperand? && SameColumn(col, d.col) && SameColumn(r, d.rhs.col)
    case Comparison(col, op, ValOperand(v)) =>
      d.Comparison? && d.cmp == op && d.rhs == c.rhs && SameColumn(col, d.col)
    case In(col, vals) => d.In? && d.vals == vals && SameColumn(col, d.col)
    case Like(col, pattern) => d.Like? && d.pattern == pattern && SameColumn(col, d.col)
    case IsNull(col, negate) => d.IsNull? && d.negate == negate && SameColumn(col, d.col)
    case Between(col, low, high) => d.Between? && d.low == low && d.high == high && SameColumn(col, d.col)
  }

  ghost predicate SameItem(x: SelectItem, y: SelectItem) {
    y == x.(column := y.column) && if x.star then y == x else SameColumn(x.column, y.column)
  }

  /** The queries differ at most in the letter case of their references. */
  ghost predicate SameQuery(p: Query, q: Query) {
    && p.star == q.star && p.limit == q.limit && p.offset == q.offset
    && SameTable(p.from, q.from)
    && |p.columns| == |q.columns|
    && (forall i :: 0 <= i < |p.columns| ==> SameItem(p.columns[i], q.columns[i]))
    && |p.joins| == |q.joins|
    && (forall i :: 0 <= i < |p.joins| ==>
          && p.joins[i].kind == q.joins[i].kind
          && SameTable(p.joins[i].table, q.joins[i].table)
          && SameCondition(p.joins[i].on, q.joins[i].on))
    && p.where.Some? == q.where.Some?
    && (p.where.Some? ==> SameCondition(p.where.value, q.where.value))
    && |p.groupBy| == |q.groupBy|
    && (forall i :: 0 <= i < |p.groupBy| ==> SameColumn(p.groupBy[i], q.groupBy[i]))
    && |p.orderBy| == |q.orderBy|
    && (forall i :: 0 <= i < |p.orderBy| ==>
          && SameColumn(p.orderBy[i].column, q.orderBy[i].column)
          && p.orderBy[i].desc == q.orderBy[i].desc)
  }

  lemma {:induction false} SameTableSameCanonical(cat: Catalog, t: TableRef, u: TableRef)
    requires SameTable(t, u)
    ensures Canonical(cat, t) == Canonical(cat, u)
    ensures Canonical(cat, t).Some? ==> ResolvedRef(cat, t) == ResolvedRef(cat, u)
  {
    CaseExactly(t.name, u.name);
    ValidIdentIgnoresCase(t.name, u.name);
  }

  lemma {:induction false} SameColumnSameMeaning(s: Scope, c: Column, d: Column, al: bool)
    requires SameColumn(c, d)
    ensures ResolveRef(s, c, al) == ResolveRef(s, d, al)
  {
    hide SameName;
    CaseExactly(c.name, d.name);
    CaseExactly(c.table, d.table);
    ValidIdentIgnoresCase(c.name, d.name);
    ValidIdentIgnoresCase(c.table, d.table);
    assert |c.table| == |Lower(c.table)| == |d.table|;
    SameScan(s.bindings, c, d, 0, None);
  }

  lemma {:induction false} SameScan(bs: seq<Binding>, c: Column, d: Column, i: nat, found: Option<Column>)
    requires SameColumn(c, d) && i <= |bs|
    ensures LookupFrom(bs, c, i, found) == LookupFrom(bs, d, i, found)
    decreases |bs| - i
  {
    CaseExactly(c.name, d.name);
    CaseExactly(c.table, d.table);
    if i < |bs| {
      assert |c.table| == |Lower(c.table)| == |d.table|;
      assert ColumnIn(bs[i], c) == ColumnIn(bs[i], d);
      SameScan(bs, c, d, i + 1, if found.None? then ColumnIn(bs[i], c) else found);
    }
  }

  lemma {:induction false} SameConditionSameRewrite(s: Scope, c: Condition, d: Condition)
    requires SameCondition(c, d)
    ensures Rewrite(s, c) == Rewrite(s, d)
    decreases c
  {
    hide ResolveRef, SameColumn;
    match c {
      case Logical(_, l, r) =>
        SameConditionSameRewrite(s, l, d.left);
        SameConditionSameRewrite(s, r, d.right);
      case Not(e) => SameConditionSameRewrite(s, e, d.cond);
      case Comparison(col, _, ColOperand(r)) =>
        SameColumnSameMeaning(s, col, d.col, false);
        SameColumnSameMeaning(s, r, d.rhs.col, false);
      case _ => SameColumnSameMeaning(s, c.col, d.col, false);
    }
  }

  /** Part by part, the two queries are rewritten alike in the common scope. */
  lemma {:induction false} SameParts(cat: Catalog, p: Query, q: Query)
    requires SameQuery(p, q) && Bindable(cat, JoinTables(p))
    ensures var s := ScopeOf(cat, p);
      && (forall i :: 0 <= i < |p.columns| ==> ResolveItem(s, p.columns[i]) == ResolveItem(s, q.columns[i]))
      && (forall i :: 0 <= i < |p.joins| ==> Rewrite(s, p.joins[i].on) == Rewrite(s, q.joins[i].on))
      && (p.where.Some? ==> Rewrite(s, p.where.value) == Rewrite(s, q.where.value))
      && (forall i :: 0 <= i < |p.groupBy| ==>
            ResolveRef(s, p.groupBy[i], true) == ResolveRef(s, q.groupBy[i], true))
      && (forall i :: 0 <= i < |p.orderBy| ==> ResolveOrder(s, p.orderBy[i]) == ResolveOrder(s, q.orderBy[i]))
  {
    var s := ScopeOf(cat, p);
    forall c, d, al | SameColumn(c, d) {
      SameColumnSameMeaning(s, c, d, al);
    }
    forall c, d | SameCondition(c, d) {
      SameConditionSameRewrite(s, c, d);
    }
    hide ResolveRef, Rewrite, SameColumn, SameCondition, Bindable, ScopeOf;
  }

  lemma {:induction false} SameQuerySameTables(cat: Catalog, p: Query, q: Query)
    requires SameQuery(p, q)
    ensures SameTables(cat, JoinTables(p), JoinTables(q))
    ensures Aliases(p.columns) == Aliases(q.columns)
    ensures Bindable(cat, JoinTables(p)) <==> Bindable(cat, JoinTables(q))
    ensures Bindable(cat, JoinTables(p)) ==>
      ScopeOf(cat, p) == ScopeOf(cat, q)
      && ResolvedRef(cat, JoinTables(p)[0]) == ResolvedRef(cat, JoinTables(q)[0])
      && forall i :: 0 <= i < |p.joins| ==>
           CanonicalJoins(cat, p)[i].table == CanonicalJoins(cat, q)[i].table
  {
    var ts, us := JoinTables(p), JoinTables(q);
    forall i | 0 <= i < |ts|
      ensures Canonical(cat, ts[i]) == Canonical(cat, us[i])
      ensures Canonical(cat, ts[i]).Some? ==>
        ResolvedRef(cat, ts[i]) == ResolvedRef(cat, us[i]) && BindName(cat, ts[i]) == BindName(cat, us[i])
    {
      SameTableSameCanonical(cat, ts[i], us[i]);
    }
    SameTablesSameBindings(cat, ts, us);
  }

  lemma {:induction false} SameQuerySameResult(cat: Catalog, p: Query, q: Query, r: Query)
    requires SameQuery(p, q) && QueryResolved(cat, p, r)
    ensures QueryResolved(cat, q, r)
  {
    SameQuerySameTables(cat, p, q);
    SameParts(cat, p, q);
    hide SameItem, SameTable, SameCondition, SameColumn, SameTables, Bindable, BindingsOf, Canonical,
         ResolvedRef, Rewrite, ResolveItem, ResolveOrder, ResolveRef, ScopeOf;
    forall i | 0 <= i < |q.joins|
      ensures OnResolved(ScopeOf(cat, q), CanonicalJoins(cat, q)[i], r.joins[i])
    {
      assert OnResolved(ScopeOf(cat, p), CanonicalJoins(cat, p)[i], r.joins[i]);
    }
  }

  lemma {:induction false} SameQuerySymmetric(p: Query, q: Query)
    requires SameQuery(p, q)
    ensures SameQuery(q, p)
  {
    forall c, d | SameCondition(c, d)
      ensures SameCondition(d, c)
    {
      SameConditionSymmetric(c, d);
    }
  }

  lemma {:induction false} SameConditionSymmetric(c: Condition, d: Condition)
    requires SameCondition(c, d)
    ensures SameCondition(d, c)
    decreases c
  {
    match c {
      case Logical(_, l, r) =>
        SameConditionSymmetric(l, d.left);
        SameConditionSymmetric(r, d.right);
      case Not(e) => SameConditionSymmetric(e, d.cond);
      case _ =>
    }
  }

  lemma {:induction false} SameQuerySameSuccess(cat: Catalog, p: Query, q: Query)
    requires SameQuery(p, q) && CanResolve(cat, p)
    ensures CanResolve(cat, q)
  {
    SameQuerySameTables(cat, p, q);
    SameParts(cat, p, q);
    hide SameItem, SameTable, SameCondition, SameColumn, SameTables, Bindable, BindingsOf, Canonical,
         ResolvedRef, Rewrite, ResolveItem, ResolveOrder, ResolveRef, ScopeOf, CanonicalJoins;
  }

  /** Queries that differ only in the case of references both fail, or resolve alike. */
  lemma {:induction false} ResolveIgnoresCase(cat: Catalog, p: Query, q: Query, r: Query)
    requires SameQuery(p, q)
    ensures Resolves(cat, p, r) <==> Resolves(cat, q, r)
    ensures Resolvable(cat, p) <==> Resolvable(cat, q)
  {
    SameQuerySymmetric(p, q);
    ResolvesExact(cat, p, r);
    ResolvesExact(cat, q, r);
    ResolvableExact(cat, p);
    ResolvableExact(cat, q);
    hide *;
    if QueryResolved(cat, p, r) {
      SameQuerySameResult(cat, p, q, r);
    }
    if QueryResolved(cat, q, r) {
      SameQuerySameResult(cat, q, p, r);
    }
    if CanResolve(cat, p) {
      SameQuerySameSuccess(cat, p, q);
    }
    if CanResolve(cat, q) {
      SameQuerySameSuccess(cat, q, p);
    }
  }

  // ---------- The order of the tables ----------

  ghost predicate IsReordering(ts: seq<TableRef>, us: seq<TableRef>, perm: seq<nat>) {
    && |us| == |ts| == |perm|
    && (forall i :: 0 <= i < |perm| ==> perm[i] < |ts| && us[i] == ts[perm[i]])
    && (forall i, j :: 0 <= i < j < |perm| ==> perm[i] != perm[j])
    && forall k :: 0 <= k < |ts| ==> k in perm
  }

  lemma {:induction false} ReorderedBindable(cat: Catalog, ts: seq<TableRef>, us: seq<TableRef>, perm: seq<nat>)
    requires IsReordering(ts, us, perm) && Bindable(cat, ts)
    ensures Bindable(cat, us)
  {
    forall i, j | 0 <= i < j < |us|
      ensures Lower(BindName(cat, us[i])) != Lower(BindName(cat, us[j]))
    {
      var (a, b) := if perm[i] < perm[j] then (perm[i], perm[j]) else (perm[j], perm[i]);
      assert Lower(BindName(cat, ts[a])) != Lower(BindName(cat, ts[b]));
    }
  }

  /** Whatever order the tables are bound in, every reference denotes the same column. */
  lemma {:induction false} TableOrderIrrelevant(
      cat: Catalog, ts: seq<TableRef>, us: seq<TableRef>, perm: seq<nat>,
      names: seq<string>, c: Column, al: bool, d: Column)
    requires IsReordering(ts, us, perm)
    ensures RefersTo(cat, ts, names, c, al, d) <==> RefersTo(cat, us, names, c, al, d)
  {
    hide Candidate, IsColumnOf, IsAlias, WellNamed;
    if i :| OnlyCandidate(cat, us, c, i) && IsColumnOf(cat, us[i], c, d) {
      assert OnlyCandidate(cat, ts, c, perm[i]) by {
        forall k | 0 <= k < |ts|
          ensures Candidate(cat, ts[k], c) <==> k == perm[i]
        {
          assert k in perm;
          var m :| 0 <= m < |perm| && perm[m] == k;
          assert us[m] == ts[k];
        }
      }
    }
    if k :| OnlyCandidate(cat, ts, c, k) && IsColumnOf(cat, ts[k], c, d) {
      assert k in perm;
      var i :| 0 <= i < |perm| && perm[i] == k;
      assert OnlyCandidate(cat, us, c, i) by {
        forall m | 0 <= m < |us|
          ensures Candidate(cat, us[m], c) <==> m == i
        {
          assert us[m] == ts[perm[m]];
        }
      }
    }
  }

  lemma {:induction false} TableOrderDenotable(
      cat: Catalog, ts: seq<TableRef>, us: seq<TableRef>, perm: seq<nat>,
      names: seq<string>, c: Column, al: bool)
    requires IsReordering(ts, us, perm)
    ensures Denotable(cat, ts, names, c, al) <==> Denotable(cat, us, names, c, al)
  {
    hide RefersTo, IsReordering;
    forall d
      ensures RefersTo(cat, ts, names, c, al, d) <==> RefersTo(cat, us, names, c, al, d)
    {
      TableOrderIrrelevant(cat, ts, us, perm, names, c, al, d);
    }
  }

  /** So do all references of a condition. */
  lemma {:induction false} TableOrderOfCondition(
      cat: Catalog, ts: seq<TableRef>, us: seq<TableRef>, perm: seq<nat>,
      names: seq<string>, c: Condition, d: Condition)
    requires IsReordering(ts, us, perm)
    ensures CondRefersTo(cat, ts, names, c, d) <==> CondRefersTo(cat, us, names, c, d)
    ensures CondDenotable(cat, ts, names, c) <==> CondDenotable(cat, us, names, c)
    decreases c
  {
    hide RefersTo, Denotable, IsReordering;
    match c {
      case Logical(_, l, r) =>
        TableOrderOfCondition(cat, ts, us, perm, names, l, if d.Logical? then d.left else d);
        TableOrderOfCondition(cat, ts, us, perm, names, r, if d.Logical? then d.right else d);
      case Not(e) =>
        TableOrderOfCondition(cat, ts, us, perm, names, e, if d.Not? then d.cond else d);
      case Comparison(col, _, ColOperand(r)) =>
        TableOrderOfReference(cat, ts, us, perm, names, col);
        TableOrderOfReference(cat, ts, us, perm, names, r);
      case _ => TableOrderOfReference(cat, ts, us, perm, names, c.col);
    }
  }

  lemma {:induction false} TableOrderOfReference(
      cat: Catalog, ts: seq<TableRef>, us: seq<TableRef>, perm: seq<nat>, names: seq<string>, c: Column)
    requires IsReordering(ts, us, perm)
    ensures forall d :: RefersTo(cat, ts, names, c, false, d) <==> RefersTo(cat, us, names, c, false, d)
    ensures Denotable(cat, ts, names, c, false) <==> Denotable(cat, us, names, c, false)
  {
    hide RefersTo, Denotable, IsReordering;
    TableOrderDenotable(cat, ts, us, perm, names, c, false);
    forall d
      ensures RefersTo(cat, ts, names, c, false, d) <==> RefersTo(cat, us, names, c, false, d)
    {
      TableOrderIrrelevant(cat, ts, us, perm, names, c, false, d);
    }
  }

  /** The ON conditions of `p` all occur in `q`. */
  ghost predicate HasConditions(q: Query, p: Query) {
    forall i :: 0 <= i < |p.joins| ==> exists j :: 0 <= j < |q.joins| && q.joins[j].on == p.joins[i].on
  }

  /** The same query but for the order of its tables, and where its ON conditions stand. */
  ghost predicate IsReorderedQuery(p: Query, q: Query, perm: seq<nat>) {
    && IsReordering(JoinTables(p), JoinTables(q), perm)
    && HasConditions(p, q) && HasConditions(q, p)
    && q.columns == p.columns && q.where == p.where
    && q.groupBy == p.groupBy && q.orderBy == p.orderBy
  }

  /** A query can be resolved in every order of its tables or in none. */
  lemma {:induction false} ReorderedResolvable(cat: Catalog, p: Query, q: Query, perm: seq<nat>)
    requires IsReorderedQuery(p, q, perm)
    ensures Resolvable(cat, p) <==> Resolvable(cat, q)
  {
    hide Resolvable, IsReordering;
    if Resolvable(cat, p) {
      ReorderedStillResolvable(cat, p, q, perm);
    }
    if Resolvable(cat, q) {
      var back := ReorderedBack(JoinTables(p), JoinTables(q), perm);
      ReorderedStillResolvable(cat, q, p, back);
    }
  }

  lemma {:induction false} ReorderedStillResolvable(cat: Catalog, p: Query, q: Query, perm: seq<nat>)
    requires IsReorderedQuery(p, q, perm) && Resolvable(cat, p)
    ensures Resolvable(cat, q)
  {
    hide IsReordering, Bindable, Denotable, CondDenotable, JoinTables, HasConditions;
    var ts, us, names := JoinTables(p), JoinTables(q), Aliases(p.columns);
    ReorderedBindable(cat, ts, us, perm);
    ReorderedJoins(cat, ts, us, perm, p, q);
    if p.where.Some? {
      TableOrderOfCondition(cat, ts, us, perm, names, p.where.value, p.where.value);
    }
    forall i | 0 <= i < |q.columns| && !q.columns[i].star
      ensures Denotable(cat, us, names, q.columns[i].column, false)
    {
      TableOrderDenotable(cat, ts, us, perm, names, q.columns[i].column, false);
    }
    forall i | 0 <= i < |q.groupBy|
      ensures Denotable(cat, us, names, q.groupBy[i], true)
    {
      TableOrderDenotable(cat, ts, us, perm, names, q.groupBy[i], true);
    }
    forall i | 0 <= i < |q.orderBy|
      ensures Denotable(cat, us, names, q.orderBy[i].column, true)
    {
      TableOrderDenotable(cat, ts, us, perm, names, q.orderBy[i].column, true);
    }
  }

  lemma {:induction false} ReorderedJoins(
      cat: Catalog, ts: seq<TableRef>, us: seq<TableRef>, perm: seq<nat>, p: Query, q: Query)
    requires IsReordering(ts, us, perm) && HasConditions(p, q)
    requires forall i :: 0 <= i < |p.joins| ==> CondDenotable(cat, ts, Aliases(p.columns), p.joins[i].on)
    ensures forall i :: 0 <= i < |q.joins| ==> CondDenotable(cat, us, Aliases(p.columns), q.joins[i].on)
  {
    hide IsReordering, CondDenotable;
    forall i | 0 <= i < |q.joins|
      ensures CondDenotable(cat, us, Aliases(p.columns), q.joins[i].on)
    {
      var j :| 0 <= j < |p.joins| && p.joins[j].on == q.joins[i].on;
      TableOrderOfCondition(cat, ts, us, perm, Aliases(p.columns), q.joins[i].on, q.joins[i].on);
    }
  }

  /** A reordering can be undone. */
  lemma {:induction false} ReorderedBack(ts: seq<TableRef>, us: seq<TableRef>, perm: seq<nat>)
    returns (back: seq<nat>)
    requires IsReordering(ts, us, perm)
    ensures IsReordering(us, ts, back)
  {
    back := seq(|ts|, k requires 0 <= k < |ts| && k in perm => PlaceOf(perm, k));
    forall i | 0 <= i < |us|
      ensures i in back
    {
      assert perm[i] in perm && back[perm[i]] == i;
    }
  }

  ghost function PlaceOf(perm: seq<nat>, k: nat): (i: nat)
    requires k in perm
    ensures i < |perm| && perm[i] == k
  {
    var i :| 0 <= i < |perm| && perm[i] == k;
    i
  }

  // ---------- What a resolved query looks like ----------

  /** `d` is spelled as in the catalog: a column of exactly one bound table. */
  ghost predicate RealColumn(cat: Catalog, ts: seq<TableRef>, d: Column) {
    exists i :: 0 <= i < |ts| && Canonical(cat, ts[i]).Some?
      && d.table == BindName(cat, ts[i])
      && d.name in cat.Columns(Canonical(cat, ts[i]).value)
      && forall k :: 0 <= k < |ts| && k != i && Canonical(cat, ts[k]).Some? ==>
           Lower(BindName(cat, ts[k])) != Lower(d.table)
  }

  /** A denoted column is real, or is an alias standing where one is allowed. */
  lemma {:induction false} DenotedIsReal(
      cat: Catalog, ts: seq<TableRef>, names: seq<string>, c: Column, al: bool, d: Column)
    requires Bindable(cat, ts) && RefersTo(cat, ts, names, c, al, d)
    ensures RealColumn(cat, ts, d) || (al && d.table == "" && d.name in names)
  {
    AliasOfExact(names, Lower(c.name));
    if i :| OnlyCandidate(cat, ts, c, i) && IsColumnOf(cat, ts[i], c, d) {
      assert forall k :: 0 <= k < |ts| && k != i ==>
        Lower(BindName(cat, ts[k])) != Lower(BindName(cat, ts[i]));
    }
  }

  lemma {:induction false} ValidNameIgnoresCase(a: string, b: string)
    requires Lower(a) == Lower(b) && ValidName(a)
    ensures ValidName(b)
  {
    hide KwText, SameName, ValidIdent;
    ValidIdentIgnoresCase(a, b);
    CaseExactly(a, b);
    forall k
      ensures SameName(a, KwText(k)) <==> SameName(b, KwText(k))
    {
      CaseExactly(a, KwText(k));
      CaseExactly(b, KwText(k));
    }
  }

  lemma {:induction false} DenotedIsWf(
      cat: Catalog, ts: seq<TableRef>, names: seq<string>, c: Column, al: bool, d: Column)
    requires Bindable(cat, ts) && RefersTo(cat, ts, names, c, al, d)
    requires WfColumn(c) && (forall t <- ts :: WfTableRef(t)) && forall a <- names :: WfAlias(a)
    ensures WfColumn(d)
  {
    AliasOfExact(names, Lower(c.name));
    DenotedStable(cat, ts, names, c, al, d);
    ValidNameIgnoresCase(c.name, d.name);
    if i :| OnlyCandidate(cat, ts, c, i) && IsColumnOf(cat, ts[i], c, d) {
      assert WfTableRef(ts[i]);
      ValidNameIgnoresCase(ts[i].name, Canonical(cat, ts[i]).value);
    }
  }

  lemma {:induction false} CondDenotedIsWf(
      pf: FloatParser, cat: Catalog, ts: seq<TableRef>, names: seq<string>, c: Condition, d: Condition)
    requires Bindable(cat, ts) && CondRefersTo(cat, ts, names, c, d)
    requires WfCondition(pf, c) && (forall t <- ts :: WfTableRef(t)) && forall a <- names :: WfAlias(a)
    ensures WfCondition(pf, d)
    decreases c
  {
    hide Bindable, RefersTo, WfTableRef, WfAlias, WfColumn;
    match c {
      case Logical(_, l, r) =>
        CondDenotedIsWf(pf, cat, ts, names, l, d.left);
        CondDenotedIsWf(pf, cat, ts, names, r, d.right);
      case Not(e) => CondDenotedIsWf(pf, cat, ts, names, e, d.cond);
      case Comparison(col, _, ColOperand(r)) =>
        DenotedIsWf(cat, ts, names, col, false, d.col);
        DenotedIsWf(cat, ts, names, r, false, d.rhs.col);
      case _ => DenotedIsWf(cat, ts, names, c.col, false, d.col);
    }
  }

  lemma {:induction false} ResolvedRefIsWf(cat: Catalog, t: TableRef)
    requires WfTableRef(t) && Canonical(cat, t).Some?
    ensures WfTableRef(ResolvedRef(cat, t))
  {
    ValidNameIgnoresCase(t.name, Canonical(cat, t).value);
  }

  /** Resolution keeps the invariant of parsed queries. */
  lemma {:induction false} ResolveKeepsWf(pf: FloatParser, cat: Catalog, q: Query, p: Query)
    requires WfQuery(pf, q) && Resolves(cat, q, p)
    ensures WfQuery(pf, p)
  {
    var ts, names := JoinTables(q), Aliases(q.columns);
    assert forall t <- ts :: WfTableRef(t) by {
      forall i | 0 <= i < |ts|
        ensures WfTableRef(ts[i])
      {
        if i > 0 {
          assert WfJoin(pf, q.joins[i - 1]);
        }
      }
    }
    assert forall a <- names :: WfAlias(a) by {
      forall i | 0 <= i < |names|
        ensures WfAlias(names[i])
      {
        assert WfSelectItem(q.columns[i]);
      }
    }
    forall i | 0 <= i < |ts|
      ensures WfTableRef(ResolvedRef(cat, ts[i]))
    {
      ResolvedRefIsWf(cat, ts[i]);
    }
    ResolvedListsWf(pf, cat, q, p);
    hide Bindable, Canonical, ResolvedRef, RefersTo, CondRefersTo, WfTableRef, WfCondition, WfColumn, ItemRefersTo;
    forall i | 0 <= i < |p.joins|
      ensures WfJoin(pf, p.joins[i])
    {
      assert WfJoin(pf, q.joins[i]);
      CondDenotedIsWf(pf, cat, ts, names, q.joins[i].on, p.joins[i].on);
    }
    if q.where.Some? {
      CondDenotedIsWf(pf, cat, ts, names, q.where.value, p.where.value);
    }
  }

  lemma {:induction false} ResolvedListsWf(pf: FloatParser, cat: Catalog, q: Query, p: Query)
    requires WfQuery(pf, q) && Resolves(cat, q, p)
    requires (forall t <- JoinTables(q) :: WfTableRef(t)) && forall a <- Aliases(q.columns) :: WfAlias(a)
    ensures forall x <- p.columns :: WfSelectItem(x)
    ensures forall c <- p.groupBy :: WfColumn(c)
    ensures forall x <- p.orderBy :: WfColumn(x.column)
  {
    var ts, names := JoinTables(q), Aliases(q.columns);
    hide Bindable, RefersTo, WfColumn, WfTableRef, WfAlias, WfJoin, WfCondition, WfCount, IsAggregateName;
    forall i | 0 <= i < |p.columns|
      ensures WfSelectItem(p.columns[i])
    {
      assert WfSelectItem(q.columns[i]) && ItemRefersTo(cat, ts, names, q.columns[i], p.columns[i]);
      if !q.columns[i].star {
        DenotedIsWf(cat, ts, names, q.columns[i].column, false, p.columns[i].column);
      }
    }
    forall i | 0 <= i < |p.groupBy|
      ensures WfColumn(p.groupBy[i])
    {
      assert WfColumn(q.groupBy[i]);
      DenotedIsWf(cat, ts, names, q.groupBy[i], true, p.groupBy[i]);
    }
    forall i | 0 <= i < |p.orderBy|
      ensures WfColumn(p.orderBy[i].column)
    {
      assert q.orderBy[i] in q.orderBy;
      DenotedIsWf(cat, ts, names, q.orderBy[i].column, true, p.orderBy[i].column);
    }
  }
}
