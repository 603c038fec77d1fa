/**
 What resolution means, stated on the catalog and the table references alone, and the
 theorems: it succeeds exactly when every reference denotes one column, its result names
 real columns, it is idempotent, blind to letter case and to the order of the tables.
 */
module Resolution {
  import opened Common
  import opened Chars
  import opened Tokens
  import opened Ast
  import opened Catalog

  // ---------- What a reference denotes ----------

  /** Table `t` goes by the reference's qualifier, if any, and has a column of its name. */
  ghost predicate Candidate(cat: Catalog, t: TableRef, c: Column) {
    && Canonical(cat, t).Some?
    && (c.table == "" || Lower(c.table) == Lower(BindName(cat, t)))
    && exists n <- cat.Columns(Canonical(cat, t).value) :: Lower(n) == Lower(c.name)
  }

  /** `d` is the first column of `t` with the reference's name, qualified by `t`'s name. */
  ghost predicate IsColumnOf(cat: Catalog, t: TableRef, c: Column, d: Column) {
    && Canonical(cat, t).Some?
    && d.table == BindName(cat, t)
    && First(cat.Columns(Canonical(cat, t).value), Lower(c.name)) == Some(d.name)
  }

  ghost predicate IsAlias(names: seq<string>, key: string) {
    exists a <- names :: a != "" && Lower(a) == key
  }

  ghost predicate OnlyCandidate(cat: Catalog, ts: seq<TableRef>, c: Column, i: int) {
    0 <= i < |ts| && forall k :: 0 <= k < |ts| ==> (Candidate(cat, ts[k], c) <==> k == i)
  }

  /** The `j`th is the first of the names to be `name` in any letter case. */
  ghost predicate IsFirst(names: seq<string>, name: string, j: int) {
    && 0 <= j < |names| && SameName(names[j], name)
    && forall m :: 0 <= m < j ==> !SameName(names[m], name)
  }

  /** `n` is the first column of the table with the reference's name, in any letter case. */
  ghost predicate IsCatalogColumn(cat: Catalog, t: TableRef, c: Column, n: string) {
    && Canonical(cat, t).Some?
    && var columns := cat.Columns(Canonical(cat, t).value);
       exists j :: IsFirst(columns, c.name, j) && columns[j] == n
  }

  /** The reference denotes column `n` of the table bound as `t`, its only candidate. */
  ghost predicate DenotesColumn(cat: Catalog, ts: seq<TableRef>, c: Column, t: string, n: string) {
    exists i :: OnlyCandidate(cat, ts, c, i) && Canonical(cat, ts[i]).Some?
      && t == BindName(cat, ts[i]) && IsCatalogColumn(cat, ts[i], c, n)
  }

  lemma {:induction false} FirstIs(names: seq<string>, name: string, n: string)
    ensures First(names, Lower(name)) == Some(n) <==> exists j :: IsFirst(names, name, j) && names[j] == n
    decreases |names|
  {
    hide SameName;
    if names != [] {
      CaseExactly(names[0], name);
      FirstIs(names[1..], name, n);
      if SameName(names[0], name) {
        assert IsFirst(names, name, 0);
      } else {
        FirstIsLater(names, name);
        assert forall j :: IsFirst(names[1..], name, j) ==> names[1..][j] == names[j + 1];
      }
    }
  }

  lemma {:induction false} FirstIsLater(names: seq<string>, name: string)
    requires names != [] && !SameName(names[0], name)
    ensures forall j :: IsFirst(names[1..], name, j) ==> IsFirst(names, name, j + 1)
    ensures forall j :: IsFirst(names, name, j) ==> j > 0 && IsFirst(names[1..], name, j - 1)
  {
    hide SameName;
    var rest := names[1..];
    forall j | IsFirst(rest, name, j)
      ensures IsFirst(names, name, j + 1)
    {
      assert forall m :: 0 < m < j + 1 ==> names[m] == rest[m - 1];
    }
    forall j | IsFirst(names, name, j)
      ensures j > 0 && IsFirst(rest, name, j - 1)
    {
      assert forall m :: 0 <= m < j - 1 ==> rest[m] == names[m + 1];
    }
  }

  /** The reference `c` denotes `d`: an alias where one is allowed, else a column of the
      only table that can own it. */
  ghost predicate RefersTo(
    cat: Catalog, ts: seq<TableRef>, names: seq<string>, c: Column, allowAlias: bool, d: Column)
  {
    && WellNamed(c)
    && if allowAlias && c.table == "" && IsAlias(names, Lower(c.name)) then
         d.table == "" && AliasOf(names, Lower(c.name)) == Some(d.name)
       else
         exists i :: OnlyCandidate(cat, ts, c, i) && IsColumnOf(cat, ts[i], c, d)
  }

  ghost predicate Denotable(
    cat: Catalog, ts: seq<TableRef>, names: seq<string>, c: Column, allowAlias: bool)
  {
    exists d :: RefersTo(cat, ts, names, c, allowAlias, d)
  }

  lemma {:induction false} AliasOfExact(names: seq<string>, key: string)
    ensures AliasOf(names, key).Some? <==> IsAlias(names, key)
    ensures AliasOf(names, key).Some? ==>
      AliasOf(names, key).value in names && Lower(AliasOf(names, key).value) == key
    decreases |names|
  {
    if names != [] {
      var n := |names| - 1;
      AliasOfExact(names[..n], key);
      assert names[n] in names;
      assert forall a <- names :: a in names[..n] || a == names[n];
    }
  }

  lemma {:induction false} FirstExact(names: seq<string>, key: string)
    ensures First(names, key).Some? <==> exists n <- names :: Lower(n) == key
    decreases |names|
  {
    if names != [] {
      FirstExact(names[1..], key);
      assert names[0] in names;
      assert forall n <- names :: n == names[0] || n in names[1..];
    }
  }

  lemma {:induction false} CandidateExact(cat: Catalog, t: TableRef, c: Column, d: Column)
    requires Canonical(cat, t).Some?
    ensures Candidate(cat, t, c) <==> ColumnIn(BindingOf(cat, t), c).Some?
    ensures ColumnIn(BindingOf(cat, t), c) == Some(d) <==>
            Candidate(cat, t, c) && IsColumnOf(cat, t, c, d)
  {
    FirstExact(cat.Columns(Canonical(cat, t).value), Lower(c.name));
  }

  ghost predicate Owns(bs: seq<Binding>, c: Column, k: int) {
    0 <= k < |bs| && ColumnIn(bs[k], c).Some?
  }

  /** The scan finds the only owner, or reports none, or two. */
  lemma {:induction false} LookupFromExact(bs: seq<Binding>, c: Column, i: nat, found: Option<Column>)
    requires i <= |bs|
    ensures LookupFrom(bs, c, i, found).Unknown? <==>
            found.None? && forall k :: i <= k ==> !Owns(bs, c, k)
    ensures LookupFrom(bs, c, i, found).Ambiguous? <==>
            || (found.Some? && exists k :: i <= k && Owns(bs, c, k))
            || exists k, m :: i <= k < m && Owns(bs, c, k) && Owns(bs, c, m)
    ensures !LookupFrom(bs, c, i, found).Invalid?
    ensures forall d :: LookupFrom(bs, c, i, found) == Found(d) ==>
            || found == Some(d)
            || exists k :: i <= k && Owns(bs, c, k) && ColumnIn(bs[k], c) == Some(d)
    decreases |bs| - i
  {
    if i < |bs| {
      var here := ColumnIn(bs[i], c);
      assert here.Some? <==> Owns(bs, c, i);
      if here.None? {
        LookupFromExact(bs, c, i + 1, found);
      } else if found.None? {
        LookupFromExact(bs, c, i + 1, here);
      }
    }
  }

  lemma {:induction false} OwnersExact(cat: Catalog, ts: seq<TableRef>, c: Column, d: Column)
    requires Bindable(cat, ts)
    ensures var bs := BindingsOf(cat, ts);
            forall k :: 0 <= k < |ts| ==>
              && (Owns(bs, c, k) <==> Candidate(cat, ts[k], c))
              && (ColumnIn(bs[k], c) == Some(d) <==> Candidate(cat, ts[k], c) && IsColumnOf(cat, ts[k], c, d))
  {
    forall k | 0 <= k < |ts| {
      CandidateExact(cat, ts[k], c, d);
    }
  }

  ghost predicate SoleOwner(bs: seq<Binding>, c: Column, k: int) {
    Owns(bs, c, k) && forall m :: Owns(bs, c, m) ==> m == k
  }

  lemma {:induction false} ScanFindsSoleOwner(bs: seq<Binding>, c: Column, d: Column)
    ensures LookupFrom(bs, c, 0, None) == Found(d) <==>
            exists k :: SoleOwner(bs, c, k) && ColumnIn(bs[k], c) == Some(d)
  {
    LookupFromExact(bs, c, 0, None);
    hide LookupFrom, ColumnIn;
    if LookupFrom(bs, c, 0, None) == Found(d) {
      var k :| 0 <= k && Owns(bs, c, k) && ColumnIn(bs[k], c) == Some(d);
      assert SoleOwner(bs, c, k);
    }
    if k :| SoleOwner(bs, c, k) && ColumnIn(bs[k], c) == Some(d) {
      assert Owns(bs, c, k);
      assert LookupFrom(bs, c, 0, None).Found?;
    }
  }

  lemma {:induction false} ScanExact(cat: Catalog, ts: seq<TableRef>, c: Column, d: Column)
    requires Bindable(cat, ts)
    ensures LookupFrom(BindingsOf(cat, ts), c, 0, None) == Found(d) <==>
            exists i :: OnlyCandidate(cat, ts, c, i) && IsColumnOf(cat, ts[i], c, d)
  {
    var bs := BindingsOf(cat, ts);
    ScanFindsSoleOwner(bs, c, d);
    OwnersExact(cat, ts, c, d);
    hide Candidate, IsColumnOf, ColumnIn, Canonical, LookupFrom, Bindable, BindingsOf, Owns;
    assert |bs| == |ts| && forall k :: Owns(bs, c, k) ==> 0 <= k < |ts| by {
      OwnsInRange(cat, ts, c);
    }
    forall k
      ensures SoleOwner(bs, c, k) <==> OnlyCandidate(cat, ts, c, k)
    {
    }
  }

  lemma OwnsInRange(cat: Catalog, ts: seq<TableRef>, c: Column)
    requires Bindable(cat, ts)
    ensures |BindingsOf(cat, ts)| == |ts|
    ensures forall k :: Owns(BindingsOf(cat, ts), c, k) ==> 0 <= k < |ts|
  {
  }

  /** Lookup in the scope of bound tables finds exactly what the reference denotes. */
  lemma {:induction false} LookupExact(
      cat: Catalog, ts: seq<TableRef>, names: seq<string>, c: Column, allowAlias: bool, d: Column)
    requires Bindable(cat, ts)
    ensures var s := Scope(BindingsOf(cat, ts), names);
            ResolveRef(s, c, allowAlias) == Some(d) <==> RefersTo(cat, ts, names, c, allowAlias, d)
  {
    AliasOfExact(names, Lower(c.name));
    ScanExact(cat, ts, c, d);
    hide OnlyCandidate, IsColumnOf, LookupFrom, Bindable, BindingsOf, AliasOf, IsAlias;
  }

  /** Outside GROUP BY and ORDER BY a reference denotes a column of its only candidate table. */
  lemma {:induction false} RefersToColumn(
      cat: Catalog, ts: seq<TableRef>, names: seq<string>, c: Column, d: Column)
    requires RefersTo(cat, ts, names, c, false, d)
    ensures DenotesColumn(cat, ts, c, d.table, d.name) && d.table != ""
  {
    hide Candidate, SameName;
    var i :| OnlyCandidate(cat, ts, c, i) && IsColumnOf(cat, ts[i], c, d);
    FirstIs(cat.Columns(Canonical(cat, ts[i]).value), c.name, d.name);
    CaseExactly(ts[i].name, Canonical(cat, ts[i]).value);
  }

  /** It denotes one column at most. */
  lemma {:induction false} DenotedColumnUnique(
      cat: Catalog, ts: seq<TableRef>, c: Column, t: string, n: string, t': string, n': string)
    requires DenotesColumn(cat, ts, c, t, n) && DenotesColumn(cat, ts, c, t', n')
    ensures t == t' && n == n'
  {
    hide Candidate, SameName;
    var i :| OnlyCandidate(cat, ts, c, i) && Canonical(cat, ts[i]).Some?
      && t == BindName(cat, ts[i]) && IsCatalogColumn(cat, ts[i], c, n);
    var j :| OnlyCandidate(cat, ts, c, j) && Canonical(cat, ts[j]).Some?
      && t' == BindName(cat, ts[j]) && IsCatalogColumn(cat, ts[j], c, n');
    FirstIs(cat.Columns(Canonical(cat, ts[i]).value), c.name, n);
    FirstIs(cat.Columns(Canonical(cat, ts[i]).value), c.name, n');
  }

  /** A reference is ambiguous when two tables can own it, and unknown when none can. */
  lemma {:induction false} LookupFailure(
      cat: Catalog, ts: seq<TableRef>, names: seq<string>, c: Column, allowAlias: bool)
    requires Bindable(cat, ts) && WellNamed(c)
    requires !(allowAlias && c.table == "" && IsAlias(names, Lower(c.name)))
    ensures var l := LookupColumn(Scope(BindingsOf(cat, ts), names), c, allowAlias);
            && (l.Ambiguous? <==>
                  exists i, k :: 0 <= i < k < |ts| && Candidate(cat, ts[i], c) && Candidate(cat, ts[k], c))
            && (l.Unknown? <==> forall i :: 0 <= i < |ts| ==> !Candidate(cat, ts[i], c))
  {
    var bs := BindingsOf(cat, ts);
    AliasOfExact(names, Lower(c.name));
    LookupFromExact(bs, c, 0, None);
    forall k | 0 <= k < |ts|
      ensures Owns(bs, c, k) <==> Candidate(cat, ts[k], c)
    {
      CandidateExact(cat, ts[k], c, c);
    }
    hide Candidate, ColumnIn, Canonical, AliasOf, IsAlias;
  }

  // ---------- Resolution of whole queries ----------

  /** `d` is `c` with every reference replaced by the column it denotes. */
  ghost predicate CondRefersTo(
    cat: Catalog, ts: seq<TableRef>, names: seq<string>, c: Condition, d: Condition)
    decreases c
  {
    match c
    case Logical(op, l, r) =>
      d.Logical? && d.op == op
      && CondRefersTo(cat, ts, names, l, d.left) && CondRefersTo(cat, ts, names, r, d.right)
    case Not(e) => d.Not? && CondRefersTo(cat, ts, names, e, d.cond)
    case Comparison(col, op, ColOperand(r)) =>
      && d.Comparison? && d.cmp == op && d.rhs.ColOperand?
      && RefersTo(cat, ts, names, col, false, d.col) && RefersTo(cat, ts, names, r, false, d.rhs.col)
    case Comparison(col, op, ValOperand(v)) =>
      d.Comparison? && d.cmp == op && d.rhs == c.rhs && RefersTo(cat, ts, names, col, false, d.col)
    case In(col, vals) => d.In? && d.vals == vals && RefersTo(cat, ts, names, col, false, d.col)
    case Like(col, pattern) =>
      d.Like? && d.pattern == pattern && RefersTo(cat, ts, names, col, false, d.col)
    case IsNull(col, negate) =>
      d.IsNull? && d.negate == negate && RefersTo(cat, ts, names, col, false, d.col)
    case Between(col, low, high) =>
      d.Between? && d.low == low && d.high == high && RefersTo(cat, ts, names, col, false, d.col)
  }

  /** Every reference of the condition denotes a column. */
  ghost predicate CondDenotable(cat: Catalog, ts: seq<TableRef>, names: seq<string>, c: Condition) {
    match c
    case Logical(_, l, r) => CondDenotable(cat, ts, names, l) && CondDenotable(cat, ts, names, r)
    case Not(e) => CondDenotable(cat, ts, names, e)
    case Comparison(col, _, ColOperand(r)) =>
      Denotable(cat, ts, names, col, false) && Denotable(cat, ts, names, r, false)
    case _ => Denotable(cat, ts, names, c.col, false)
  }

  /** All tables are known, their names differ, and every reference denotes a column. */
  ghost predicate Resolvable(cat: Catalog, q: Query) {
    && Bindable(cat, JoinTables(q))
    && var (ts, names) := (JoinTables(q), Aliases(q.columns));
    && (forall i :: 0 <= i < |q.columns| && !q.columns[i].star ==>
          Denotable(cat, ts, names, q.columns[i].column, false))
    && (forall i :: 0 <= i < |q.joins| ==> CondDenotable(cat, ts, names, q.joins[i].on))
    && (q.where.Some? ==> CondDenotable(cat, ts, names, q.where.value))
    && (forall i :: 0 <= i < |q.groupBy| ==> Denotable(cat, ts, names, q.groupBy[i], true))
    && (forall i :: 0 <= i < |q.orderBy| ==> Denotable(cat, ts, names, q.orderBy[i].column, true))
  }

  ghost predicate ItemRefersTo(
    cat: Catalog, ts: seq<TableRef>, names: seq<string>, x: SelectItem, y: SelectItem)
  {
    if x.star then y == x
    else RefersTo(cat, ts, names, x.column, false, y.column) && y == x.(column := y.column)
  }

  /** `q'` is `q` with tables in catalog spelling and each reference as the column it denotes. */
  ghost predicate Resolves(cat: Catalog, q: Query, q': Query) {
    && Bindable(cat, JoinTables(q))
    && var (ts, names) := (JoinTables(q), Aliases(q.columns));
    && q'.from == ResolvedRef(cat, ts[0])
    && |q'.columns| == |q.columns|
    && (forall i :: 0 <= i < |q.columns| ==>
          ItemRefersTo(cat, ts, names, q.columns[i], q'.columns[i]))
    && |q'.joins| == |q.joins|
    && (forall i :: 0 <= i < |q.joins| ==>
          && CondRefersTo(cat, ts, names, q.joins[i].on, q'.joins[i].on)
          && q'.joins[i] == Join(q.joins[i].kind, ResolvedRef(cat, ts[i + 1]), q'.joins[i].on))
    && q'.where.Some? == q.where.Some?
    && (q.where.Some? ==> CondRefersTo(cat, ts, names, q.where.value, q'.where.value))
    && |q'.groupBy| == |q.groupBy|
    && (forall i :: 0 <= i < |q.groupBy| ==>
          RefersTo(cat, ts, names, q.groupBy[i], true, q'.groupBy[i]))
    && |q'.orderBy| == |q.orderBy|
    && (forall i :: 0 <= i < |q.orderBy| ==>
          && RefersTo(cat, ts, names, q.orderBy[i].column, true, q'.orderBy[i].column)
          && q'.orderBy[i].desc == q.orderBy[i].desc)
    && q'.star == q.star && q'.limit == q.limit && q'.offset == q.offset
  }

  lemma {:induction false} RefExact(cat: Catalog, ts: seq<TableRef>, names: seq<string>, c: Column, al: bool)
    requires Bindable(cat, ts)
    ensures var s := Scope(BindingsOf(cat, ts), names);
            && (forall d :: ResolveRef(s, c, al) == Some(d) <==> RefersTo(cat, ts, names, c, al, d))
            && (ResolveRef(s, c, al).Some? <==> Denotable(cat, ts, names, c, al))
  {
    hide Bindable, BindingsOf, LookupColumn, ResolveRef, RefersTo;
    var s := Scope(BindingsOf(cat, ts), names);
    forall d
      ensures ResolveRef(s, c, al) == Some(d) <==> RefersTo(cat, ts, names, c, al, d)
    {
      LookupExact(cat, ts, names, c, al, d);
    }
    if ResolveRef(s, c, al).Some? {
      assert RefersTo(cat, ts, names, c, al, ResolveRef(s, c, al).value);
    }
  }

  lemma {:induction false} RewriteExact(
      cat: Catalog, ts: seq<TableRef>, names: seq<string>, c: Condition, d: Condition)
    requires Bindable(cat, ts)
    ensures var s := Scope(BindingsOf(cat, ts), names);
            && (Rewrite(s, c) == Some(d) <==> CondRefersTo(cat, ts, names, c, d))
            && (Rewrite(s, c).Some? <==> CondDenotable(cat, ts, names, c))
    decreases c
  {
    hide Bindable, BindingsOf, ResolveRef, RefersTo, Denotable;
    match c {
      case Logical(_, l, r) =>
        RewriteExact(cat, ts, names, l, if d.Logical? then d.left else d);
        RewriteExact(cat, ts, names, r, if d.Logical? then d.right else d);
      case Not(e) =>
        RewriteExact(cat, ts, names, e, if d.Not? then d.cond else d);
      case Comparison(col, _, ColOperand(r)) =>
        RefExact(cat, ts, names, col, false);
        RefExact(cat, ts, names, r, false);
      case _ =>
        RefExact(cat, ts, names, c.col, false);
    }
  }

  /** Each part of a query resolves to what it denotes. */
  lemma {:induction false} PartsExact(cat: Catalog, ts: seq<TableRef>, names: seq<string>)
    requires Bindable(cat, ts)
    ensures var s := Scope(BindingsOf(cat, ts), names);
      && (forall c, al, d :: ResolveRef(s, c, al) == Some(d) <==> RefersTo(cat, ts, names, c, al, d))
      && (forall c, d :: Rewrite(s, c) == Some(d) <==> CondRefersTo(cat, ts, names, c, d))
      && (forall x, y :: ResolveItem(s, x) == Some(y) <==> ItemRefersTo(cat, ts, names, x, y))
      && (forall x, y :: ResolveOrder(s, x) == Some(y) <==>
            RefersTo(cat, ts, names, x.column, true, y.column) && y.desc == x.desc)
  {
    forall c, al {
      RefExact(cat, ts, names, c, al);
    }
    forall c, d {
      RewriteExact(cat, ts, names, c, d);
    }
    hide Bindable, BindingsOf, Rewrite, CondRefersTo, ResolveRef, RefersTo;
  }

  /** The computed resolution is the denoted one. */
  lemma {:induction false} ResolvesExact(cat: Catalog, q: Query, q': Query)
    ensures QueryResolved(cat, q, q') <==> Resolves(cat, q, q')
  {
    hide Bindable, BindingsOf, Rewrite, CondRefersTo, ResolveRef, RefersTo, JoinTables, Aliases, ResolvedRef;
    hide ResolveItem, ItemRefersTo, ResolveOrder;
    if Bindable(cat, JoinTables(q)) {
      PartsExact(cat, JoinTables(q), Aliases(q.columns));
    }
  }

  /** Resolution succeeds exactly when every table and every reference can be resolved. */
  lemma {:induction false} ResolvableExact(cat: Catalog, q: Query)
    ensures CanResolve(cat, q) <==> Resolvable(cat, q)
  {
    if Bindable(cat, JoinTables(q)) {
      var ts, names := JoinTables(q), Aliases(q.columns);
      forall c, al {
        RefExact(cat, ts, names, c, al);
      }
      forall c {
        RewriteExact(cat, ts, names, c, c);
      }
      hide Bindable, BindingsOf, Rewrite, CondDenotable, ResolveRef, Denotable, JoinTables, Aliases;
    }
  }

  /** A resolvable query has a resolution, and only one. */
  lemma {:induction false} ResolutionUnique(cat: Catalog, q: Query, p: Query, p': Query)
    requires Resolves(cat, q, p) && Resolves(cat, q, p')
    ensures p == p'
  {
    ResolvesExact(cat, q, p);
    ResolvesExact(cat, q, p');
    hide Resolves, Rewrite, ResolveRef;
    assert p.columns == p'.columns;
    assert p.joins == p'.joins;
    assert p.groupBy == p'.groupBy;
    assert p.orderBy == p'.orderBy;
  }
}
