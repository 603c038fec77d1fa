/** The resolver object: it binds tables into a scope and rewrites a query in place. */
module Resolver {
  import opened Common
  import opened Chars
  import opened Ast
  import opened Catalog

  class Resolver {
    var scope: map<string, Binding>
    var order: seq<Binding>
    var aliases: map<string, string>
    ghost var names: seq<string>

    /** The scope map indexes the bindings by lower-case name. */
    ghost predicate Valid()
      reads this
    {
      && DistinctNames(order)
      && (forall i :: 0 <= i < |order| ==>
            Lower(order[i].name) in scope && scope[Lower(order[i].name)] == order[i])
      && forall k <- scope :: scope[k] in order && Lower(scope[k].name) == k
    }

    /** The alias map finds what `AliasOf` finds in a list of aliases. */
    ghost predicate AliasesOf(xs: seq<string>)
      reads this
    {
      forall k :: (k in aliases <==> AliasOf(xs, k).Some?)
               && (k in aliases ==> AliasOf(xs, k) == Some(aliases[k]))
    }

    ghost predicate Ready()
      reads this
    {
      Valid() && AliasesOf(names)
    }

    ghost function View(): Scope
      reads this
    {
      Scope(order, names)
    }

    constructor ()
      ensures Ready() && order == [] && names == []
    {
      scope, order, aliases, names := map[], [], map[], [];
    }

    /** Adds one table to the scope; returns its reference in canonical spelling. */
    method Bind(cat: Catalog, tableSet: map<string, string>, t: TableRef) returns (r: Option<TableRef>)
      requires Valid() && tableSet == CanonMap(cat.tables)
      modifies this`scope, this`order
      ensures Valid()
      ensures r.Some? <==>
        Canonical(cat, t).Some?
        && forall b <- old(order) :: Lower(b.name) != Lower(BindName(cat, t))
      ensures r.Some? ==>
        && r.value == ResolvedRef(cat, t)
        && order == old(order) + [BindingOf(cat, t)]
    {
      if !ValidIdent(t.name) {
        return None;
      }
      if t.alias != "" && !ValidIdent(t.alias) {
        return None;
      }
      if Lower(t.name) !in tableSet {
        return None;
      }
      var canonical := tableSet[Lower(t.name)];
      var name := if t.alias != "" then t.alias else canonical;
      var key := Lower(name);
      if key in scope {
        assert scope[key] in order;
        return None;
      }
      var colMap := BuildCanonMap(cat.Columns(canonical));
      var b := Binding(name, colMap);
      scope := scope[key := b];
      order := order + [b];
      return Some(TableRef(canonical, t.alias));
    }

    method CollectAliases(xs: seq<SelectItem>)
      requires Valid()
      modifies this`aliases, this`names
      ensures Ready() && names == Aliases(xs)
    {
      aliases := map[];
      names := Aliases(xs);
      for i := 0 to |xs|
        invariant names == Aliases(xs) && AliasesOf(names[..i])
      {
        assert names[..i + 1][..i] == names[..i] && names[..i + 1][i] == xs[i].alias;
        if xs[i].alias != "" {
          aliases := aliases[Lower(xs[i].alias) := xs[i].alias];
        }
      }
      assert names[..|xs|] == names;
    }

    method ResolveCol(c: Column, allowAlias: bool) returns (r: Lookup)
      requires Ready()
      ensures r == LookupColumn(View(), c, allowAlias)
    {
      if c.table != "" && !ValidIdent(c.table) {
        return Invalid;
      }
      if !ValidIdent(c.name) {
        return Invalid;
      }
      var key := Lower(c.name);
      if c.table != "" {
        if Lower(c.table) !in scope {
          NoOwner(order, c, 0);
          return Unknown;
        }
        var b := scope[Lower(c.table)];
        ghost var k :| 0 <= k < |order| && order[k] == b;
        OnlyOwner(order, c, 0, k);
        if key !in b.columns {
          return Unknown;
        }
        return Found(Column(b.name, b.columns[key]));
      }
      if allowAlias && key in aliases {
        return Found(Column("", aliases[key]));
      }
      var found: Option<Column> := None;
      for i := 0 to |order|
        invariant LookupFrom(order, c, 0, None) == LookupFrom(order, c, i, found)
      {
        if key in order[i].columns {
          if found.Some? {
            return Ambiguous;
          }
          found := Some(Column(order[i].name, order[i].columns[key]));
        }
      }
      return match found case Some(col) => Found(col) case None => Unknown;
    }

    method ResolveRefTo(c: Column, allowAlias: bool) returns (r: Option<Column>)
      requires Ready()
      ensures r == ResolveRef(View(), c, allowAlias)
    {
      var l := ResolveCol(c, allowAlias);
      return match l case Found(col) => Some(col) case _ => None;
    }

    method RewriteCondition(c: Condition) returns (r: Option<Condition>)
      requires Ready()
      ensures r == Rewrite(View(), c)
      decreases c
    {
      match c {
        case Logical(op, l, rt) =>
          var left :- RewriteCondition(l);
          var right :- RewriteCondition(rt);
          return Some(Logical(op, left, right));
        case Not(d) =>
          var inner :- RewriteCondition(d);
          return Some(Not(inner));
        case Comparison(col, op, ValOperand(v)) =>
          var left :- ResolveRefTo(col, false);
          return Some(Comparison(left, op, ValOperand(v)));
        case Comparison(col, op, ColOperand(rc)) =>
          var left :- ResolveRefTo(col, false);
          var right :- ResolveRefTo(rc, false);
          return Some(Comparison(left, op, ColOperand(right)));
        case In(col, vals) =>
          var left :- ResolveRefTo(col, false);
          return Some(In(left, vals));
        case Like(col, pattern) =>
          var left :- ResolveRefTo(col, false);
          return Some(Like(left, pattern));
        case IsNull(col, negate) =>
          var left :- ResolveRefTo(col, false);
          return Some(IsNull(left, negate));
        case Between(col, low, high) =>
          var left :- ResolveRefTo(col, false);
          return Some(Between(left, low, high));
      }
    }
  }

  /** The first `n` tables are known, and `bs` are their bindings, all differently named. */
  ghost predicate Bound(cat: Catalog, ts: seq<TableRef>, n: nat, bs: seq<Binding>) {
    && n <= |ts| && |bs| == n && DistinctNames(bs)
    && forall k :: 0 <= k < n ==> Canonical(cat, ts[k]).Some? && bs[k] == BindingOf(cat, ts[k])
  }

  lemma {:induction false} BoundIsBindable(cat: Catalog, ts: seq<TableRef>, bs: seq<Binding>)
    requires Bound(cat, ts, |ts|, bs)
    ensures Bindable(cat, ts) && bs == BindingsOf(cat, ts)
  {
    hide Canonical, Lower;
    forall i, j | 0 <= i < j < |ts|
      ensures Lower(BindName(cat, ts[i])) != Lower(BindName(cat, ts[j]))
    {
      assert Lower(bs[i].name) != Lower(bs[j].name);
    }
    assert forall k :: 0 <= k < |ts| ==> bs[k] == BindingsOf(cat, ts)[k];
  }

  lemma {:induction false} NotBindable(cat: Catalog, ts: seq<TableRef>, n: nat, bs: seq<Binding>)
    requires Bound(cat, ts, n, bs) && n < |ts|
    requires Canonical(cat, ts[n]).Some? ==>
      exists b <- bs :: Lower(b.name) == Lower(BindName(cat, ts[n]))
    ensures !Bindable(cat, ts)
  {
    hide Canonical, Lower;
    if Canonical(cat, ts[n]).Some? {
      var b :| b in bs && Lower(b.name) == Lower(BindName(cat, ts[n]));
      var k :| 0 <= k < n && bs[k] == b;
      assert Lower(BindName(cat, ts[k])) == Lower(BindName(cat, ts[n]));
    }
  }

  /** Resolves every table of the query in turn and puts its canonical name into it. */
  method BindTables(cat: Catalog, r: Resolver, q: QueryPtr) returns (ok: bool)
    requires r.Ready() && r.order == [] && r.names == []
    modifies r`scope, r`order, q
    ensures r.Valid()
    ensures ok <==> Bindable(cat, JoinTables(old(q.val)))
    ensures ok ==> r.order == BindingsOf(cat, JoinTables(old(q.val)))
    ensures ok ==>
      q.val == old(q.val).(from := ResolvedRef(cat, JoinTables(old(q.val))[0]),
                           joins := CanonicalJoins(cat, old(q.val)))
  {
    hide Canonical, Lower, BindName, ResolvedRef, BindingOf, CanonMap, Bindable, BindingsOf;
    var tableSet := BuildCanonMap(cat.tables);
    ghost var q0, ts := q.val, JoinTables(q.val);
    var from := r.Bind(cat, tableSet, q.val.from);
    if from.None? {
      NotBindable(cat, ts, 0, []);
      return false;
    }
    q.val := q.val.(from := from.value);
    ok := BindJoins(cat, tableSet, r, q, ts);
    if ok {
      BoundIsBindable(cat, ts, r.order);
      assert q.val.joins == CanonicalJoins(cat, q0);
    }
  }

  method BindJoins(
      cat: Catalog, tableSet: map<string, string>, r: Resolver, q: QueryPtr, ghost ts: seq<TableRef>)
    returns (ok: bool)
    requires tableSet == CanonMap(cat.tables) && r.Valid() && Bound(cat, ts, 1, r.order)
    requires |ts| == |q.val.joins| + 1
    requires forall k :: 0 <= k < |q.val.joins| ==> ts[k + 1] == q.val.joins[k].table
    modifies r`scope, r`order, q
    ensures r.Valid()
    ensures ok ==> Bound(cat, ts, |ts|, r.order)
    ensures !ok ==> !Bindable(cat, ts)
    ensures q.val == old(q.val).(joins := q.val.joins)
    ensures ok ==>
      && |q.val.joins| == |old(q.val.joins)|
      && forall k :: 0 <= k < |q.val.joins| ==>
           q.val.joins[k] == old(q.val.joins)[k].(table := ResolvedRef(cat, ts[k + 1]))
  {
    hide Canonical, Lower, BindName, ResolvedRef, BindingOf, CanonMap, Bindable, Bound;
    ghost var js := q.val.joins;
    for i := 0 to |q.val.joins|
      invariant r.Valid() && Bound(cat, ts, i + 1, r.order)
      invariant |q.val.joins| == |js| && q.val.joins[i..] == js[i..]
      invariant forall k :: 0 <= k < i ==>
        Canonical(cat, ts[k + 1]).Some?
        && q.val.joins[k] == js[k].(table := ResolvedRef(cat, ts[k + 1]))
      invariant q.val == old(q.val).(joins := q.val.joins)
    {
      var j := q.val.joins[i];
      assert j == q.val.joins[i..][0] == js[i];
      ghost var before := r.order;
      var t := r.Bind(cat, tableSet, j.table);
      if t.None? {
        NotBindable(cat, ts, i + 1, before);
        return false;
      }
      BoundGrows(cat, ts, i + 1, before, r.order);
      q.val := q.val.(joins := q.val.joins[i := j.(table := t.value)]);
    }
    return true;
  }

  lemma BoundGrows(cat: Catalog, ts: seq<TableRef>, n: nat, bs: seq<Binding>, bs': seq<Binding>)
    requires Bound(cat, ts, n, bs) && n < |ts| && Canonical(cat, ts[n]).Some?
    requires bs' == bs + [BindingOf(cat, ts[n])] && DistinctNames(bs')
    ensures Bound(cat, ts, n + 1, bs')
  {
  }

  method ResolveItems(r: Resolver, q: QueryPtr) returns (ok: bool)
    requires r.Ready()
    modifies q
    ensures ok <==> forall i :: 0 <= i < |old(q.val.columns)| ==> ResolveItem(r.View(), old(q.val.columns)[i]).Some?
    ensures ok ==> ItemsResolved(r.View(), old(q.val.columns), q.val.columns)
    ensures q.val == old(q.val).(columns := q.val.columns)
  {
    ghost var xs := q.val.columns;
    for i := 0 to |q.val.columns|
      invariant |q.val.columns| == |xs|
      invariant forall k :: 0 <= k < i ==> ResolveItem(r.View(), xs[k]) == Some(q.val.columns[k])
      invariant q.val.columns[i..] == xs[i..]
      invariant q.val == old(q.val).(columns := q.val.columns)
    {
      var item := q.val.columns[i];
      assert item == q.val.columns[i..][0] == xs[i];
      if !item.star {
        var col := r.ResolveRefTo(item.column, false);
        if col.None? { return false; }
        q.val := q.val.(columns := q.val.columns[i := item.(column := col.value)]);
      }
    }
    return true;
  }

  method ResolveJoins(r: Resolver, q: QueryPtr) returns (ok: bool)
    requires r.Ready()
    modifies q
    ensures ok <==> forall i :: 0 <= i < |old(q.val.joins)| ==> Rewrite(r.View(), old(q.val.joins)[i].on).Some?
    ensures ok ==> OnsResolved(r.View(), old(q.val.joins), q.val.joins)
    ensures q.val == old(q.val).(joins := q.val.joins)
  {
    ghost var xs := q.val.joins;
    for i := 0 to |q.val.joins|
      invariant |q.val.joins| == |xs|
      invariant forall k :: 0 <= k < i ==> OnResolved(r.View(), xs[k], q.val.joins[k])
      invariant q.val.joins[i..] == xs[i..]
      invariant q.val == old(q.val).(joins := q.val.joins)
    {
      assert q.val.joins[i] == q.val.joins[i..][0] == xs[i];
      var on := r.RewriteCondition(q.val.joins[i].on);
      if on.None? { return false; }
      q.val := q.val.(joins := q.val.joins[i := q.val.joins[i].(on := on.value)]);
    }
    return true;
  }

  method ResolveGroupBy(r: Resolver, q: QueryPtr) returns (ok: bool)
    requires r.Ready()
    modifies q
    ensures ok <==> forall i :: 0 <= i < |old(q.val.groupBy)| ==>
      ResolveRef(r.View(), old(q.val.groupBy)[i], true).Some?
    ensures ok ==> GroupByResolved(r.View(), old(q.val.groupBy), q.val.groupBy)
    ensures q.val == old(q.val).(groupBy := q.val.groupBy)
  {
    ghost var xs := q.val.groupBy;
    for i := 0 to |q.val.groupBy|
      invariant |q.val.groupBy| == |xs|
      invariant forall k :: 0 <= k < i ==> ResolveRef(r.View(), xs[k], true) == Some(q.val.groupBy[k])
      invariant q.val.groupBy[i..] == xs[i..]
      invariant q.val == old(q.val).(groupBy := q.val.groupBy)
    {
      assert q.val.groupBy[i] == q.val.groupBy[i..][0] == xs[i];
      var col := r.ResolveRefTo(q.val.groupBy[i], true);
      if col.None? { return false; }
      q.val := q.val.(groupBy := q.val.groupBy[i := col.value]);
    }
    return true;
  }

  method ResolveOrderBy(r: Resolver, q: QueryPtr) returns (ok: bool)
    requires r.Ready()
    modifies q
    ensures ok <==> forall i :: 0 <= i < |old(q.val.orderBy)| ==> ResolveOrder(r.View(), old(q.val.orderBy)[i]).Some?
    ensures ok ==> OrderByResolved(r.View(), old(q.val.orderBy), q.val.orderBy)
    ensures q.val == old(q.val).(orderBy := q.val.orderBy)
  {
    ghost var xs := q.val.orderBy;
    for i := 0 to |q.val.orderBy|
      invariant |q.val.orderBy| == |xs|
      invariant forall k :: 0 <= k < i ==> ResolveOrder(r.View(), xs[k]) == Some(q.val.orderBy[k])
      invariant q.val.orderBy[i..] == xs[i..]
      invariant q.val == old(q.val).(orderBy := q.val.orderBy)
    {
      assert q.val.orderBy[i] == q.val.orderBy[i..][0] == xs[i];
      var col := r.ResolveRefTo(q.val.orderBy[i].column, true);
      if col.None? { return false; }
      q.val := q.val.(orderBy := q.val.orderBy[i := q.val.orderBy[i].(column := col.value)]);
    }
    return true;
  }

  /** On failure the query may be left partly rewritten; callers then discard it. */
  method Resolve(cat: Catalog, q: QueryPtr) returns (ok: bool)
    modifies q
    ensures ok <==> CanResolve(cat, old(q.val))
    ensures ok ==> QueryResolved(cat, old(q.val), q.val)
  {
    hide Rewrite, ResolveItem, ResolveRef, ResolveOrder, Bindable, Canonical;
    var r := new Resolver();
    ghost var q0 := q.val;
    ok := BindTables(cat, r, q);
    if !ok { return; }
    r.CollectAliases(q.val.columns);
    assert r.View() == ScopeOf(cat, q0);
    ok := ResolveItems(r, q);
    if !ok { return; }
    ok := ResolveJoins(r, q);
    if !ok { return; }
    if q.val.where.Some? {
      var cond := r.RewriteCondition(q.val.where.value);
      if cond.None? { return false; }
      q.val := q.val.(where := cond);
    }
    ok := ResolveGroupBy(r, q);
    if !ok { return; }
    ok := ResolveOrderBy(r, q);
  }

  lemma {:induction false} NoOwner(bs: seq<Binding>, c: Column, i: nat)
    requires i <= |bs| && forall b <- bs[i..] :: ColumnIn(b, c) == None
    ensures forall f :: LookupFrom(bs, c, i, f) == LookupFrom(bs, c, |bs|, f)
    decreases |bs| - i
  {
    if i < |bs| {
      assert bs[i] in bs[i..];
      assert forall b <- bs[i + 1..] :: b in bs[i..];
      NoOwner(bs, c, i + 1);
    }
  }

  /** Only the binding with the qualifier's name can own a qualified column. */
  lemma {:induction false} OnlyOwner(bs: seq<Binding>, c: Column, i: nat, k: nat)
    requires DistinctNames(bs) && i <= k < |bs|
    requires c.table != "" && Lower(c.table) == Lower(bs[k].name)
    ensures LookupFrom(bs, c, i, None) ==
      match ColumnIn(bs[k], c) case Some(col) => Found(col) case None => Unknown
    decreases |bs| - i
  {
    if i < k {
      OnlyOwner(bs, c, i + 1, k);
    } else {
      assert forall b <- bs[k + 1..] :: ColumnIn(b, c) == None;
      NoOwner(bs, c, k + 1);
      assert LookupFrom(bs, c, k + 1, ColumnIn(bs[k], c)) == LookupFrom(bs, c, |bs|, ColumnIn(bs[k], c));
    }
  }
}
