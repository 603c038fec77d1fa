/** The sql tool: parse, bound the row count, resolve, translate. */
module SqlTool {
  import opened Common
  import opened Numbers
  import opened Tokens
  import opened Ast
  import opened Catalog
  import opened Resolution
  import opened Translate
  import opened WellFormed
  import opened Literals
  import Chars
  import Grammar
  import Lexer
  import Parser
  import ParseExact
  import Resolver
  import ResolutionLaws
  import Semantics

  const SQL_DEFAULT_LIMIT := 1000
  const SQL_MAX_LIMIT := 100000

  /** The default stands in for a missing limit, and the maximum for a larger one. */
  function EffectiveLimit(limit: Option<int>): (n: int)
    ensures limit.None? ==> n == 1000
    ensures limit.Some? ==> n <= limit.value && n <= 100000 && (n == limit.value || n == 100000)
  {
    match limit
    case None => SQL_DEFAULT_LIMIT
    case Some(n) => if n > SQL_MAX_LIMIT then SQL_MAX_LIMIT else n
  }

  method ApplyRowLimit(q: QueryPtr) returns (limit: int, imposed: bool)
    modifies q
    ensures q.val == old(q.val).(limit := Some(limit))
    ensures limit == EffectiveLimit(old(q.val.limit))
    ensures imposed <==> old(q.val.limit) != Some(limit)
  {
    if q.val.limit.None? {
      q.val := q.val.(limit := Some(SQL_DEFAULT_LIMIT));
      return SQL_DEFAULT_LIMIT, true;
    }
    if q.val.limit.value > SQL_MAX_LIMIT {
      q.val := q.val.(limit := Some(SQL_MAX_LIMIT));
      return SQL_MAX_LIMIT, true;
    }
    return q.val.limit.value, false;
  }

  /** The query a source stands for once its row count is bounded. */
  ghost function Bounded(q: Query): Query {
    q.(limit := Some(EffectiveLimit(q.limit)))
  }

  /** `ds` is what the tool hands to the builder for `src`. */
  ghost predicate Compiles(pf: FloatParser, cat: Catalog, src: string, ds: Dataset) {
    && Parser.ParseText(pf, src).Some?
    && exists p :: Resolves(cat, Bounded(Parser.ParseText(pf, src).value), p) && IsDatasetOf(p, ds)
  }

  method Compile(pf: FloatParser, cat: Catalog, src: string)
    returns (ds: Option<Dataset>, limit: int, imposed: bool)
    ensures ds.Some? <==>
      Parser.ParseText(pf, src).Some? && Resolvable(cat, Bounded(Parser.ParseText(pf, src).value))
    ensures ds.Some? ==>
      && Compiles(pf, cat, src, ds.value)
      && limit == EffectiveLimit(Parser.ParseText(pf, src).value.limit)
      && (imposed <==> Parser.ParseText(pf, src).value.limit != Some(limit))
  {
    hide Parser.ParseText, Resolvable, Resolves, CanResolve, QueryResolved, IsDatasetOf;
    var q, ok := Parser.Parse(pf, src);
    if !ok {
      return None, 0, false;
    }
    limit, imposed := ApplyRowLimit(q);
    ghost var q0 := q.val;
    ResolvableExact(cat, q0);
    ok := Resolver.Resolve(cat, q);
    if !ok {
      return None, limit, imposed;
    }
    ResolvesExact(cat, q0, q.val);
    var built := Translate.Translate(q.val);
    return Some(built), limit, imposed;
  }

  /** Whether as many rows came back as a bound that was not the client's own allows. */
  predicate RowsTruncated(imposed: bool, limit: int, rows: nat) {
    imposed && rows >= limit
  }

  /**
   `select` gives the number of rows for each limit, of which nothing is known for 0.  The
   flag is set whenever the bound withholds rows the client's own limit would have given;
   it is set with none withheld exactly when there are just as many rows as the bound.
   */
  lemma RowsTruncatedExactly(own: Option<int>, select: Option<int> -> nat)
    requires forall l :: l > 0 ==> select(Some(l)) == if l < select(None) then l else select(None)
    ensures var limit := EffectiveLimit(own);
      var imposed, rows := own != Some(limit), select(Some(limit));
      && (rows < select(own) ==> RowsTruncated(imposed, limit, rows))
      && rows <= select(own)
      && (RowsTruncated(imposed, limit, rows) && rows == select(own) <==>
          imposed && select(None) == limit)
  {
  }

  lemma {:induction false} BoundedKeepsWf(pf: FloatParser, q: Query)
    requires WfQuery(pf, q)
    ensures WfQuery(pf, Bounded(q))
  {
  }

  /**
   Conservation of literals, end to end: the values given to the builder are the decoded
   literals of the text in source order, except that LIMIT carries the effective limit.
   */
  lemma {:induction false} CompiledLiterals(pf: FloatParser, cat: Catalog, src: string, ds: Dataset)
    requires Compiles(pf, cat, src, ds)
    ensures var ts := Lexer.Scan(src).value;
            var q := Parser.ParseText(pf, src).value;
            && TokenLiterals(pf, ts, 0, |ts|)
               == ConditionLiterals(q) + (CountLiteral(q.limit) + CountLiteral(q.offset))
            && DatasetArgs(ds)
               == ConditionLiterals(q) + ([GoInt64(EffectiveLimit(q.limit))] + CountLiteral(q.offset))
  {
    var ts := Lexer.Scan(src).value;
    var q := Parser.ParseText(pf, src).value;
    Parser.ScannedStream(src);
    ParseExact.ParseExactly(pf, ts, q);
    QueryTokens(pf, ts, q);
    hide Resolves, IsDatasetOf, TokenLiterals;
    var p :| Resolves(cat, Bounded(q), p) && IsDatasetOf(p, ds);
    ResolveKeepsLiterals(cat, Bounded(q), p);
    assert p.limit == Some(EffectiveLimit(q.limit)) by { ResolvesKeepsLimit(cat, Bounded(q), p); }
    TranslateKeepsLiterals(p, ds);
  }

  lemma {:induction false} ResolvesKeepsLimit(cat: Catalog, q: Query, p: Query)
    requires Resolves(cat, q, p)
    ensures p.limit == q.limit && p.offset == q.offset
  {
  }

  /** A limit within bounds leaves the values exactly the literals of the text. */
  lemma {:induction false} CompiledLiteralsExact(pf: FloatParser, cat: Catalog, src: string, ds: Dataset)
    requires Compiles(pf, cat, src, ds)
    ensures var ts := Lexer.Scan(src).value;
            var q := Parser.ParseText(pf, src).value;
            q.limit.Some? && q.limit.value <= SQL_MAX_LIMIT
            <==> DatasetArgs(ds) == TokenLiterals(pf, ts, 0, |ts|)
  {
    CompiledLiterals(pf, cat, src, ds);
    hide TokenLiterals, DatasetArgs, ConditionLiterals;
    var q := Parser.ParseText(pf, src).value;
    var a := ConditionLiterals(q);
    var m := CountLiteral(q.offset);
    if a + ([GoInt64(EffectiveLimit(q.limit))] + m) == a + (CountLiteral(q.limit) + m) {
      var l, r := a + ([GoInt64(EffectiveLimit(q.limit))] + m), a + (CountLiteral(q.limit) + m);
      assert |l| == |r| && l[|a|] == r[|a|];
    }
  }

  /** Every ON and the WHERE handed to the builder mean what the source text's conditions mean. */
  lemma {:induction false} CompiledTextMeaning(
      pf: FloatParser, k: Semantics.Collation, cat: Catalog, src: string, ds: Dataset,
      row: Semantics.Row, env: Column -> GoValue)
    requires Compiles(pf, cat, src, ds) && Semantics.Orders(k)
    requires Semantics.ReadsRow(cat, JoinTables(Parser.ParseText(pf, src).value), row, env)
    ensures var q := Parser.ParseText(pf, src).value;
      && |ds.joins| == |q.joins|
      && (forall i :: 0 <= i < |q.joins| ==>
            Semantics.EvalExpr(k, row, ds.joins[i].on) == Semantics.Eval(k, env, q.joins[i].on))
      && ds.where.Some? == q.where.Some?
      && (q.where.Some? ==>
            Semantics.EvalExpr(k, row, ds.where.value) == Semantics.Eval(k, env, q.where.value))
  {
    var q := Parser.ParseText(pf, src).value;
    AcceptedIsWf(pf, src);
    BoundedKeepsWf(pf, q);
    SameTables(q);
    hide Resolves, IsDatasetOf, WfQuery, JoinTables, Parser.ParseText, Semantics.ReadsRow;
    var p :| Resolves(cat, Bounded(q), p) && IsDatasetOf(p, ds);
    Semantics.CompiledQueryMeaning(pf, k, cat, Bounded(q), p, ds, row, env);
  }

  function AggregateName(a: Aggregate): string {
    match a
    case CountFn => "COUNT" case SumFn => "SUM" case AvgFn => "AVG" case MinFn => "MIN" case MaxFn => "MAX"
  }

  /** For the five aggregate names the fall-back of `AggExpr` is never taken. */
  lemma AggExprKeepsName(k: Kw)
    requires Grammar.IsAggregate(k)
    ensures AggregateName(AggExpr(KwText(k))) == KwText(k)
  {
  }

  /** Every aggregate the source names is the one called, on the column or star it names. */
  lemma {:induction false} CompiledAggregates(pf: FloatParser, q: Query, ds: Dataset, i: nat)
    requires WfQuery(pf, q) && IsDatasetOf(q, ds) && !q.star && i < |q.columns|
    ensures i < |ds.select.value|
    ensures var x, e := q.columns[i], ds.select.value[i].base;
      if x.agg == "" then e == PlainColumn(ColIdent(x.column))
      else e.Call? && AggregateName(e.fn) == x.agg && (e.arg.StarArg? <==> x.star)
           && (if x.star then e.fn == CountFn else e.arg == ColumnArg(ColIdent(x.column)))
  {
    hide AggExpr, AggregateName, KwText, WfColumn, WfTableRef, WfJoin, WfCondition;
    var x := q.columns[i];
    assert WfSelectItem(x);
    if x.agg != "" {
      var k :| Grammar.IsAggregate(k) && KwText(k) == x.agg;
      AggExprKeepsName(k);
      CountIsCount();
    }
  }

  /** The aggregates of the language are the five the source lists. */
  lemma AggregatesExactly(k: Kw)
    ensures Grammar.IsAggregate(k) <==> KwText(k) in ["COUNT", "SUM", "AVG", "MIN", "MAX"]
  {
  }

  lemma CountIsCount()
    ensures AggExpr("COUNT") == CountFn
  {
  }

  // ---------- From the text to the dataset ----------

  /**
   Whatever is handed to the builder comes from a resolved query that keeps the invariant of
   accepted texts; so the branches of the translation for unknown operators and aggregates,
   and for an OFFSET without LIMIT, are never taken.
   */
  lemma {:induction false} CompiledIsWf(pf: FloatParser, cat: Catalog, src: string, ds: Dataset)
    returns (p: Query)
    requires Compiles(pf, cat, src, ds)
    ensures Resolves(cat, Bounded(Parser.ParseText(pf, src).value), p) && IsDatasetOf(p, ds)
    ensures WfQuery(pf, p)
    ensures forall x <- p.columns :: x.agg == "" || IsAggregateName(x.agg)
    ensures forall x <- p.joins :: Semantics.KnownOperators(x.on)
    ensures p.where.Some? ==> Semantics.KnownOperators(p.where.value)
  {
    hide Resolves, IsDatasetOf, Parser.ParseText, WfCondition, Semantics.KnownOperators;
    var q := Parser.ParseText(pf, src).value;
    p :| Resolves(cat, Bounded(q), p) && IsDatasetOf(p, ds);
    AcceptedIsWf(pf, src);
    BoundedKeepsWf(pf, q);
    ResolutionLaws.ResolveKeepsWf(pf, cat, Bounded(q), p);
    forall x <- p.joins
      ensures Semantics.KnownOperators(x.on)
    {
      assert WfJoin(pf, x);
      Semantics.WfHasKnownOperators(pf, x.on);
    }
    if p.where.Some? {
      Semantics.WfHasKnownOperators(pf, p.where.value);
    }
  }

  /** The identifier is the column the reference denotes, qualified by its table. */
  ghost predicate NamesColumn(cat: Catalog, ts: seq<TableRef>, c: Column, id: Ident) {
    id.Qualified? && DenotesColumn(cat, ts, c, id.table, id.name)
  }

  /** In GROUP BY and ORDER BY: a select alias, which is not qualified, or else a column. */
  ghost predicate NamesKey(cat: Catalog, q: Query, c: Column, id: Ident) {
    var names := Aliases(q.columns);
    if c.table == "" && IsAlias(names, Chars.Lower(c.name)) then
      id.Bare? && AliasOf(names, Chars.Lower(c.name)) == Some(id.name)
    else NamesColumn(cat, JoinTables(q), c, id)
  }

  ghost predicate NamesAlias(alias: string, e: Option<string>) {
    if alias == "" then e.None? else e == Some(alias)
  }

  /** The table in catalog spelling, under its alias if it has one. */
  ghost predicate NamesTable(cat: Catalog, t: TableRef, e: TableExpr) {
    Canonical(cat, t) == Some(e.name) && NamesAlias(t.alias, e.alias)
  }

  /** What the builder is given for an item is the aggregate, column and alias it names. */
  ghost predicate SelectMeans(cat: Catalog, ts: seq<TableRef>, x: SelectItem, e: SelectExpr) {
    && NamesAlias(x.alias, e.alias)
    && if x.agg == "" then e.base.PlainColumn? && NamesColumn(cat, ts, x.column, e.base.id)
       else
         && e.base.Call? && AggregateName(e.base.fn) == x.agg
         && if x.star then e.base.fn == CountFn && e.base.arg == StarArg
            else e.base.arg.ColumnArg? && NamesColumn(cat, ts, x.column, e.base.arg.id)
  }

  /** Every item of the source text, in order, and nothing else, is selected. */
  lemma {:induction false} CompiledSelect(pf: FloatParser, cat: Catalog, src: string, ds: Dataset)
    requires Compiles(pf, cat, src, ds)
    ensures var q := Parser.ParseText(pf, src).value;
      && ds.select.Some? == !q.star
      && (!q.star ==>
            && |ds.select.value| == |q.columns|
            && forall i :: 0 <= i < |q.columns| ==>
                 SelectMeans(cat, JoinTables(q), q.columns[i], ds.select.value[i]))
  {
    hide SelectMeans, WfQuery, Parser.ParseText;
    var q := Parser.ParseText(pf, src).value;
    var p := CompiledIsWf(pf, cat, src, ds);
    if !q.star {
      forall i | 0 <= i < |q.columns|
        ensures SelectMeans(cat, JoinTables(q), q.columns[i], ds.select.value[i])
      {
        CompiledItem(pf, cat, q, p, ds, i);
      }
    }
  }

  lemma {:induction false} CompiledItem(
      pf: FloatParser, cat: Catalog, q: Query, p: Query, ds: Dataset, i: nat)
    requires Resolves(cat, Bounded(q), p) && IsDatasetOf(p, ds) && WfQuery(pf, p)
    requires !q.star && i < |q.columns|
    ensures i < |ds.select.value| && SelectMeans(cat, JoinTables(q), q.columns[i], ds.select.value[i])
  {
    hide RefersTo, DenotesColumn, AggExpr, AggregateName, JoinTables, Bindable, CondRefersTo, WfCondition;
    var x, y := q.columns[i], p.columns[i];
    assert WfSelectItem(y) && ds.select.value[i] == SelectOf(y);
    CompiledAggregates(pf, p, ds, i);
    SameTables(q);
    assert ItemRefersTo(cat, JoinTables(q), Aliases(q.columns), x, y);
    if !x.star {
      RefersToColumn(cat, JoinTables(q), Aliases(q.columns), x.column, y.column);
    }
  }

  /**
   The other clauses of the source text reach the builder too: the tables in catalog spelling
   with their aliases and join kinds, the keys of GROUP BY and ORDER BY with their directions,
   the offset, and the limit within its bounds.
   */
  lemma {:induction false} CompiledClauses(pf: FloatParser, cat: Catalog, src: string, ds: Dataset)
    requires Compiles(pf, cat, src, ds)
    ensures var q := Parser.ParseText(pf, src).value;
      && NamesTable(cat, q.from, ds.from)
      && |ds.joins| == |q.joins|
      && (forall i :: 0 <= i < |q.joins| ==>
            ds.joins[i].kind == q.joins[i].kind && NamesTable(cat, q.joins[i].table, ds.joins[i].table))
      && |ds.groupBy| == |q.groupBy|
      && (forall i :: 0 <= i < |q.groupBy| ==> NamesKey(cat, q, q.groupBy[i], ds.groupBy[i]))
      && |ds.orderBy| == |q.orderBy|
      && (forall i :: 0 <= i < |q.orderBy| ==>
            ds.orderBy[i].desc == q.orderBy[i].desc && NamesKey(cat, q, q.orderBy[i].column, ds.orderBy[i].id))
      && ds.offset == q.offset
      && ds.limit == Some(if q.limit.None? then 1000 else if q.limit.value > 100000 then 100000 else q.limit.value)
  {
    hide NamesTable, NamesKey, RefersTo, CondRefersTo, Parser.ParseText, WfQuery, JoinTables, Aliases, Bindable;
    var q := Parser.ParseText(pf, src).value;
    var p := CompiledIsWf(pf, cat, src, ds);
    SameTables(q);
    TablesKnown(cat, q);
    CompiledTable(cat, q.from);
    forall i | 0 <= i < |q.joins|
      ensures ds.joins[i].kind == q.joins[i].kind && NamesTable(cat, q.joins[i].table, ds.joins[i].table)
    {
      CompiledTable(cat, q.joins[i].table);
    }
    forall i | 0 <= i < |q.groupBy|
      ensures NamesKey(cat, q, q.groupBy[i], ds.groupBy[i])
    {
      CompiledKey(cat, q, q.groupBy[i], p.groupBy[i]);
    }
    forall i | 0 <= i < |q.orderBy|
      ensures ds.orderBy[i].desc == q.orderBy[i].desc && NamesKey(cat, q, q.orderBy[i].column, ds.orderBy[i].id)
    {
      CompiledKey(cat, q, q.orderBy[i].column, p.orderBy[i].column);
    }
  }

  lemma TablesKnown(cat: Catalog, q: Query)
    requires Bindable(cat, JoinTables(q))
    ensures JoinTables(q)[0] == q.from && Canonical(cat, q.from).Some?
    ensures |JoinTables(q)| == |q.joins| + 1
    ensures forall i :: 0 <= i < |q.joins| ==>
      JoinTables(q)[i + 1] == q.joins[i].table && Canonical(cat, q.joins[i].table).Some?
  {
  }

  lemma CompiledTable(cat: Catalog, t: TableRef)
    requires Canonical(cat, t).Some?
    ensures NamesTable(cat, t, TableOf(ResolvedRef(cat, t)))
  {
  }

  lemma {:induction false} CompiledKey(cat: Catalog, q: Query, c: Column, d: Column)
    requires RefersTo(cat, JoinTables(q), Aliases(q.columns), c, true, d)
    ensures NamesKey(cat, q, c, ColIdent(d))
  {
    hide DenotesColumn, OnlyCandidate, IsColumnOf, IsAlias, AliasOf, WellNamed;
    if !(c.table == "" && IsAlias(Aliases(q.columns), Chars.Lower(c.name))) {
      RefersToColumn(cat, JoinTables(q), Aliases(q.columns), c, d);
    }
  }

  /**
   The values bound are what the literals of the text stand for, one for each and in their
   order, but for the limit: 1000 is added where none is given, 100000 replaces a larger one.
   */
  lemma {:induction false} CompiledValues(pf: FloatParser, cat: Catalog, src: string, ds: Dataset)
    returns (at: seq<int>, vs: seq<GoValue>)
    requires Compiles(pf, cat, src, ds)
    ensures var ts := Lexer.Scan(src).value; AreBound(ts, |ts|, at) && StandFor(pf, ts, at, vs)
    ensures LimitReplaced(Parser.ParseText(pf, src).value, vs, DatasetArgs(ds))
  {
    hide *;
    var q := CompilesParts(pf, cat, src, ds);
    var ts := Lexer.Scan(src).value;
    AcceptedIsWf(pf, src);
    CompiledLiterals(pf, cat, src, ds);
    ReadableQuery(pf, q);
    LimitNeeded(pf, q);
    vs := TokenLiterals(pf, ts, 0, |ts|);
    LimitIsReplaced(q, ConditionLiterals(q), vs, DatasetArgs(ds));
    at := TokenLiteralsStand(pf, ts, |ts|);
  }

  /** `bound` are the values `vs` of the text, with the limit within its bounds. */
  ghost predicate LimitReplaced(q: Query, vs: seq<GoValue>, bound: seq<GoValue>) {
    if q.limit.None? then bound == vs + [GoInt64(1000)]
    else
      var m := |vs| - if q.offset.Some? then 2 else 1;
      && 0 <= m && vs[m] == GoInt64(q.limit.value)
      && bound == if q.limit.value > 100000 then vs[m := GoInt64(100000)] else vs
  }

  lemma {:induction false} LimitIsReplaced(q: Query, a: seq<GoValue>, vs: seq<GoValue>, bound: seq<GoValue>)
    requires q.offset.Some? ==> q.limit.Some?
    requires vs == a + (CountLiteral(q.limit) + CountLiteral(q.offset))
    requires bound == a + ([GoInt64(EffectiveLimit(q.limit))] + CountLiteral(q.offset))
    ensures LimitReplaced(q, vs, bound)
  {
    if q.limit.Some? {
      assert vs[|a|] == GoInt64(q.limit.value);
      assert bound == vs[|a| := GoInt64(EffectiveLimit(q.limit))];
    }
  }

  lemma {:induction false} CompilesParts(pf: FloatParser, cat: Catalog, src: string, ds: Dataset) returns (q: Query)
    requires Compiles(pf, cat, src, ds)
    ensures Parser.ParseText(pf, src) == Some(q) && Lexer.Scan(src).Some?
    ensures QueryLiterals(q) == ConditionLiterals(q) + (CountLiteral(q.limit) + CountLiteral(q.offset))
  {
    q := Parser.ParseText(pf, src).value;
  }

  lemma LimitNeeded(pf: FloatParser, q: Query)
    requires WfQuery(pf, q)
    ensures q.offset.Some? ==> q.limit.Some?
  {
  }

  lemma SameTables(q: Query)
    ensures JoinTables(Bounded(q)) == JoinTables(q) && Aliases(Bounded(q).columns) == Aliases(q.columns)
  {
  }
}
