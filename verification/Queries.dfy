/** One-table queries. */
module Queries {
  import opened Base
  import opened Exprs
  import opened PlanModel
  import opened PlanTheorem
  import opened PlanAnswers
  import opened MemoModel
  import opened QueryMeaning
  import opened Scopes
  import opened IndexRewrite
  import opened WhereClause
  import opened FromClause
  import opened Pipeline
  import opened QueryRuns
  import MemoTable

  /**
   * `SELECT * FROM name AS alias WHERE x`, translated, rewritten to use an index, optimized and compiled. For a
   * known table, a valid alias and a clause whose names are columns of the table there is a plan. If the clause
   * is true or false on every row of the table, the operators of the plan run without aborting, and they yield
   * exactly the rows of the table that meet the clause.
   */
  method SelectWhere(tables: Tables, name: string, alias: Option<string>, x: Sql, infos: seq<IndexInfo>,
      m: Stats, cat: Option<Catalog>, next: ColId, ghost w: World, ghost width: TableId -> nat)
    returns (q: Option<Plan>, ghost s: Scope, ghost p: Logical)
    requires SmallTables(tables) && Widths(tables, width) && m.Valid()
    requires Fits(w, width) && CatalogAgrees(w, cat) && InfosAgree(w, infos)
    ensures name in tables && ValidAlias(alias) ==>
      && p.LRename? && p.src == LScan(tables[name].id, TableCols(tables[name])) && Injective(p.names)
      && p.names.Keys == Ids(p.src.cols) && WellNamed(s, name, tables[name], p.names, alias, p.names.Keys)
    ensures name in tables && ValidAlias(alias) && ToExpr(s, x).Some? && !x.SubSql? ==>
      && q.Some?
      && (Plain(x) && Decided(w.fp, ToExpr(s, x).value, LogicalRows(w, NONE, p)) ==>
            Yields(w, width, q.value, LogicalRows(w, NONE, LSelect(p, [ToExpr(s, x).value]))))
    ensures name !in tables || !ValidAlias(alias) ==> q == None
  {
    hide Names, NamesClear, WellNamed, Fits, CatalogAgrees, InfosAgree, IndexScansSound, NoneFails, LogicalRows, PhysicalRows,
      Prepared, Candidate, Annotate, Decided, Rewrite, InOrder, TableCols, Asked;
    var env := new Environment(None);
    var from := ProcessFrom(tables, BaseTable(name, alias), env, next);
    s, p := env.Model(), LScan(0, []);
    if from.None? {
      return None, s, p;
    }
    p := from.value.0;
    ColumnCount(tables[name]);
    assert WholeScan(width, p.src) && WholeScan(width, p);
    FitsFind(w, width);
    var plan, found := ProcessWhere(tables, env.Model(), from.value.0, x, infos, from.value.1, w, width, NONE);
    if plan.None? {
      return None, s, p;
    }
    var best, cost := MemoTable.Optimize(m, cat, plan.value, w, width, NONE);
    q := Some(best);
    if ToExpr(s, x).Some? && Plain(x) && Decided(w.fp, ToExpr(s, x).value, LogicalRows(w, NONE, p)) {
      AskedLength(tables, s, Exprs.Split(ToExpr(s, x).value), found);
      ClausePrepared(w, width, cat, s, p, x, found, infos);
      CandidateRuns(w, width, cat, plan.value, best);
    }
  }

  lemma ColumnCount(d: TableDef)
    ensures |TableCols(d)| == |d.attrs|
  {
  }

  lemma AskedLength(tables: Tables, s: Scope, conjs: seq<Expr>, found: seq<Answer>)
    requires Grounded(s) && Asked(tables, s, conjs, found)
    ensures |found| == |conjs|
  {
  }
}
