/** Clauses run to their rows. */
module QueryRuns {
  import opened Bags
  import opened Base
  import opened Exprs
  import opened PlanModel
  import opened PlanTheorem
  import opened PlanAnswers
  import opened MemoModel
  import opened QueryMeaning
  import opened Pipeline
  import opened Scopes
  import opened IndexRewrite
  import opened WhereClause

  // ------------------------------------------------------------------ the conjuncts of a clause

  /** Neither subqueries nor CASE. */
  predicate Plain(x: Sql) {
    match x
    case BinaryOf(_, l, r) => Plain(l) && Plain(r)
    case SubSql => false
    case CaseSql => false
    case _ => true
  }

  lemma {:induction false} PlainSupported(s: Scope, x: Sql)
    requires Plain(x) && ToExpr(s, x).Some?
    ensures Supported(ToExpr(s, x).value)
  {
    if x.BinaryOf? {
      PlainSupported(s, x.left);
      PlainSupported(s, x.right);
    }
  }

  lemma {:induction false} SplitBound(e: Expr, ids: set<ColId>)
    requires PlanModel.Bound(e, ids)
    ensures forall c | c in Split(e) :: PlanModel.Bound(c, ids)
  {
    if e.Binary? && e.op == And {
      SplitBound(e.left, ids);
      SplitBound(e.right, ids);
    }
  }

  /** A conjunction that is true or false has conjuncts that are. */
  lemma {:induction false} SplitDecided(fp: Rounded, e: Expr, rows: seq<Named>)
    requires Decided(fp, e, rows)
    ensures forall c | c in Split(e) :: Decided(fp, c, rows)
  {
    if e.Binary? && e.op == And {
      forall i | 0 <= i < |rows|
        ensures Value(fp, e.left, EnvOf(rows[i])).Some? && Value(fp, e.left, EnvOf(rows[i])).value.Bool?
        ensures Value(fp, e.right, EnvOf(rows[i])).Some? && Value(fp, e.right, EnvOf(rows[i])).value.Bool?
      {
        assert Value(fp, e, EnvOf(rows[i])).Some?;
      }
      SplitDecided(fp, e.left, rows);
      SplitDecided(fp, e.right, rows);
    }
  }

  lemma {:induction false} ResidualFrom(conjs: seq<Expr>, used: set<nat>, n: nat, e: Expr)
    requires n <= |conjs| && e in Residual(conjs, used, n)
    ensures e in conjs
  {
    if e in Residual(conjs, used, n - 1) {
      ResidualFrom(conjs, used, n - 1, e);
    }
  }

  // ------------------------------------------------------------------ the rewritten plan

  /** Tables are as wide as their definitions. */
  ghost predicate Widths(tables: Tables, width: TableId -> nat) {
    forall name | name in tables :: width(tables[name].id) == |tables[name].attrs|
  }

  /** A renamed scan of a whole table, in order. */
  ghost predicate WholeTable(width: TableId -> nat, p: Logical) {
    && p.LRename? && p.src.LScan? && p.names.Keys == Ids(p.src.cols) && Injective(p.names)
    && InOrder(p.src.cols) && |p.src.cols| == width(p.src.table)
  }

  lemma ScanFormed(width: TableId -> nat, p: Logical, index: nat, key: Key)
    requires WholeTable(width, p)
    ensures Formed(width, p) && Formed(width, ReplaceScan(p, index, key))
    ensures LogicalCols(p) == LogicalCols(ReplaceScan(p, index, key)) == p.names.Values
  {
    var cols := p.src.cols;
    forall id | id in cols ensures ColumnIndex(id) < width(p.src.table) {
      var i :| 0 <= i < |cols| && cols[i] == id;
    }
  }

  lemma {:induction false} FlatMember<T, U>(f: T -> seq<U>, s: seq<T>, x: U) returns (y: T)
    requires x in Flat(f, s)
    ensures y in s && x in f(y)
  {
    if x in f(s[0]) {
      y := s[0];
    } else {
      y := FlatMember(f, s[1..], x);
    }
  }

  lemma {:induction false} FlatHas<T, U>(f: T -> seq<U>, s: seq<T>, y: T, x: U)
    requires y in s && x in f(y)
    ensures x in Flat(f, s)
  {
    if y != s[0] {
      FlatHas(f, s[1..], y, x);
    }
  }

  /** The index scan yields only rows of the scan. */
  lemma ReplacedIn(w: World, p: Logical, index: nat, key: Key, r: Named)
    requires FindScan(p).Some? && r in LogicalRows(w, NONE, ReplaceScan(p, index, key))
    ensures r in LogicalRows(w, NONE, p)
  {
    hide LogicalRows, Flat, RowsWithKey, RowsOf, ReplaceScan;
    var db := w.db(FindScan(p).value);
    SourceRows(w, NONE, p, index, key);
    var row := FlatMember(RowsOf(p), RowsWithKey(db, w.keyColumns(index), key), r);
    FoundIn(db, w.keyColumns(index), key, row);
    FlatHas(RowsOf(p), db, row, r);
  }

  lemma ReplacedDecided(w: World, p: Logical, index: nat, key: Key, e: Expr)
    requires FindScan(p).Some? && Decided(w.fp, e, LogicalRows(w, NONE, p))
    ensures Decided(w.fp, e, LogicalRows(w, NONE, ReplaceScan(p, index, key)))
  {
    hide LogicalRows, Value, ReplaceScan;
    var rows := LogicalRows(w, NONE, ReplaceScan(p, index, key));
    forall i | 0 <= i < |rows| ensures Value(w.fp, e, EnvOf(rows[i])).Some? && Value(w.fp, e, EnvOf(rows[i])).value.Bool? {
      ReplacedIn(w, p, index, key, rows[i]);
    }
  }

  lemma ScanRuns(w: World, p: Logical, index: nat, key: Key)
    requires p.LRename? && p.src.LScan?
    ensures LogicalRuns(w, p) && LogicalRuns(w, ReplaceScan(p, index, key))
  {
  }

  /** A clause over a whole table, rewritten or not, is a plan that translates and runs, if it is decided on every row. */
  lemma RewritePrepared(w: World, width: TableId -> nat, cat: Option<Catalog>, p: Logical, conjs: seq<Expr>,
      found: seq<Answer>, infos: seq<IndexInfo>)
    requires WholeTable(width, p) && Fits(w, width) && CatalogAgrees(w, cat) && InfosAgree(w, infos) && |found| == |conjs|
    requires forall c | c in conjs :: PlanModel.Bound(c, p.names.Values) && Decided(w.fp, c, LogicalRows(w, NONE, p))
    ensures Prepared(w, width, cat, Filtering(Rewrite(p, conjs, found, infos)))
  {
    hide ResolvedTo, ReplaceScan, Residual, KeyFor, UsedBy, LogicalRows, PlanModel.Bound, Decided, Fits, CatalogAgrees, AllDecided,
      IndexScansSound, InOrder, FirstCovered, Covers;
    assert WholeScan(width, p.src) && WholeScan(width, p);
    RewriteSound(w, width, NONE, p, conjs, found, infos);
    assert FindScan(p.src) == Some(p.src.table) && FindScan(p) == Some(p.src.table);
    var m := ResolvedTo(found, p.src.table, conjs, |conjs|);
    var info := FirstCovered(m, infos);
    if m == map[] || info.None? {
      ScanFormed(width, p, 0, []);
      ScanRuns(w, p, 0, []);
      EachDecided(w.fp, conjs, LogicalRows(w, NONE, p));
    } else {
      var columns := info.value.columns;
      var key, residual := KeyFor(m, columns), Residual(conjs, UsedBy(m, columns), |conjs|);
      ScanFormed(width, p, info.value.id, key);
      ScanRuns(w, p, info.value.id, key);
      forall e | e in residual
        ensures PlanModel.Bound(e, p.names.Values)
        ensures Decided(w.fp, e, LogicalRows(w, NONE, ReplaceScan(p, info.value.id, key)))
      {
        ResidualFrom(conjs, UsedBy(m, columns), |conjs|, e);
        ReplacedDecided(w, p, info.value.id, key, e);
      }
      EachDecided(w.fp, residual, LogicalRows(w, NONE, ReplaceScan(p, info.value.id, key)));
    }
  }

  lemma ClauseBound(s: Scope, p: Logical, x: Sql)
    requires Names(s, p) && p.LRename? && p.src.LScan? && p.names.Keys == Ids(p.src.cols) && Plain(x) && ToExpr(s, x).Some?
    ensures PlanModel.Bound(ToExpr(s, x).value, p.names.Values)
  {
    hide Free, Supported;
    var e := ToExpr(s, x).value;
    PlainSupported(s, x);
    OwnOnly(s, x);
    forall id | id in Free(e) ensures id in p.names.Values {
      var n :| n in s.columns && s.columns[n] == id;
      assert Placed(s, p, s.columns[n]);
      RenameKeys(p.names, Columns(p.src));
    }
  }

  /** A clause as the text has it: decided on every row of the table it is about. */
  lemma ClausePrepared(w: World, width: TableId -> nat, cat: Option<Catalog>, s: Scope, p: Logical, x: Sql,
      found: seq<Answer>, infos: seq<IndexInfo>)
    requires Names(s, p) && Plain(x) && ToExpr(s, x).Some? && |found| == |Split(ToExpr(s, x).value)|
    requires WholeTable(width, p) && Fits(w, width) && CatalogAgrees(w, cat) && InfosAgree(w, infos)
    requires Decided(w.fp, ToExpr(s, x).value, LogicalRows(w, NONE, p))
    ensures Prepared(w, width, cat, Filtering(Rewrite(p, Split(ToExpr(s, x).value), found, infos)))
  {
    hide Names, ToExpr, Split, LogicalRows, PlanModel.Bound, Decided, Rewrite, Prepared, Fits, InOrder;
    var e := ToExpr(s, x).value;
    ClauseBound(s, p, x);
    SplitBound(e, p.names.Values);
    SplitDecided(w.fp, e, LogicalRows(w, NONE, p));
    RewritePrepared(w, width, cat, p, Split(e), found, infos);
  }

  lemma FitsFind(w: World, width: TableId -> nat)
    requires Fits(w, width)
    ensures ProbesFind(w)
  {
  }
}
