/** The WHERE clause. */
module WhereClause {
  import opened Bags
  import opened Base
  import opened Exprs
  import opened PlanModel
  import opened QueryMeaning
  import opened Scopes
  import opened IndexRewrite

  // ------------------------------------------------------------------ names to columns

  /** An expression as written. */
  datatype Sql = Ident(name: string) | Const(val: Field) | BinaryOf(op: Op, left: Sql, right: Sql) | SubSql | CaseSql

  /** The expression over columns of this query only; nothing when a name is not one of them. */
  function ToExpr(s: Scope, x: Sql): (e: Option<Expr>) {
    match x
    case Ident(name) => if name in s.columns then Some(ColRef(s.columns[name])) else None
    case Const(val) => Some(Lit(val))
    case BinaryOf(op, l, r) =>
      var a, b := ToExpr(s, l), ToExpr(s, r);
      if a.Some? && b.Some? then Some(Binary(op, a.value, b.value)) else None
    case SubSql => Some(CaseOrQuery)
    case CaseSql => Some(CaseOrQuery)
  }

  /** The expression over columns of this query and of those around it. */
  function ToAnyExpr(s: Scope, x: Sql): (e: Option<Expr>) {
    match x
    case Ident(name) => var id := Lookup(s, name); if id.Some? then Some(ColRef(id.value)) else None
    case Const(val) => Some(Lit(val))
    case BinaryOf(op, l, r) =>
      var a, b := ToAnyExpr(s, l), ToAnyExpr(s, r);
      if a.Some? && b.Some? then Some(Binary(op, a.value, b.value)) else None
    case SubSql => Some(CaseOrQuery)
    case CaseSql => Some(CaseOrQuery)
  }

  ghost predicate OwnColumns(s: Scope, e: Expr) {
    forall id | id in Free(e) :: id in s.columns.Values
  }

  lemma {:induction false} OwnOnly(s: Scope, x: Sql)
    requires ToExpr(s, x).Some?
    ensures OwnColumns(s, ToExpr(s, x).value)
  {
    if x.BinaryOf? {
      OwnOnly(s, x.left);
      OwnOnly(s, x.right);
    }
  }

  lemma {:induction false} OwnConjuncts(s: Scope, e: Expr)
    requires OwnColumns(s, e)
    ensures forall i | 0 <= i < |Split(e)| :: OwnColumns(s, Split(e)[i])
  {
    if e.Binary? && e.op == And {
      OwnConjuncts(s, e.left);
      OwnConjuncts(s, e.right);
    }
  }

  // ------------------------------------------------------------------ which names are safe

  /**
   * The origin of a column is known, or some `table.column` name of it is in the catalog, and those that are
   * columns of the scanned table are all at the column's own position.
   */
  ghost predicate Clear(tables: Tables, s: Scope, p: Logical, id: ColId)
    requires Names(s, p) && id in s.columns.Values
  {
    PlacedAll(s, p, id);
    id in s.origins ||
    (Hits(tables, s, id) != {} && forall h | h in Hits(tables, s, id) && h.0 == FindScan(p).value :: h.1 == Columns(p)[id])
  }

  lemma PlacedAll(s: Scope, p: Logical, id: ColId)
    requires Names(s, p) && id in s.columns.Values
    ensures Placed(s, p, id)
  {
    var n :| n in s.columns && s.columns[n] == id;
  }

  ghost predicate NamesClear(tables: Tables, s: Scope, p: Logical)
    requires Names(s, p)
  {
    forall id | id in s.columns.Values :: Clear(tables, s, p, id)
  }

  lemma ClearLeads(tables: Tables, s: Scope, p: Logical, id: ColId, a: Answer)
    requires Names(s, p) && id in s.columns.Values && Clear(tables, s, p, id) && Leads(tables, s, id, a)
    ensures a != Panics
    ensures id in Columns(p) && (a.BaseColumn? && a.table == FindScan(p).value ==> a.index == Columns(p)[id])
  {
    PlacedAll(s, p, id);
  }

  lemma ClearHonest(tables: Tables, s: Scope, p: Logical, conjs: seq<Expr>, found: seq<Answer>)
    requires Names(s, p) && NamesClear(tables, s, p) && Asked(tables, s, conjs, found)
    requires forall i | 0 <= i < |conjs| :: OwnColumns(s, conjs[i])
    ensures Honest(found, conjs, p) && !Panicked(conjs, found)
  {
    hide Leads, Clear, Columns, Hits;
    forall i | 0 <= i < |conjs| && ColumnEq(conjs[i]).Some?
      ensures var id := ColumnEq(conjs[i]).value.0;
        && found[i] != Panics && id in Columns(p)
        && (found[i].BaseColumn? && found[i].table == FindScan(p).value ==> found[i].index == Columns(p)[id])
    {
      assert ColumnEq(conjs[i]).value.0 in Free(conjs[i]) && OwnColumns(s, conjs[i]);
      ClearLeads(tables, s, p, ColumnEq(conjs[i]).value.0, found[i]);
    }
  }

  // ------------------------------------------------------------------ the clause

  lemma {:induction false} KeptAlike(fp: Rounded, outer: Named, a: seq<Expr>, b: seq<Expr>, rows: seq<Named>)
    requires forall r :: AllHold(fp, a, EnvOf(outer + r)) <==> AllHold(fp, b, EnvOf(outer + r))
    ensures Flat(Keeping(fp, outer, a), rows) == Flat(Keeping(fp, outer, b), rows)
  {
    hide AllHold;
    if rows == [] {
    } else {
      KeptAlike(fp, outer, a, b, rows[1..]);
    }
  }

  lemma SplitSelects(w: World, outer: Named, p: Logical, e: Expr)
    ensures LogicalRows(w, outer, LSelect(p, Split(e))) == LogicalRows(w, outer, LSelect(p, [e]))
  {
    hide AllHold, Holds, Flat;
    forall r: Named ensures AllHold(w.fp, Split(e), EnvOf(outer + r)) <==> AllHold(w.fp, [e], EnvOf(outer + r)) {
      SplitHolds(w.fp, e, EnvOf(outer + r));
      OneHolds(w.fp, e, EnvOf(outer + r));
    }
    KeptAlike(w.fp, outer, Split(e), [e], LogicalRows(w, outer, p));
  }

  /**
   * A WHERE clause over a scan whose names are clear: the rewrite does not panic, and the plan it returns
   * selects what the clause asks for, in whatever order names are tried.
   */
  lemma WhereRight(w: World, outer: Named, tables: Tables, s: Scope, p: Logical, x: Sql, found: seq<Answer>,
      infos: seq<IndexInfo>)
    requires Names(s, p) && NamesClear(tables, s, p) && InfosAgree(w, infos) && ToExpr(s, x).Some?
    requires Asked(tables, s, Split(ToExpr(s, x).value), found)
    ensures var conjs := Split(ToExpr(s, x).value); var (p', residual) := Rewrite(p, conjs, found, infos);
      && !Panicked(conjs, found)
      && LogicalRows(w, outer, LSelect(p', residual)) == LogicalRows(w, outer, LSelect(p, [ToExpr(s, x).value]))
  {
    hide Names, NamesClear, OwnColumns, Asked, Honest, Panicked, LogicalRows, Rewrite;
    var e := ToExpr(s, x).value;
    OwnOnly(s, x);
    OwnConjuncts(s, e);
    AskedGrounded(s, p);
    ClearHonest(tables, s, p, Split(e), found);
    RewritePreserves(w, outer, p, Split(e), found, infos);
    SplitSelects(w, outer, p, e);
  }

  lemma AskedGrounded(s: Scope, p: Logical)
    requires Names(s, p)
    ensures Grounded(s)
  {
  }

  /** The clause with its value in a column of its own: what a clause that reads an enclosing query becomes. */
  function Mapped(p: Logical, e: Expr, id: ColId): (q: Logical) {
    LSelect(LMap(p, [(id, e)]), [ColRef(id)])
  }

  lemma MappedRow(fp: Rounded, outer: Named, e: Expr, id: ColId, r: Named)
    ensures var r' := Extend(r, ExprIds([(id, e)]), ExprVals(fp, [(id, e)], outer + r));
      AllHold(fp, [ColRef(id)], EnvOf(outer + r')) <==> AllHold(fp, [e], EnvOf(outer + r))
  {
    var v := Value(fp, e, EnvOf(outer + r));
    var r' := Extend(r, ExprIds([(id, e)]), ExprVals(fp, [(id, e)], outer + r));
    assert ExprIds([(id, e)]) == [id] && ExprVals(fp, [(id, e)], outer + r) == [Got(v)];
    assert [id][..0] == [] && Extend(r, [], []) == r;
    assert r' == r[id := Got(v)];
    assert Value(fp, ColRef(id), EnvOf(outer + r')) == Some(Got(v));
    OneHolds(fp, ColRef(id), EnvOf(outer + r'));
    OneHolds(fp, e, EnvOf(outer + r));
  }

  lemma {:induction false} MappedFlat(fp: Rounded, outer: Named, e: Expr, id: ColId, rows: seq<Named>)
    ensures Flat(Keeping(fp, outer, [ColRef(id)]), Flat(Extending(fp, outer, [(id, e)]), rows))
      == Flat(Extending(fp, outer, [(id, e)]), Flat(Keeping(fp, outer, [e]), rows))
  {
    hide AllHold, Extend, ExprVals, ExprIds;
    if rows == [] {
    } else {
      var r, f, g, h := rows[0], Keeping(fp, outer, [ColRef(id)]), Extending(fp, outer, [(id, e)]), Keeping(fp, outer, [e]);
      MappedFlat(fp, outer, e, id, rows[1..]);
      MappedRow(fp, outer, e, id, r);
      FlatCat(f, g(r), Flat(g, rows[1..]));
      FlatCat(g, h(r), Flat(h, rows[1..]));
      var r' := Extend(r, ExprIds([(id, e)]), ExprVals(fp, [(id, e)], outer + r));
      FlatOne(f, r');
      FlatOne(g, r);
    }
  }

  /** It keeps the rows on which the clause holds, each with that column added. */
  lemma MappedSelects(w: World, outer: Named, p: Logical, e: Expr, id: ColId)
    ensures LogicalRows(w, outer, Mapped(p, e, id))
      == Flat(Extending(w.fp, outer, [(id, e)]), LogicalRows(w, outer, LSelect(p, [e])))
  {
    hide Flat, Extending, Keeping;
    MappedFlat(w.fp, outer, e, id, LogicalRows(w, outer, p));
    assert LogicalRows(w, outer, LMap(p, [(id, e)])) == Flat(Extending(w.fp, outer, [(id, e)]), LogicalRows(w, outer, p));
  }

  function Filtering(r: (Logical, seq<Expr>)): (q: Logical) {
    LSelect(r.0, r.1)
  }

  /**
   * Translate a clause. A clause that is a subquery, and one with a name that only an enclosing query has, go
   * another way, without a rewrite; a name that no query has is an error. Nothing also stands for a panic.
   */
  method ProcessWhere(tables: Tables, s: Scope, p: Logical, x: Sql, infos: seq<IndexInfo>, next: ColId,
      ghost w: World, ghost width: TableId -> nat, ghost outer: Named)
    returns (r: Option<Logical>, ghost found: seq<Answer>)
    requires Names(s, p) && InfosAgree(w, infos)
    ensures ToExpr(s, x).Some? && !x.SubSql? && NamesClear(tables, s, p) ==>
      r.Some? && LogicalRows(w, outer, r.value) == LogicalRows(w, outer, LSelect(p, [ToExpr(s, x).value]))
    ensures r.Some? && ToExpr(s, x).Some? && !x.SubSql? ==>
      && Asked(tables, s, Split(ToExpr(s, x).value), found)
      && r.value == Filtering(Rewrite(p, Split(ToExpr(s, x).value), found, infos))
    ensures x.SubSql? ==> r == Some(Mapped(p, CaseOrQuery, next))
    ensures ToExpr(s, x).None? ==>
      r == if ToAnyExpr(s, x).Some? then Some(Mapped(p, ToAnyExpr(s, x).value, next)) else None
    ensures r.Some? && WholeScan(width, p) ==> IndexScansSound(w, width, r.value) && NoneFails(w, outer, r.value)
  {
    hide Names, NamesClear, LogicalRows, Rewrite, Asked, Leads, Clear;
    AskedGrounded(s, p);
    if WholeScan(width, p) {
      WholeSound(w, width, outer, p);
    }
    if x.SubSql? {
      return Some(Mapped(p, CaseOrQuery, next)), [];
    }
    var e := ToExpr(s, x);
    if e.None? {
      var any := ToAnyExpr(s, x);
      return if any.Some? then Some(Mapped(p, any.value, next)) else None, [];
    }
    var conjs := Split(e.value);
    var rewritten;
    rewritten, found := TryIndexRewrite(tables, s, p, conjs, infos);
    if rewritten.None? {
      if NamesClear(tables, s, p) {
        var i :| 0 <= i < |conjs| && ColumnEq(conjs[i]).Some? && Leads(tables, s, ColumnEq(conjs[i]).value.0, Panics);
        NoPanic(tables, s, p, x, i);
      }
      return None, found;
    }
    if NamesClear(tables, s, p) {
      ScanFound(s, p);
      WhereRight(w, outer, tables, s, p, x, found, infos);
    }
    if WholeScan(width, p) {
      ScanFound(s, p);
      RewriteSound(w, width, outer, p, conjs, found, infos);
    }
    ScanFound(s, p);
    return Some(Filtering(rewritten.value)), found;
  }

  /** A scan that lists all of its table's columns, in order, under any renames. */
  ghost predicate WholeScan(width: TableId -> nat, p: Logical) {
    match p
    case LScan(t, cols) => InOrder(cols) && |cols| == width(t)
    case LRename(src, _) => WholeScan(width, src)
    case _ => false
  }

  lemma {:induction false} WholeSound(w: World, width: TableId -> nat, outer: Named, p: Logical)
    requires WholeScan(width, p)
    ensures IndexScansSound(w, width, p) && NoneFails(w, outer, p)
  {
    if p.LRename? {
      WholeSound(w, width, outer, p.src);
    }
  }

  lemma {:induction false} ReplacedSound(w: World, width: TableId -> nat, outer: Named, p: Logical, info: IndexInfo, key: Key)
    requires WholeScan(width, p) && w.keyColumns(info.id) == info.columns && |key| == |info.columns|
    ensures IndexScansSound(w, width, ReplaceScan(p, info.id, key)) && NoneFails(w, outer, ReplaceScan(p, info.id, key))
  {
    if p.LRename? {
      ReplacedSound(w, width, outer, p.src, info, key);
    }
  }

  /** The rewrite of such a scan is one whose forms are all right. */
  lemma RewriteSound(w: World, width: TableId -> nat, outer: Named, p: Logical, conjs: seq<Expr>, found: seq<Answer>, infos: seq<IndexInfo>)
    requires WholeScan(width, p) && InfosAgree(w, infos) && |found| == |conjs|
    ensures var (p', residual) := Rewrite(p, conjs, found, infos);
      IndexScansSound(w, width, LSelect(p', residual)) && NoneFails(w, outer, LSelect(p', residual))
  {
    hide ResolvedTo, ReplaceScan, WholeScan, Residual, KeyFor, UsedBy;
    WholeSound(w, width, outer, p);
    if FindScan(p).Some? {
      var m := ResolvedTo(found, FindScan(p).value, conjs, |conjs|);
      var info := FirstCovered(m, infos);
      if m != map[] && info.Some? {
        ReplacedSound(w, width, outer, p, info.value, KeyFor(m, info.value.columns));
      }
    }
  }

  lemma ScanFound(s: Scope, p: Logical)
    requires Names(s, p)
    ensures FindScan(p).Some?
  {
  }

  lemma NoPanic(tables: Tables, s: Scope, p: Logical, x: Sql, i: nat)
    requires Names(s, p) && NamesClear(tables, s, p) && ToExpr(s, x).Some? && i < |Split(ToExpr(s, x).value)|
    requires ColumnEq(Split(ToExpr(s, x).value)[i]).Some?
    ensures !Leads(tables, s, ColumnEq(Split(ToExpr(s, x).value)[i]).value.0, Panics)
  {
    hide Leads, Clear, Split;
    var e := ToExpr(s, x).value;
    OwnOnly(s, x);
    OwnConjuncts(s, e);
    var id := ColumnEq(Split(e)[i]).value.0;
    assert id in Free(Split(e)[i]) && OwnColumns(s, Split(e)[i]);
    if Leads(tables, s, id, Panics) {
      ClearLeads(tables, s, p, id, Panics);
    }
  }

  // ------------------------------------------------------------------ the exact condition

  /** Whatever the clause, the order of names, the indexes and the tables: no panic, and the right rows. */
  ghost predicate AlwaysRight(tables: Tables, s: Scope, p: Logical)
    requires Grounded(s)
  {
    forall w: World, outer: Named, x: Sql, found: seq<Answer>, infos: seq<IndexInfo> |
      InfosAgree(w, infos) && ToExpr(s, x).Some? && !x.SubSql? && Asked(tables, s, Split(ToExpr(s, x).value), found) ::
      SelectsRight(w, outer, p, ToExpr(s, x).value, found, infos)
  }

  ghost predicate SelectsRight(w: World, outer: Named, p: Logical, e: Expr, found: seq<Answer>, infos: seq<IndexInfo>)
    requires |found| == |Split(e)|
  {
    var (p', residual) := Rewrite(p, Split(e), found, infos);
    && !Panicked(Split(e), found)
    && LogicalRows(w, outer, LSelect(p', residual)) == LogicalRows(w, outer, LSelect(p, [e]))
  }

  /** A row with 1 at position `c` and 0 elsewhere. */
  function Marked(c: nat, i: nat): (row: Row)
    ensures At(row, c) == BigInt(1) && (i != c ==> At(row, i) == BigInt(0))
  {
    seq(c + i + 1, j => if j == c then BigInt(1) else BigInt(0))
  }

  /** The same world with one row in one table and an index on one column. */
  ghost function Probing(w: World, t: TableId, row: Row, i: nat): (w': World)
    ensures w'.db(t) == [row] && InfosAgree(w', [IndexInfo(0, [i])])
  {
    w.(db := (x: TableId) => if x == t then [row] else [], keyColumns := (index: nat) => [i])
  }

  lemma HitLeads(tables: Tables, s: Scope, id: ColId, t: TableId, i: nat)
    requires Grounded(s) && id !in s.origins && (t, i) in Hits(tables, s, id)
    ensures Leads(tables, s, id, BaseColumn(t, i))
  {
    hide Hits;
  }

  /** One equality on a column that a name leads to another position. */
  lemma Misled(w: World, tables: Tables, s: Scope, p: Logical, name: string, i: nat)
    requires Names(s, p) && name in s.columns && s.columns[name] !in s.origins
    requires (FindScan(p).value, i) in Hits(tables, s, s.columns[name]) && i != Columns(p)[s.columns[name]]
    ensures var found, infos := [BaseColumn(FindScan(p).value, i)], [IndexInfo(0, [i])];
      var e := Binary(Eq, ColRef(s.columns[name]), Lit(BigInt(1)));
      && Asked(tables, s, Split(e), found)
      && exists w' :: InfosAgree(w', infos) && !SelectsRight(w', map[], p, e, found, infos)
  {
    hide Rewrite, ReplaceScan, LogicalRows, Leads, Hits, Columns, Probing, Marked;
    var id, t := s.columns[name], FindScan(p).value;
    var e := Binary(Eq, ColRef(id), Lit(BigInt(1)));
    var found, infos := [BaseColumn(t, i)], [IndexInfo(0, [i])];
    assert Placed(s, p, id);
    var c := Columns(p)[id];
    HitLeads(tables, s, id, t, i);
    assert Split(e) == [e] && Leads(tables, s, id, found[0]);
    var row := Marked(c, i);
    var w' := Probing(w, t, row, i);
    OneConjunct(p, e, i, IndexInfo(0, [i]));
    MisledRows(w', p, e, row, i);
    assert InfosAgree(w', infos);
  }

  /** The one conjunct of a query, turned into the key of a one-column index. */
  lemma OneConjunct(p: Logical, e: Expr, i: nat, info: IndexInfo)
    requires FindScan(p).Some? && ColumnEq(e).Some? && info.columns == [i]
    ensures Rewrite(p, [e], [BaseColumn(FindScan(p).value, i)], [info]) == (ReplaceScan(p, info.id, [ColumnEq(e).value.1]), [])
  {
    var conjs, v, t := [e], ColumnEq(e).value.1, FindScan(p).value;
    var found := [BaseColumn(t, i)];
    var m := ResolvedTo(found, t, conjs, 1);
    assert ResolvedTo(found, t, conjs, 0) == map[];
    assert m == map[i := (v, 0)];
    assert Covers(m, [i]) && KeyFor(m, [i]) == [v];
    assert i in [i] && 0 in UsedBy(m, [i]);
    assert Residual(conjs, UsedBy(m, [i]), 0) == [];
  }

  /** The clause keeps the row, and the index does not find it. */
  lemma MisledRows(w: World, p: Logical, e: Expr, row: Row, i: nat)
    requires FindScan(p).Some? && w.db(FindScan(p).value) == [row] && w.keyColumns(0) == [i]
    requires ColumnEq(e).Some? && ColumnEq(e).value.0 in Columns(p) && ColumnEq(e).value.1 == BigInt(1)
    requires At(row, Columns(p)[ColumnEq(e).value.0]) == BigInt(1) && At(row, i) == BigInt(0)
    ensures LogicalRows(w, map[], LSelect(ReplaceScan(p, 0, [BigInt(1)]), [])) != LogicalRows(w, map[], LSelect(p, [e]))
  {
    hide ReplaceScan, Columns;
    SourceRows(w, map[], p, 0, [BigInt(1)]);
    assert ExtractKey(row, [i]) == [BigInt(0)];
    assert [row][1..] == [];
    assert RowsWithKey([row], [i], [BigInt(1)]) == [];
    FlatOne(RowsOf(p), row);
    var r := RowOf(p, row);
    FlatOne(Keeping(w.fp, map[], [e]), r);
    EqHolds(w.fp, e, map[] + r);
    OneHolds(w.fp, e, EnvOf(map[] + r));
  }

  /** A column that no name leads anywhere. */
  lemma Astray(tables: Tables, s: Scope, p: Logical, name: string)
    requires Names(s, p) && name in s.columns && s.columns[name] !in s.origins && Hits(tables, s, s.columns[name]) == {}
    ensures Leads(tables, s, s.columns[name], Panics)
  {
    assert Placed(s, p, s.columns[name]);
    if s.outer.Some? {
      UnknownPanics(tables, s.outer.value, s.columns[name], Panics);
    }
  }

  /**
   * Over a scan, index rewrites are right for all clauses, name orders, indexes and tables if and only if
   * every column that can be named is clear.
   */
  lemma ClearIff(w: World, tables: Tables, s: Scope, p: Logical)
    requires Names(s, p)
    ensures AlwaysRight(tables, s, p) <==> NamesClear(tables, s, p)
  {
    hide InfosAgree, SelectsRight, Columns, Leads;
    if NamesClear(tables, s, p) {
      forall w': World, outer: Named, x: Sql, found: seq<Answer>, infos: seq<IndexInfo> |
        InfosAgree(w', infos) && ToExpr(s, x).Some? && Asked(tables, s, Split(ToExpr(s, x).value), found)
        ensures SelectsRight(w', outer, p, ToExpr(s, x).value, found, infos)
      {
        ClearRight(w', outer, tables, s, p, x, found, infos);
      }
    } else {
      var id :| id in s.columns.Values && !Clear(tables, s, p, id);
      var name :| name in s.columns && s.columns[name] == id;
      NotRight(w, tables, s, p, name);
    }
  }

  lemma ClearRight(w: World, outer: Named, tables: Tables, s: Scope, p: Logical, x: Sql, found: seq<Answer>,
      infos: seq<IndexInfo>)
    requires Names(s, p) && NamesClear(tables, s, p) && InfosAgree(w, infos) && ToExpr(s, x).Some?
    requires Asked(tables, s, Split(ToExpr(s, x).value), found)
    ensures SelectsRight(w, outer, p, ToExpr(s, x).value, found, infos)
  {
    hide Names, NamesClear, Panicked, LogicalRows, Rewrite, InfosAgree;
    WhereRight(w, outer, tables, s, p, x, found, infos);
  }

  /** The clause `name = 1` is the one equality that its column is asked about. */
  lemma OneEquality(s: Scope, name: string)
    requires name in s.columns
    ensures var e := Binary(Eq, ColRef(s.columns[name]), Lit(BigInt(1)));
      && ToExpr(s, BinaryOf(Eq, Ident(name), Const(BigInt(1)))) == Some(e)
      && Split(e) == [e] && ColumnEq(e) == Some((s.columns[name], BigInt(1)))
  {
    assert ToExpr(s, Ident(name)) == Some(ColRef(s.columns[name]));
    assert ToExpr(s, Const(BigInt(1))) == Some(Lit(BigInt(1)));
  }

  lemma PanicWrong(w: World, p: Logical, e: Expr)
    requires Split(e) == [e] && ColumnEq(e).Some?
    ensures !SelectsRight(w, map[], p, e, [Panics], [])
  {
    hide Rewrite, LogicalRows, Split;
    assert Split(e)[0] == e && [Panics][0] == Panics;
    assert Panicked(Split(e), [Panics]);
  }

  lemma NotRight(w: World, tables: Tables, s: Scope, p: Logical, name: string)
    requires Names(s, p) && name in s.columns && !Clear(tables, s, p, s.columns[name])
    ensures !AlwaysRight(tables, s, p)
  {
    hide Leads, SelectsRight, Split, ToExpr, ColumnEq, Columns;
    var id := s.columns[name];
    var e := Binary(Eq, ColRef(id), Lit(BigInt(1)));
    OneEquality(s, name);
    if Hits(tables, s, id) == {} {
      Astray(tables, s, p, name);
      PanicWrong(w, p, e);
      assert Asked(tables, s, Split(e), [Panics]) && InfosAgree(w, []);
    } else {
      var h :| h in Hits(tables, s, id) && h.0 == FindScan(p).value && h.1 != Columns(p)[id];
      Misled(w, tables, s, p, name, h.1);
      var found, infos := [BaseColumn(FindScan(p).value, h.1)], [IndexInfo(0, [h.1])];
      var w' :| InfosAgree(w', infos) && !SelectsRight(w', map[], p, e, found, infos);
    }
  }
}
