/** Queries, end to end. */
module WholeQueries {
  import opened Bags
  import opened Base
  import opened Exprs
  import opened PlanModel
  import opened PlanCompile
  import opened PlanRows
  import opened PlanTheorem
  import opened PlanAnswers
  import opened MemoModel
  import opened QueryMeaning
  import opened Pipeline
  import opened IndexScans
  import opened Scopes
  import opened IndexRewrite
  import opened WhereClause
  import opened QueryRuns

  /** A renamed scan of columns of a table, as every FROM with one item makes. */
  ghost predicate TableScan(width: TableId -> nat, p: Logical) {
    && p.LRename? && p.src.LScan? && p.names.Keys == Ids(p.src.cols) && Injective(p.names) && NoneTwice(p.src.cols)
    && |p.src.cols| <= width(p.src.table) && forall id | id in p.src.cols :: ColumnIndex(id) < width(p.src.table)
  }

  /** One case of a query: the tables, the clause, the answers about names, the indexes and the chosen plan. */
  ghost predicate Case(tables: Tables, width: TableId -> nat, s: Scope, p: Logical, w: World, cat: Option<Catalog>, x: Sql,
      found: seq<Answer>, infos: seq<IndexInfo>, q: Plan)
    requires Grounded(s)
  {
    && Fits(w, width) && CatalogAgrees(w, cat) && InfosAgree(w, infos) && Plain(x) && ToExpr(s, x).Some?
    && Asked(tables, s, Split(ToExpr(s, x).value), found)
    && Decided(w.fp, ToExpr(s, x).value, LogicalRows(w, NONE, p))
    && Candidate(Annotate(cat, Filtering(Rewrite(p, Split(ToExpr(s, x).value), found, infos))), q)
  }

  ghost predicate CaseRight(width: TableId -> nat, s: Scope, p: Logical, w: World, x: Sql, found: seq<Answer>, q: Plan, u: TableId)
    requires ToExpr(s, x).Some? && |found| == |Split(ToExpr(s, x).value)|
  {
    !Panicked(Split(ToExpr(s, x).value), found) && FormRight(w, width, LSelect(p, [ToExpr(s, x).value]), q, u)
  }

  /**
   * The query is right, alone and joined with the first column of `u`: whatever the tables hold, for every clause
   * that is true or false on every row, every index and every plan that may be chosen.
   */
  ghost predicate QueryRight(tables: Tables, width: TableId -> nat, s: Scope, p: Logical, u: TableId)
    requires Grounded(s)
  {
    forall w: World, cat: Option<Catalog>, x: Sql, found: seq<Answer>, infos: seq<IndexInfo>, q: Plan |
      Case(tables, width, s, p, w, cat, x, found, infos, q) :: CaseRight(width, s, p, w, x, found, q, u)
  }

  /** An equality on some column may be answered from an index on the scanned table. */
  ghost predicate Usable(tables: Tables, s: Scope, p: Logical)
    requires Names(s, p)
  {
    exists n | n in s.columns :: s.columns[n] in Columns(p)
      && Leads(tables, s, s.columns[n], BaseColumn(FindScan(p).value, Columns(p)[s.columns[n]]))
  }

  // ------------------------------------------------------------------ right

  lemma {:induction false} NothingResolved(found: seq<Answer>, t: TableId, conjs: seq<Expr>, n: nat)
    requires n <= |conjs| == |found|
    requires forall i | 0 <= i < n && ColumnEq(conjs[i]).Some? :: !(found[i].BaseColumn? && found[i].table == t)
    ensures ResolvedTo(found, t, conjs, n) == map[]
  {
    hide ColumnEq;
    if n == 0 {
    } else {
      NothingResolved(found, t, conjs, n - 1);
    }
  }

  /** Without a usable column the scan stays. */
  lemma NotUsed(tables: Tables, s: Scope, p: Logical, x: Sql, found: seq<Answer>, infos: seq<IndexInfo>)
    requires Names(s, p) && NamesClear(tables, s, p) && !Usable(tables, s, p) && ToExpr(s, x).Some?
    requires Asked(tables, s, Split(ToExpr(s, x).value), found)
    ensures Rewrite(p, Split(ToExpr(s, x).value), found, infos) == (p, Split(ToExpr(s, x).value))
  {
    hide Leads, Clear, Split, Columns, ResolvedTo, ColumnEq;
    var conjs, t := Split(ToExpr(s, x).value), FindScan(p).value;
    OwnOnly(s, x);
    OwnConjuncts(s, ToExpr(s, x).value);
    forall i | 0 <= i < |conjs| && ColumnEq(conjs[i]).Some? ensures !(found[i].BaseColumn? && found[i].table == t) {
      var id := ColumnEq(conjs[i]).value.0;
      EqualityFree(conjs[i]);
      assert id in s.columns.Values;
      ClearLeads(tables, s, p, id, found[i]);
      var n :| n in s.columns && s.columns[n] == id;
    }
    NothingResolved(found, t, conjs, |conjs|);
  }

  lemma EqualityFree(e: Expr)
    requires ColumnEq(e).Some?
    ensures ColumnEq(e).value.0 in Free(e)
  {
  }

  lemma ScanPrepared(w: World, width: TableId -> nat, cat: Option<Catalog>, p: Logical, conjs: seq<Expr>)
    requires TableScan(width, p) && Fits(w, width) && CatalogAgrees(w, cat)
    requires forall c | c in conjs :: PlanModel.Bound(c, p.names.Values) && Decided(w.fp, c, LogicalRows(w, NONE, p))
    ensures Prepared(w, width, cat, LSelect(p, conjs))
  {
    hide LogicalRows, PlanModel.Bound, Decided, Fits, CatalogAgrees, AllDecided;
    EachDecided(w.fp, conjs, LogicalRows(w, NONE, p));
    ScanRuns(w, p, 0, []);
    assert IndexScansSound(w, width, p.src) && IndexScansSound(w, width, p);
    assert Formed(width, p.src) && Formed(width, p);
  }

  lemma CasePrepared(tables: Tables, width: TableId -> nat, s: Scope, p: Logical, w: World, cat: Option<Catalog>, x: Sql,
      found: seq<Answer>, infos: seq<IndexInfo>, q: Plan)
    requires Names(s, p) && TableScan(width, p) && NamesClear(tables, s, p)
    requires Usable(tables, s, p) ==> InOrder(p.src.cols) && |p.src.cols| == width(p.src.table)
    requires Case(tables, width, s, p, w, cat, x, found, infos, q)
    ensures Prepared(w, width, cat, Filtering(Rewrite(p, Split(ToExpr(s, x).value), found, infos)))
  {
    hide Names, NamesClear, Usable, Prepared, Rewrite, Fits, CatalogAgrees, InfosAgree, Decided, LogicalRows, Candidate, Annotate,
      ToExpr, Split, PlanModel.Bound, InOrder, Leads;
    var e := ToExpr(s, x).value;
    NamesGrounded(s, p);
    if Usable(tables, s, p) {
      ClausePrepared(w, width, cat, s, p, x, found, infos);
    } else {
      NotUsed(tables, s, p, x, found, infos);
      ClauseBound(s, p, x);
      SplitBound(e, p.names.Values);
      SplitDecided(w.fp, e, LogicalRows(w, NONE, p));
      ScanPrepared(w, width, cat, p, Split(e));
    }
  }

  lemma NamesGrounded(s: Scope, p: Logical)
    requires Names(s, p)
    ensures Grounded(s) && FindScan(p).Some?
  {
  }

  lemma CaseIsRight(tables: Tables, width: TableId -> nat, s: Scope, p: Logical, w: World, cat: Option<Catalog>, x: Sql,
      found: seq<Answer>, infos: seq<IndexInfo>, q: Plan, u: TableId)
    requires Names(s, p) && TableScan(width, p) && NamesClear(tables, s, p) && width(u) >= 1
    requires Usable(tables, s, p) ==> InOrder(p.src.cols) && |p.src.cols| == width(p.src.table)
    requires Case(tables, width, s, p, w, cat, x, found, infos, q)
    ensures |found| == |Split(ToExpr(s, x).value)| && CaseRight(width, s, p, w, x, found, q, u)
  {
    hide Names, NamesClear, Usable, Prepared, Rewrite, Fits, CatalogAgrees, InfosAgree, Decided, LogicalRows, Candidate, Annotate,
      ToExpr, Split, InOrder, Leads, Yields, TableScan, ScanRows;
    CasePrepared(tables, width, s, p, w, cat, x, found, infos, q);
    NamesGrounded(s, p);
    WhereRight(w, NONE, tables, s, p, x, found, infos);
    var r := Filtering(Rewrite(p, Split(ToExpr(s, x).value), found, infos));
    CandidateRuns(w, width, cat, r, q);
    BesideYields(w, width, cat, r, q, u);
  }

  // ------------------------------------------------------------------ the plan of one equality

  /** The index lookup that `name = v` becomes. */
  function Chosen(p: Logical, index: nat, v: Field): (q: Plan)
    requires p.LRename? && p.src.LScan?
  {
    Select(Rename(IndexScan(p.src.table, p.src.cols, index, Literals([v])), p.names), [])
  }

  lemma ChosenIsForm(cat: Option<Catalog>, p: Logical, index: nat, v: Field)
    requires p.LRename? && p.src.LScan?
    ensures Candidate(Annotate(cat, LSelect(ReplaceScan(p, index, [v]), [])), Chosen(p, index, v))
  {
    hide AltOf, Literals;
    var l := LIndexScan(p.src.table, p.src.cols, index, Literals([v]), None);
    IndexIsForm(cat, l);
    var r := Rename(IndexScan(p.src.table, p.src.cols, index, Literals([v])), p.names);
    assert ReplaceScan(p.src, index, [v]) == l;
    assert Candidate(Annotate(cat, LRename(l, p.names)), r);
  }

  lemma ChosenTree(width: TableId -> nat, p: Logical, index: nat, v: Field)
    requires TableScan(width, p)
    ensures Compile(width, Chosen(p, index, v))
      == Some(PlanCompile.Compiled(IndexLookup(p.src.table, index, [v]), Renamed(p.names, Offsets(p.src.cols)), |p.src.cols|))
  {
    hide Renamed, Literals, Offsets;
    var scan := IndexScan(p.src.table, p.src.cols, index, Literals([v]));
    LookupCompiles(width, p.src.table, p.src.cols, index, [v]);
    OffsetsAt(p.src.cols);
    assert Compile(width, Rename(scan, p.names)).Some?;
  }

  function OneClause(name: string, v: Field): (x: Sql) {
    BinaryOf(Eq, Ident(name), Const(v))
  }

  lemma ClauseIs(s: Scope, name: string, v: Field)
    requires name in s.columns
    ensures var e := Binary(Eq, ColRef(s.columns[name]), Lit(v));
      && Plain(OneClause(name, v)) && ToExpr(s, OneClause(name, v)) == Some(e)
      && Split(e) == [e] && ColumnEq(e) == Some((s.columns[name], v))
  {
    assert ToExpr(s, Ident(name)) == Some(ColRef(s.columns[name])) && ToExpr(s, Const(v)) == Some(Lit(v));
  }

  /** An equality on a column of the plan is true or false on every row. */
  lemma EqualityDecided(w: World, p: Logical, id: ColId, v: Field)
    requires FindScan(p).Some? && id in Columns(p)
    ensures Decided(w.fp, Binary(Eq, ColRef(id), Lit(v)), LogicalRows(w, NONE, p))
  {
    hide LogicalRows, Columns;
    var rows, e := LogicalRows(w, NONE, p), Binary(Eq, ColRef(id), Lit(v));
    SourceRows(w, NONE, p, 0, []);
    forall i | 0 <= i < |rows| ensures Value(w.fp, e, EnvOf(rows[i])).Some? && Value(w.fp, e, EnvOf(rows[i])).value.Bool? {
      var row := FlatMember(RowsOf(p), w.db(FindScan(p).value), rows[i]);
      assert Value(w.fp, ColRef(id), EnvOf(rows[i])).Some?;
    }
  }

  /** The case of one equality, answered from an index on column `i` of the table. */
  lemma OneCase(tables: Tables, width: TableId -> nat, s: Scope, p: Logical, w: World, name: string, i: nat, v: Field)
    requires Names(s, p) && TableScan(width, p) && name in s.columns && s.columns[name] in Columns(p)
    requires Leads(tables, s, s.columns[name], BaseColumn(p.src.table, i))
    requires Fits(w, width) && w.keyColumns(0) == [i]
    ensures Case(tables, width, s, p, w, None, OneClause(name, v), [BaseColumn(p.src.table, i)], [IndexInfo(0, [i])], Chosen(p, 0, v))
  {
    hide Names, Leads, Fits, Decided, LogicalRows, Candidate, Annotate, Rewrite, Chosen, Columns, ToExpr, Split, OneClause, TableScan,
      ReplaceScan;
    var e, infos := Binary(Eq, ColRef(s.columns[name]), Lit(v)), [IndexInfo(0, [i])];
    NamesGrounded(s, p);
    ClauseIs(s, name, v);
    ScanOf(width, p);
    EqualityDecided(w, p, s.columns[name], v);
    OneConjunct(p, e, i, infos[0]);
    ChosenIsForm(None, p, 0, v);
    assert forall info | info in infos :: info == infos[0];
  }

  lemma ScanOf(width: TableId -> nat, p: Logical)
    requires TableScan(width, p)
    ensures p.LRename? && p.src.LScan? && FindScan(p) == Some(p.src.table)
  {
    assert FindScan(p.src) == Some(p.src.table);
  }

  // ------------------------------------------------------------------ wrong: the columns

  lemma KeptOne(fp: Rounded, e: Expr, r: Named)
    requires Holds(fp, e, EnvOf(r))
    ensures Flat(Keeping(fp, NONE, [e]), [r]) == [r]
  {
    hide Holds, AllHold, Flat;
    FlatOne(Keeping(fp, NONE, [e]), r);
    NoOuter(r);
    OneHolds(fp, e, EnvOf(r));
  }

  lemma SelectOne(w: World, p: Logical, e: Expr, r: Named)
    requires LogicalRows(w, NONE, p) == [r] && Holds(w.fp, e, EnvOf(r))
    ensures LogicalRows(w, NONE, LSelect(p, [e])) == [r]
  {
    hide Keeping, Flat, Holds;
    KeptOne(w.fp, e, r);
  }

  lemma OneScanned(w: World, p: Logical, row: Row)
    requires FindScan(p).Some? && w.db(FindScan(p).value) == [row]
    ensures LogicalRows(w, NONE, p) == [RowOf(p, row)]
  {
    hide LogicalRows, Columns, Flat, RowOf;
    SourceRows(w, NONE, p, 0, []);
    FlatOne(RowsOf(p), row);
  }

  lemma RowFound(w: World, p: Logical, row: Row, id: ColId, v: Field)
    requires FindScan(p).Some? && w.db(FindScan(p).value) == [row] && id in Columns(p) && At(row, Columns(p)[id]) == v
    ensures LogicalRows(w, NONE, LSelect(p, [Binary(Eq, ColRef(id), Lit(v))])) == [RowOf(p, row)]
  {
    hide LogicalRows, Columns;
    var e, r := Binary(Eq, ColRef(id), Lit(v)), RowOf(p, row);
    OneScanned(w, p, row);
    assert Value(w.fp, ColRef(id), EnvOf(r)) == Some(v) && Value(w.fp, Lit(v), EnvOf(r)) == Some(v);
    assert Value(w.fp, e, EnvOf(r)) == Some(Bool(true)) && Holds(w.fp, e, EnvOf(r));
    SelectOne(w, p, e, r);
  }

  /** Where the lookup and the scan read a column. */
  lemma ReadAt(width: TableId -> nat, p: Logical, row: Row, j: nat)
    requires TableScan(width, p) && j < |p.src.cols|
    ensures var c := p.src.cols[j]; var got, want := Read(Renamed(p.names, Offsets(p.src.cols)), row), RowOf(p, row);
      && c in p.names && p.names[c] in got && got[p.names[c]] == At(row, j)
      && p.names[c] in want && want[p.names[c]] == At(row, ColumnIndex(c))
  {
    hide Offsets, Renamed;
    var cols := p.src.cols;
    var c := cols[j];
    OffsetsAt(cols);
    assert c in cols && Offsets(cols)[c] == j;
    RenamedAt(p.names, Offsets(cols), c);
    RenamedAt(p.names, Columns(p.src), c);
  }

  /** Read through the lookup, the row of positions is right only where the listed columns are in order. */
  lemma PositionsInOrder(width: TableId -> nat, p: Logical)
    requires TableScan(width, p)
    requires var row := Positions(width(p.src.table)); Read(Renamed(p.names, Offsets(p.src.cols)), row) == RowOf(p, row)
    ensures InOrder(p.src.cols)
  {
    hide Offsets, Renamed, Columns, Read, RowOf;
    var cols, row := p.src.cols, Positions(width(p.src.table));
    forall j | 0 <= j < |cols| ensures ColumnIndex(cols[j]) == j {
      ReadAt(width, p, row, j);
      assert cols[j] in cols;
      assert row[j] == BigInt(j) && row[ColumnIndex(cols[j])] == BigInt(ColumnIndex(cols[j]));
    }
  }

  /** A world with one row in the scanned table and one in `u`, and an index on column `i`. */
  ghost function Sample(w: World, width: TableId -> nat, p: Logical, row: Row, u: TableId, i: nat): (w': World)
    requires p.LRename? && p.src.LScan? && p.src.table != u && |row| == width(p.src.table)
    ensures Fits(w', width) && w'.keyColumns(0) == [i] && w'.db(p.src.table) == [row]
    ensures w'.db(u) == [seq(width(u), j => BigInt(-1))]
  {
    var other := seq(width(u), j => BigInt(-1));
    TwoFit(w.(keyColumns := (n: nat) => [i]), width, p.src.table, row, u, other);
    TwoRows(w.(keyColumns := (n: nat) => [i]), p.src.table, row, u, other)
  }

  lemma OrderedReads(width: TableId -> nat, p: Logical, row: Row)
    requires TableScan(width, p) && InOrder(p.src.cols)
    ensures Read(Renamed(p.names, Offsets(p.src.cols)), row) == RowOf(p, row)
  {
    hide Offsets, Renamed;
    var cols := p.src.cols;
    OffsetsAt(cols);
    assert Offsets(cols) == Columns(p.src);
  }

  /** On the row of positions the lookup of `column = i` is right alone if and only if the scan lists columns in order. */
  lemma AloneIff(w: World, width: TableId -> nat, p: Logical, id: ColId, u: TableId)
    requires TableScan(width, p) && p.src.table != u && FirstColumn(u) !in p.names.Values
    requires id in Columns(p) && Columns(p)[id] < width(p.src.table)
    ensures var i := Columns(p)[id]; var w' := Sample(w, width, p, Positions(width(p.src.table)), u, i);
      Yields(w', width, Chosen(p, 0, BigInt(i)), LogicalRows(w', NONE, LSelect(p, [Binary(Eq, ColRef(id), Lit(BigInt(i)))])))
      <==> InOrder(p.src.cols)
  {
    hide TableScan, Fits, ProbesFind, LogicalRows, Columns, Chosen, InOrder, Renamed, RowOf, Offsets, Read, Output;
    ScanOf(width, p);
    var i := Columns(p)[id];
    var row, v := Positions(width(p.src.table)), BigInt(i);
    var w' := Sample(w, width, p, row, u, i);
    RowFound(w', p, row, id, v);
    SampleReads(w', width, p, row, u, i);
    var got, want := Read(Renamed(p.names, Offsets(p.src.cols)), row), RowOf(p, row);
    if multiset([got]) == multiset([want]) {
      assert got in multiset([want]);
      PositionsInOrder(width, p);
    }
    if InOrder(p.src.cols) {
      OrderedReads(width, p, row);
    }
  }

  /** Alone and beside another table it is right only if the scan lists all columns, in order. */
  lemma FormWhole(w: World, width: TableId -> nat, p: Logical, id: ColId, u: TableId)
    requires TableScan(width, p) && p.src.table != u && width(u) >= 1 && FirstColumn(u) !in p.names.Values
    requires id in Columns(p) && Columns(p)[id] < width(p.src.table)
    requires var i := Columns(p)[id]; var w' := Sample(w, width, p, Positions(width(p.src.table)), u, i);
      FormRight(w', width, LSelect(p, [Binary(Eq, ColRef(id), Lit(BigInt(i)))]), Chosen(p, 0, BigInt(i)), u)
    ensures InOrder(p.src.cols) && |p.src.cols| == width(p.src.table)
  {
    hide TableScan, Fits, ProbesFind, LogicalRows, Columns, Chosen, Answers, InOrder, Renamed, RowOf, Offsets, Read, Output;
    ScanOf(width, p);
    var i := Columns(p)[id];
    var row, v := Positions(width(p.src.table)), BigInt(i);
    var w' := Sample(w, width, p, row, u, i);
    AloneIff(w, width, p, id, u);
    RowFound(w', p, row, id, v);
    SampleReads(w', width, p, row, u, i);
    BesideWhole(w', width, Chosen(p, 0, v), LogicalRows(w', NONE, LSelect(p, [Binary(Eq, ColRef(id), Lit(v))])), u, row,
      seq(width(u), j => BigInt(-1)));
  }

  /** If the query is right and a column is usable, the scan lists all columns of the table, in order. */
  lemma RightWhole(tables: Tables, width: TableId -> nat, s: Scope, p: Logical, u: TableId, w: World, name: string)
    requires Names(s, p) && TableScan(width, p) && QueryRight(tables, width, s, p, u)
    requires p.src.table != u && width(u) >= 1 && FirstColumn(u) !in p.names.Values
    requires name in s.columns && s.columns[name] in Columns(p)
    requires Leads(tables, s, s.columns[name], BaseColumn(p.src.table, Columns(p)[s.columns[name]]))
    ensures InOrder(p.src.cols) && |p.src.cols| == width(p.src.table)
  {
    hide Names, TableScan, Leads, Fits, LogicalRows, Columns, Chosen, OneClause, ToExpr, Split, Case, InOrder, FormRight;
    ScanOf(width, p);
    PlaceInside(width, p, s.columns[name]);
    var i := Columns(p)[s.columns[name]];
    var w' := Sample(w, width, p, Positions(width(p.src.table)), u, i);
    OneCase(tables, width, s, p, w', name, i, BigInt(i));
    ClauseIs(s, name, BigInt(i));
    assert CaseRight(width, s, p, w', OneClause(name, BigInt(i)), [BaseColumn(p.src.table, i)], Chosen(p, 0, BigInt(i)), u);
    FormWhole(w, width, p, s.columns[name], u);
  }

  lemma PlaceInside(width: TableId -> nat, p: Logical, id: ColId)
    requires TableScan(width, p) && id in Columns(p)
    ensures Columns(p)[id] < width(p.src.table)
  {
  }

  lemma SampleReads(w: World, width: TableId -> nat, p: Logical, row: Row, u: TableId, i: nat)
    requires TableScan(width, p) && Fits(w, width) && w.keyColumns(0) == [i] && w.db(p.src.table) == [row] && |row| == width(p.src.table)
    requires i < |row| && row[i] == BigInt(i) && FirstColumn(u) !in p.names.Values
    ensures var c := Compile(width, Chosen(p, 0, BigInt(i)));
      && c.Some? && Output(w, c.value.tree) == [row] && c.value.width == |p.src.cols| <= |row|
      && c.value.offsets == Renamed(p.names, Offsets(p.src.cols)) && FirstColumn(u) !in c.value.offsets
      && Answers(w, c.value.tree)
      && ReadRows(c.value.offsets, Output(w, c.value.tree)) == [Read(Renamed(p.names, Offsets(p.src.cols)), row)]
  {
    hide Chosen, Offsets, Read, Fits;
    ChosenTree(width, p, 0, BigInt(i));
    FitsFind(w, width);
    assert ExtractKey(row, [i]) == [BigInt(i)];
    ProbedOne(w, p.src.table, 0, row);
  }

  // ------------------------------------------------------------------ wrong: the names

  lemma ScanIsForm(cat: Option<Catalog>, p: Logical, e: Expr)
    requires p.LRename? && p.src.LScan?
    ensures Candidate(Annotate(cat, LSelect(p, [e])), Select(Rename(Scan(p.src.table, p.src.cols), p.names), [e]))
  {
    var r := Rename(Scan(p.src.table, p.src.cols), p.names);
    assert Candidate(p.src, r.src) && Annotate(cat, p.src) == p.src;
    assert Candidate(p, r) && Annotate(cat, p) == p;
  }

  lemma PanicKeeps(p: Logical, e: Expr)
    requires FindScan(p).Some?
    ensures Rewrite(p, [e], [Panics], []) == (p, [e])
  {
    NothingResolved([Panics], FindScan(p).value, [e], 1);
  }

  /** A column whose origin cannot be found. */
  lemma LostOrigin(tables: Tables, width: TableId -> nat, s: Scope, p: Logical, u: TableId, w: World, name: string)
    requires Names(s, p) && TableScan(width, p) && p.src.table != u && name in s.columns && s.columns[name] in Columns(p)
    requires Leads(tables, s, s.columns[name], Panics)
    ensures !QueryRight(tables, width, s, p, u)
  {
    hide Names, TableScan, Leads, Fits, LogicalRows, Columns, OneClause, ToExpr, Split, Decided, Candidate, Annotate, Rewrite, FormRight;
    NamesGrounded(s, p);
    ScanOf(width, p);
    var id, v := s.columns[name], BigInt(1);
    var e := Binary(Eq, ColRef(id), Lit(v));
    var w' := Sample(w, width, p, Positions(width(p.src.table)), u, 0);
    var q := Select(Rename(Scan(p.src.table, p.src.cols), p.names), [e]);
    ClauseIs(s, name, v);
    EqualityDecided(w', p, id, v);
    PanicKeeps(p, e);
    ScanIsForm(None, p, e);
    assert [Panics][0] == Panics && [e][0] == e;
    assert Asked(tables, s, [e], [Panics]);
    assert Panicked([e], [Panics]);
    assert Case(tables, width, s, p, w', None, OneClause(name, v), [Panics], [], q);
    assert !CaseRight(width, s, p, w', OneClause(name, v), [Panics], q, u);
  }

  /** A column that a name leads to another position: the index finds nothing, and the clause holds. */
  lemma OtherPlace(tables: Tables, width: TableId -> nat, s: Scope, p: Logical, u: TableId, w: World, name: string, i: nat)
    requires Names(s, p) && TableScan(width, p) && p.src.table != u && name in s.columns && s.columns[name] in Columns(p)
    requires Leads(tables, s, s.columns[name], BaseColumn(p.src.table, i)) && i != Columns(p)[s.columns[name]] && i < width(p.src.table)
    ensures !QueryRight(tables, width, s, p, u)
  {
    hide Names, TableScan, Leads, Fits, LogicalRows, Columns, OneClause, ToExpr, Split, Case, Chosen, RowOf, Answers;
    ScanOf(width, p);
    PlaceInside(width, p, s.columns[name]);
    var id, v, t := s.columns[name], BigInt(1), p.src.table;
    var c := Columns(p)[id];
    var row := seq(width(t), j => if j == c then BigInt(1) else BigInt(0));
    var w' := Sample(w, width, p, row, u, i);
    OneCase(tables, width, s, p, w', name, i, v);
    ClauseIs(s, name, v);
    RowFound(w', p, row, id, v);
    NothingThere(w', width, p, row, i);
    assert !FormRight(w', width, LSelect(p, [Binary(Eq, ColRef(id), Lit(v))]), Chosen(p, 0, v), u);
    assert !CaseRight(width, s, p, w', OneClause(name, v), [BaseColumn(t, i)], Chosen(p, 0, v), u);
  }

  lemma NothingThere(w: World, width: TableId -> nat, p: Logical, row: Row, i: nat)
    requires TableScan(width, p) && Fits(w, width) && w.keyColumns(0) == [i] && w.db(p.src.table) == [row]
    requires i < |row| && row[i] == BigInt(0)
    ensures var c := Compile(width, Chosen(p, 0, BigInt(1))); c.Some? && Output(w, c.value.tree) == []
  {
    hide Chosen, Offsets, Renamed, Fits;
    ChosenTree(width, p, 0, BigInt(1));
    FitsFind(w, width);
    var key := [BigInt(1)];
    assert ExtractKey(row, [i]) == [BigInt(0)] && [row][1..] == [];
    assert RowsWithKey([row], [i], key) == [];
    var out := w.probe(p.src.table, 0, key);
    assert |multiset(out)| == |out|;
  }

  lemma HitInside(tables: Tables, width: TableId -> nat, s: Scope, id: ColId, h: (TableId, nat))
    requires Widths(tables, width) && h in Hits(tables, s, id)
    ensures h.1 < width(h.0)
  {
    hide DotParts;
    var n :| n in NamesOf(s, id) && Hit(tables, n).Some? && Hit(tables, n).value == h;
  }

  lemma NotClearWrong(tables: Tables, width: TableId -> nat, s: Scope, p: Logical, u: TableId, w: World)
    requires Names(s, p) && TableScan(width, p) && Widths(tables, width) && p.src.table != u && !NamesClear(tables, s, p)
    ensures !QueryRight(tables, width, s, p, u)
  {
    hide TableScan, Columns, QueryRight, Hits, Widths, Leads;
    var id :| id in s.columns.Values && !Clear(tables, s, p, id);
    var name :| name in s.columns && s.columns[name] == id;
    assert Placed(s, p, id);
    ScanOf(width, p);
    if Hits(tables, s, id) == {} {
      Astray(tables, s, p, name);
      LostOrigin(tables, width, s, p, u, w, name);
    } else {
      var h :| h in Hits(tables, s, id) && h.0 == FindScan(p).value && h.1 != Columns(p)[id];
      HitInside(tables, width, s, id, h);
      HitLeads(tables, s, id, h.0, h.1);
      OtherPlace(tables, width, s, p, u, w, name, h.1);
    }
  }

  // ------------------------------------------------------------------ exactly

  /**
   * A query on one FROM item, however nested, is right end to end if and only if every two-part name of each of
   * its columns leads to that column's own position and, unless no column can be answered from an index at all,
   * its scan lists all of the table's columns, in order.
   */
  lemma QueryIff(tables: Tables, width: TableId -> nat, s: Scope, p: Logical, u: TableId, w: World)
    requires Names(s, p) && TableScan(width, p) && Widths(tables, width)
    requires p.src.table != u && width(u) >= 1 && FirstColumn(u) !in p.names.Values
    ensures QueryRight(tables, width, s, p, u)
      <==> NamesClear(tables, s, p) && (Usable(tables, s, p) ==> InOrder(p.src.cols) && |p.src.cols| == width(p.src.table))
  {
    hide Names, TableScan, NamesClear, Columns, Leads, InOrder, Widths, Case;
    NamesGrounded(s, p);
    ScanOf(width, p);
    if !NamesClear(tables, s, p) {
      NotClearWrong(tables, width, s, p, u, w);
    } else if Usable(tables, s, p) && !(InOrder(p.src.cols) && |p.src.cols| == width(p.src.table)) {
      if QueryRight(tables, width, s, p, u) {
        var name :| name in s.columns && s.columns[name] in Columns(p)
          && Leads(tables, s, s.columns[name], BaseColumn(FindScan(p).value, Columns(p)[s.columns[name]]));
        RightWhole(tables, width, s, p, u, w, name);
      }
    } else {
      forall w': World, cat: Option<Catalog>, x: Sql, found: seq<Answer>, infos: seq<IndexInfo>, q: Plan |
        Case(tables, width, s, p, w', cat, x, found, infos, q)
        ensures ToExpr(s, x).Some? && |found| == |Split(ToExpr(s, x).value)| && CaseRight(width, s, p, w', x, found, q, u)
      {
        CaseShape(tables, width, s, p, w', cat, x, found, infos, q);
        CaseIsRight(tables, width, s, p, w', cat, x, found, infos, q, u);
      }
    }
  }

  lemma CaseShape(tables: Tables, width: TableId -> nat, s: Scope, p: Logical, w: World, cat: Option<Catalog>, x: Sql,
      found: seq<Answer>, infos: seq<IndexInfo>, q: Plan)
    requires Grounded(s) && Case(tables, width, s, p, w, cat, x, found, infos, q)
    ensures ToExpr(s, x).Some? && |found| == |Split(ToExpr(s, x).value)|
  {
  }
}
