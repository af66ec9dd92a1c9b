/** Queries that go wrong. */
module DerivedTables {
  import opened Base
  import opened Exprs
  import opened PlanModel
  import opened QueryMeaning
  import opened Pipeline
  import opened IndexScans
  import opened Scopes
  import opened IndexRewrite
  import opened WhereClause
  import opened FromClause
  import opened WholeQueries

  /** Table `t` with columns `a` and `b`, scanned as columns 10 and 11. */
  const TWO := TableDef(1, ["a", "b"])
  const TABLES: Tables := map["t" := TWO]
  const NEW_IDS: map<ColId, ColId> := map[100 := 10, 101 := 11]
  const NOTHING := Scope(map[], map[], None)

  function TwoColumns(): (p: Logical) {
    LRename(LScan(1, TableCols(TWO)), NEW_IDS)
  }

  lemma TwoCols()
    ensures TableCols(TWO) == [100, 101] && RenamedScan(TwoColumns(), 10, 12)
  {
    assert TempId(1, 0) == 100 && TempId(1, 1) == 101;
    assert TableCols(TWO) == [100, 101];
    assert NEW_IDS.Keys == {100, 101} == Ids([100, 101]);
  }

  // ------------------------------------------------------------------ a name taken over

  /** The scope of `SELECT b AS a, * FROM t`, after its FROM. */
  function TableNames(): (s: Scope) {
    BoundOne(BoundOne(Scope(map[], map[], Some(NOTHING)), "t", TWO, NEW_IDS, None, 100), "t", TWO, NEW_IDS, None, 101)
  }

  /** And after its select list. */
  function Aliased(): (s: Scope) {
    TableNames().(columns := TableNames().columns["a" := 11])
  }

  lemma TableNamesAre()
    ensures "b" in TableNames().columns && TableNames().columns["b"] == 11
    ensures PickedAll(TableNames(), [Item("b", Some("a"))]) == Some((Aliased(), [11]))
  {
    assert Dotted("t", "b") == "t.b" && Dotted("t", "a") == "t.a";
    assert ColumnIndex(101) == 1 && TWO.attrs[1] == "b";
    var items := [Item("b", Some("a"))];
    assert items[..0] == [] && PickedAll(TableNames(), []) == Some((TableNames(), []));
    assert ValidAlias(Some("a"));
    assert Picked(TableNames(), items[0]) == Some((Aliased(), 11));
    assert [] + [11] == [11];
  }

  /** The scope around it, with the subquery called `t` as well: its columns are taken over, 10 and then 11. */
  function Shadowing(): (s: Scope) {
    Scope(Brought(map[], Aliased(), [10, 11], Some("t")), map[], None)
  }

  lemma ShadowingNames()
    ensures var columns := Shadowing().columns;
      "b" in columns && columns["b"] == 11 && "t.a" in columns && columns["t.a"] == 11
  {
    TableNamesAre();
    var inner := Aliased();
    assert "a" in NamesOf(inner, 11) && "b" in NamesOf(inner, 11);
    assert [10, 11][..1] == [10];
    var before := Brought(map[], inner, [10], Some("t"));
    var plain := WithNames(before, NamesOf(inner, 11), None, 11);
    assert Under(None, "b") in Prefixed(NamesOf(inner, 11), None);
    assert plain["b"] == 11;
    assert Under(Some("t"), "a") == "t.a";
    assert Under(Some("t"), "a") in Prefixed(NamesOf(inner, 11), Some("t"));
    assert Shadowing().columns == WithNames(plain, NamesOf(inner, 11), Some("t"), 11);
  }

  lemma ShadowingHits()
    ensures (1, 0) in Hits(TABLES, Shadowing(), 11)
  {
    hide Shadowing, Hit;
    ShadowingNames();
    TableColumn();
    assert "t.a" in NamesOf(Shadowing(), 11);
  }

  lemma TableColumn()
    ensures Hit(TABLES, "t.a") == Some((1, 0))
  {
    DotPartsOnce("t", "a");
    assert "t" + "." + "a" == "t.a";
    assert FirstAttr(TWO.attrs, "a") == Some(0);
  }

  lemma ShadowingPlan()
    ensures Names(Shadowing(), TwoColumns()) && 11 in Columns(TwoColumns()) && Columns(TwoColumns())[11] == 1
  {
    TwoCols();
    assert forall id | id in [10, 11] :: id in NEW_IDS.Values by {
      assert NEW_IDS[100] == 10 && NEW_IDS[101] == 11;
    }
    BroughtNames(Shadowing(), Aliased(), [10, 11], Some("t"), TwoColumns(), 10, 12);
    ScanColumn(TwoColumns(), 10, 12, 101);
  }

  /**
   * `SELECT * FROM (SELECT b AS a, * FROM t) AS t WHERE b = 1`: the subquery's alias makes `t.a` a name of
   * column `b`. In one order of names the clause is answered from an index on `a`, with the wrong rows.
   */
  lemma ShadowedName(w: World)
    ensures Names(Shadowing(), TwoColumns()) && !NamesClear(TABLES, Shadowing(), TwoColumns())
    ensures ToExpr(Shadowing(), BinaryOf(Eq, Ident("b"), Const(BigInt(1)))) == Some(Binary(Eq, ColRef(11), Lit(BigInt(1))))
    ensures var e := Binary(Eq, ColRef(11), Lit(BigInt(1)));
      && Asked(TABLES, Shadowing(), Exprs.Split(e), [BaseColumn(1, 0)])
      && exists w' :: InfosAgree(w', [IndexInfo(0, [0])])
           && !SelectsRight(w', map[], TwoColumns(), e, [BaseColumn(1, 0)], [IndexInfo(0, [0])])
  {
    hide Columns, Hits, Brought, Asked, SelectsRight;
    var s := Shadowing();
    ShadowingNames();
    ShadowingHits();
    ShadowingPlan();
    assert ToExpr(s, Ident("b")) == Some(ColRef(11)) && ToExpr(s, Const(BigInt(1))) == Some(Lit(BigInt(1)));
    assert FindScan(TwoColumns().src) == Some(1);
    Misled(w, TABLES, s, TwoColumns(), "b", 0);
    assert 11 in s.columns.Values;
    assert !Clear(TABLES, s, TwoColumns(), 11);
  }

  // ------------------------------------------------------------------ a column dropped

  function TwoEach(t: TableId): (n: nat) {
    2
  }

  /** The scope around `(SELECT b FROM t) AS x`, or `(SELECT a FROM t) AS x`: the names of column `id`. */
  function Narrow(id: ColId): (s: Scope) {
    Scope(Brought(map[], TableNames(), [id], Some("x")), map[], None)
  }

  /** The plan of the subquery: the projection is pushed into the scan, which then lists one column. */
  function OneColumn(c: ColId, id: ColId): (p: Logical) {
    LRename(LScan(1, [c]), map[c := id])
  }

  lemma Pushed()
    ensures PickedAll(TableNames(), [Item("b", None)]) == Some((TableNames(), [11]))
    ensures PickedAll(TableNames(), [Item("a", None)]) == Some((TableNames(), [10]))
    ensures ProjectScan(TwoColumns(), [11]) == OneColumn(101, 11) && ProjectScan(TwoColumns(), [10]) == OneColumn(100, 10)
  {
    BothNames();
    PickOne("b", 11);
    PickOne("a", 10);
    KeepOne();
  }

  lemma BothNames()
    ensures TableNames().columns == map["a" := 10, "t.a" := 10, "b" := 11, "t.b" := 11]
  {
    assert Dotted("t", "b") == "t.b" && Dotted("t", "a") == "t.a";
    assert ColumnIndex(100) == 0 && ColumnIndex(101) == 1;
  }

  lemma PickOne(name: string, id: ColId)
    requires name in TableNames().columns && TableNames().columns[name] == id
    ensures PickedAll(TableNames(), [Item(name, None)]) == Some((TableNames(), [id]))
  {
    hide TableNames;
    var items := [Item(name, None)];
    assert items[..0] == [] && PickedAll(TableNames(), []) == Some((TableNames(), []));
    assert [] + [id] == [id];
  }

  lemma KeepOne()
    ensures ProjectScan(TwoColumns(), [11]) == OneColumn(101, 11) && ProjectScan(TwoColumns(), [10]) == OneColumn(100, 10)
  {
    TwoCols();
    var q, r := ProjectScan(TwoColumns(), [11]), ProjectScan(TwoColumns(), [10]);
    assert q.names == map[101 := 11] && q.names.Keys == {101};
    assert r.names == map[100 := 10] && r.names.Keys == {100};
    assert [100, 101][1..] == [101] && [101][1..] == [];
    assert Retained([101], {101}) == [101] && Retained([101], {100}) == [];
    assert Retained([100, 101], {101}) == [101] && Retained([100, 101], {100}) == [100];
  }

  /** The column keeps its inner names, also the one that the catalog knows. */
  lemma NarrowNames(id: ColId, name: string)
    requires (id == 10 && name == "a") || (id == 11 && name == "b")
    ensures var columns := Narrow(id).columns;
      name in columns && columns[name] == id && Dotted("t", name) in columns && columns[Dotted("t", name)] == id
  {
    BothNames();
    hide TableNames;
    var inner := TableNames();
    assert Dotted("t", "b") == "t.b" && Dotted("t", "a") == "t.a";
    var names := NamesOf(inner, id);
    assert name in names && Dotted("t", name) in names;
    assert [id][..0] == [] && Brought(map[], inner, [], Some("x")) == map[];
    var plain := WithNames(map[], names, None, id);
    assert Under(None, name) in Prefixed(names, None) && Under(None, Dotted("t", name)) in Prefixed(names, None);
    assert plain[name] == id && plain[Dotted("t", name)] == id;
    assert Narrow(id).columns == WithNames(plain, names, Some("x"), id);
  }

  lemma NarrowLeads(id: ColId, name: string, i: nat)
    requires (id == 10 && name == "a" && i == 0) || (id == 11 && name == "b" && i == 1)
    ensures Leads(TABLES, Narrow(id), id, BaseColumn(1, i))
  {
    hide Narrow, Hit;
    NarrowNames(id, name);
    OwnColumn(name, i);
    assert Dotted("t", name) in NamesOf(Narrow(id), id);
    assert (1, i) in Hits(TABLES, Narrow(id), id);
    NarrowOrigins(id);
  }

  lemma NarrowOrigins(id: ColId)
    ensures Narrow(id).origins == map[]
  {
  }

  lemma OwnColumn(name: string, i: nat)
    requires (name == "a" && i == 0) || (name == "b" && i == 1)
    ensures Hit(TABLES, Dotted("t", name)) == Some((1, i))
  {
    DotPartsOnce("t", name);
    assert TWO.attrs[1..] == ["b"];
    assert FirstAttr(["b"], "b") == Some(0);
    assert FirstAttr(TWO.attrs, name) == Some(i);
  }

  lemma NarrowPlan(c: ColId, id: ColId)
    requires (c == 100 && id == 10) || (c == 101 && id == 11)
    ensures var p := OneColumn(c, id);
      Names(Narrow(id), p) && TableScan(TwoEach, p) && id in Columns(p) && Columns(p)[id] == ColumnIndex(c)
  {
    var p := OneColumn(c, id);
    assert p.names.Keys == {c} == Ids([c]) && p.names[c] == id;
    assert RenamedScan(p, 10, 12);
    BroughtNames(Narrow(id), TableNames(), [id], Some("x"), p, 10, 12);
    ScanColumn(p, 10, 12, c);
  }

  /** The clause `name = i` of such a query is answered from an index on the column, and its plan is no right one. */
  ghost predicate Misread(w: World, c: ColId, id: ColId, name: string, i: nat, u: TableId)
    requires u != 1
  {
    var s, p, e := Narrow(id), OneColumn(c, id), Binary(Eq, ColRef(id), Lit(BigInt(i)));
    var w' := Sample(w, TwoEach, p, [BigInt(0), BigInt(1)], u, i);
    && Names(s, p) && ToExpr(s, OneClause(name, BigInt(i))) == Some(e)
    && Asked(TABLES, s, [e], [BaseColumn(1, i)])
    && Rewrite(p, [e], [BaseColumn(1, i)], [IndexInfo(0, [i])]) == (ReplaceScan(p, 0, [BigInt(i)]), [])
    && Case(TABLES, TwoEach, s, p, w', None, OneClause(name, BigInt(i)), [BaseColumn(1, i)], [IndexInfo(0, [i])], Chosen(p, 0, BigInt(i)))
    && !FormRight(w', TwoEach, LSelect(p, [e]), Chosen(p, 0, BigInt(i)), u)
  }

  /** Without another table beside it, the plan yields the rows that meet the clause. */
  ghost predicate RightAlone(w: World, c: ColId, id: ColId, i: nat, u: TableId)
    requires u != 1
  {
    var p := OneColumn(c, id);
    var w' := Sample(w, TwoEach, p, [BigInt(0), BigInt(1)], u, i);
    Yields(w', TwoEach, Chosen(p, 0, BigInt(i)), LogicalRows(w', NONE, LSelect(p, [Binary(Eq, ColRef(id), Lit(BigInt(i)))])))
  }

  lemma NarrowAlone(w: World, c: ColId, id: ColId, i: nat, u: TableId)
    requires (c == 100 && id == 10 && i == 0) || (c == 101 && id == 11 && i == 1)
    requires u != 1
    ensures RightAlone(w, c, id, i, u) <==> InOrder([c])
  {
    hide TableScan, Columns, Chosen, Sample, InOrder, LogicalRows, Yields;
    NarrowPlan(c, id);
    OtherTable(u, id);
    assert Positions(2) == [BigInt(0), BigInt(1)];
    AloneIff(w, TwoEach, OneColumn(c, id), id, u);
  }

  lemma NarrowMisread(w: World, c: ColId, id: ColId, name: string, i: nat, u: TableId)
    requires (c == 100 && id == 10 && name == "a" && i == 0) || (c == 101 && id == 11 && name == "b" && i == 1)
    requires u != 1
    ensures Misread(w, c, id, name, i, u)
  {
    hide Names, TableScan, Columns, Leads, Case, FormRight, Narrow, Chosen, Sample, ReplaceScan, Rewrite;
    var s, p, e := Narrow(id), OneColumn(c, id), Binary(Eq, ColRef(id), Lit(BigInt(i)));
    NarrowPlan(c, id);
    NarrowNames(id, name);
    NarrowLeads(id, name, i);
    ClauseIs(s, name, BigInt(i));
    ScanOf(TwoEach, p);
    OneConjunct(p, e, i, IndexInfo(0, [i]));
    assert Positions(2) == [BigInt(0), BigInt(1)];
    var w' := Sample(w, TwoEach, p, [BigInt(0), BigInt(1)], u, i);
    OneCase(TABLES, TwoEach, s, p, w', name, i, BigInt(i));
    NamesGrounded(s, p);
    assert [e][0] == e && [BaseColumn(1, i)][0] == BaseColumn(1, i);
    if FormRight(w', TwoEach, LSelect(p, [e]), Chosen(p, 0, BigInt(i)), u) {
      OtherTable(u, id);
      FormWhole(w, TwoEach, p, id, u);
    }
  }

  lemma OtherTable(u: TableId, id: ColId)
    requires id == 10 || id == 11
    ensures FirstColumn(u) !in map[100 := id].Values && FirstColumn(u) !in map[101 := id].Values
  {
  }

  /**
   * `SELECT * FROM (SELECT b FROM t) AS x WHERE b = 1`, with an index on `b`: the projection is pushed into the scan,
   * which then lists column `b` alone. The index scan over that list hands out whole rows and takes `a` for `b`.
   */
  lemma DroppedColumn(w: World, u: TableId)
    requires u != 1
    ensures ProjectScan(TwoColumns(), [11]) == OneColumn(101, 11) && Misread(w, 101, 11, "b", 1, u)
    ensures !RightAlone(w, 101, 11, 1, u)
  {
    hide Misread, RightAlone;
    Pushed();
    NarrowMisread(w, 101, 11, "b", 1, u);
    NarrowAlone(w, 101, 11, 1, u);
    assert ColumnIndex([101][0]) != 0;
  }

  /**
   * `SELECT * FROM (SELECT a FROM t) AS x, u WHERE a = 0`, with an index on `a`: the index scan is taken to have one
   * column and hands out two, so that the first column of `u` is read from `b`.
   */
  lemma DroppedLast(w: World, u: TableId)
    requires u != 1
    ensures ProjectScan(TwoColumns(), [10]) == OneColumn(100, 10) && InOrder([100]) && Misread(w, 100, 10, "a", 0, u)
    ensures RightAlone(w, 100, 10, 0, u)
  {
    hide Misread, RightAlone;
    Pushed();
    NarrowMisread(w, 100, 10, "a", 0, u);
    NarrowAlone(w, 100, 10, 0, u);
  }
}
