/** Index scans in a plan. */
module IndexScans {
  import opened Bags
  import opened Base
  import opened Exprs
  import opened PlanModel
  import opened PlanCompile
  import opened PlanRows
  import opened PlanJoins
  import opened PlanTheorem
  import opened PlanAnswers
  import opened MemoModel
  import opened QueryMeaning
  import opened Pipeline

  /** A row that holds its positions. */
  function Positions(width: nat): (row: Row)
    ensures |row| == width
  {
    seq(width, i => BigInt(i))
  }

  /** Labels in the order of the list are right on the row of positions only where the list is in order. */
  lemma LabelWrong(cols: seq<ColId>, width: nat)
    requires NoneTwice(cols) && |cols| <= width && (forall id | id in cols :: ColumnIndex(id) < width)
    requires Label(cols, Positions(width)) == ScanRow(cols, Positions(width))
    ensures InOrder(cols)
  {
    OffsetsAt(cols);
    var row := Positions(width);
    forall i | 0 <= i < |cols| ensures ColumnIndex(cols[i]) == i {
      var id := cols[i];
      assert id in cols;
      assert Offsets(cols)[id] == i;
      assert Label(cols, row)[id] == At(row, i) == BigInt(i);
      assert ScanRow(cols, row)[id] == At(row, ColumnIndex(id)) == BigInt(ColumnIndex(id));
    }
  }

  lemma OneFound(columns: seq<nat>, row: Row)
    ensures RowsWithKey([row], columns, ExtractKey(row, columns)) == [row]
  {
    assert [row][1..] == [];
  }

  lemma IndexIsForm(cat: Option<Catalog>, p: Logical)
    requires p.LIndexScan?
    ensures Candidate(Annotate(cat, p), IndexScan(p.table, p.cols, p.index, p.keys))
  {
    hide AltOf;
  }

  lemma OneProbed(w: World, t: TableId, cols: seq<ColId>, index: nat, row: Row)
    requires ProbesFind(w) && w.db(t) == [row]
    requires var keys := Literals(ExtractKey(row, w.keyColumns(index)));
      SameBag(w, map[], LIndexScan(t, cols, index, keys, None), IndexScan(t, cols, index, keys))
    ensures Label(cols, row) == ScanRow(cols, row)
  {
    hide Label, ScanRow;
    var key := ExtractKey(row, w.keyColumns(index));
    OneFound(w.keyColumns(index), row);
    var out := w.probe(t, index, key);
    assert multiset(out) == multiset([row]);
    assert |out| == |multiset(out)| == 1 && out[0] in multiset(out);
    assert out == [row];
    var a, b := LabelRows(cols, [row]), ScanRows(cols, [row]);
    assert a == [Label(cols, row)] && b == [ScanRow(cols, row)];
    assert a[0] in multiset(b);
  }

  /** The id of a table's first column. */
  function FirstColumn(u: TableId): (d: ColId)
    ensures ColumnIndex(d) == 0
  {
    u * MAX_COLUMNS
  }

  function Lookup(t: TableId, cols: seq<ColId>, index: nat, key: Key): (p: Logical) {
    LIndexScan(t, cols, index, Literals(key), None)
  }

  /** The rows of the scan beside those of the first column of `u`. */
  ghost function BesideRows(w: World, p: Logical, u: TableId): (rows: seq<Named>) {
    Pairs(LogicalRows(w, NONE, p), ScanRows([FirstColumn(u)], w.db(u)))
  }

  /** A plan beside the first column of another table. */
  function BesidePlan(l: Plan, u: TableId): (q: Plan) {
    CrossJoin(l, Scan(u, [FirstColumn(u)]), [])
  }

  ghost predicate FormRight(w: World, width: TableId -> nat, p: Logical, q: Plan, u: TableId) {
    && Yields(w, width, q, LogicalRows(w, NONE, p))
    && Yields(w, width, BesidePlan(q, u), BesideRows(w, p, u))
  }

  /**
   * Both forms of an index scan are right as operators, alone and as the left input of a cross join with the first
   * column of `u`, whatever the tables hold and whatever the key.
   */
  ghost predicate LookupRight(w: World, width: TableId -> nat, cat: Option<Catalog>, t: TableId, cols: seq<ColId>, index: nat,
      u: TableId) {
    forall w': World, key: Key, q: Plan |
      && w'.keyColumns == w.keyColumns && Fits(w', width) && |key| == |w.keyColumns(index)|
      && Candidate(Annotate(cat, Lookup(t, cols, index, key)), q) ::
      FormRight(w', width, Lookup(t, cols, index, key), q, u)
  }

  // ------------------------------------------------------------------ right

  lemma PairsPermuted(fp: Rounded, a: seq<Named>, b: seq<Named>, rs: seq<Named>)
    requires multiset(a) == multiset(b)
    ensures multiset(Filtered(fp, [], Pairs(a, rs))) == multiset(Pairs(b, rs))
  {
    hide Flat, Matching, Filtered, Pairs;
    LoopIs(fp, [], a, rs);
    LoopIs(fp, [], b, rs);
    FilteredByNone(fp, Pairs(b, rs));
    FlatPermuted(Over(Matching(fp, NONE, []), rs), a, b);
  }

  lemma LookupPrepared(w: World, width: TableId -> nat, cat: Option<Catalog>, t: TableId, cols: seq<ColId>, index: nat, key: Key)
    requires Fits(w, width) && CatalogAgrees(w, cat) && |key| == |w.keyColumns(index)|
    requires InOrder(cols) && |cols| == width(t)
    ensures Prepared(w, width, cat, Lookup(t, cols, index, key))
  {
    hide Fits, CatalogAgrees;
    forall id | id in cols ensures ColumnIndex(id) < width(t) {
      var i :| 0 <= i < |cols| && cols[i] == id;
    }
  }

  lemma BesideYields(w: World, width: TableId -> nat, cat: Option<Catalog>, p: Logical, q: Plan, u: TableId)
    requires Prepared(w, width, cat, p) && Candidate(Annotate(cat, p), q) && width(u) >= 1
    ensures Yields(w, width, BesidePlan(q, u), BesideRows(w, p, u))
  {
    hide Candidate, Annotate, WellFormed, Fits, LogicalRows, Meaning, Cols, Compile, Output, Answers, PlanRuns, IndexScansSound, Formed,
      LogicalRuns, CatalogAgrees, ReadRows, Filtered, Pairs, ScanRows;
    var r := Scan(u, [FirstColumn(u)]);
    var c := CrossJoin(q, r, []);
    SameMeaning(w, width, cat, p, q);
    CandidateAnswers(w, width, cat, p, q);
    CrossParts(w, width, q, u);
    AnswersIff(w, width, c);
    PairsPermuted(w.fp, Meaning(w, q), LogicalRows(w, NONE, p), Meaning(w, r));
  }

  lemma CrossParts(w: World, width: TableId -> nat, q: Plan, u: TableId)
    requires WellFormed(width, q) && PlanRuns(w, q) && width(u) >= 1
    ensures var r := Scan(u, [FirstColumn(u)]); var c := CrossJoin(q, r, []);
      && WellFormed(width, c) && PlanRuns(w, c) && Meaning(w, r) == ScanRows([FirstColumn(u)], w.db(u))
      && Meaning(w, c) == Filtered(w.fp, [], Pairs(Meaning(w, q), Meaning(w, r)))
  {
  }

  // ------------------------------------------------------------------ wrong

  /** Two tables with one row each, and indexes in agreement. */
  ghost function TwoRows(w: World, t: TableId, row: Row, u: TableId, other: Row): (w': World)
    requires t != u
    ensures ProbesFind(w') && w'.keyColumns == w.keyColumns && w'.db(t) == [row] && w'.db(u) == [other]
    ensures forall x | x != t && x != u :: w'.db(x) == []
  {
    var db := (x: TableId) => if x == t then [row] else if x == u then [other] else [];
    var cols := w.keyColumns;
    w.(db := db, probe := (x: TableId, index: nat, key: Key) => RowsWithKey(db(x), cols(index), key))
  }

  lemma TwoFit(w: World, width: TableId -> nat, t: TableId, row: Row, u: TableId, other: Row)
    requires t != u && |row| == width(t) && |other| == width(u)
    ensures Fits(TwoRows(w, t, row, u, other), width)
  {
    hide ProbesFind;
    var w' := TwoRows(w, t, row, u, other);
    forall x ensures AllWide(w'.db(x), width(x)) {
      if x != t && x != u {
        assert w'.db(x) == [];
      }
    }
  }

  /** The operators of an index scan: the labels, in the order of the list, on the whole row. */
  lemma LookupReads(w: World, width: TableId -> nat, t: TableId, cols: seq<ColId>, index: nat, key: Key)
    requires forall id | id in cols :: ColumnIndex(id) < width(t)
    ensures Compile(width, IndexScan(t, cols, index, Literals(key)))
      == Some(PlanCompile.Compiled(IndexLookup(t, index, key), Offsets(cols), |cols|))
    ensures ReadRows(Offsets(cols), w.probe(t, index, key)) == LabelRows(cols, w.probe(t, index, key))
  {
    LookupCompiles(width, t, cols, index, key);
  }

  lemma LookupCompiles(width: TableId -> nat, t: TableId, cols: seq<ColId>, index: nat, key: Key)
    requires forall id | id in cols :: ColumnIndex(id) < width(t)
    ensures Compile(width, IndexScan(t, cols, index, Literals(key)))
      == Some(PlanCompile.Compiled(IndexLookup(t, index, key), Offsets(cols), |cols|))
  {
  }

  lemma AloneInOrder(w: World, width: TableId -> nat, t: TableId, cols: seq<ColId>, index: nat, row: Row)
    requires NoneTwice(cols) && |cols| <= width(t) && forall id | id in cols :: ColumnIndex(id) < width(t)
    requires ProbesFind(w) && w.db(t) == [row] && row == Positions(width(t))
    requires var key := ExtractKey(row, w.keyColumns(index));
      Yields(w, width, IndexScan(t, cols, index, Literals(key)), LogicalRows(w, NONE, Lookup(t, cols, index, key)))
    ensures InOrder(cols)
  {
    hide LogicalRows, ReadRows, Answers, LabelRows, InOrder, Positions;
    var key := ExtractKey(row, w.keyColumns(index));
    LookupReads(w, width, t, cols, index, key);
    OneProbed(w, t, cols, index, row);
    LabelWrong(cols, width(t));
  }

  lemma RightSide(w: World, width: TableId -> nat, u: TableId, other: Row)
    requires w.db(u) == [other] && |other| == width(u) && width(u) >= 1
    ensures var c := Compile(width, Scan(u, [FirstColumn(u)]));
      c.Some? && c.value.offsets == Offsets([FirstColumn(u)]) && Output(w, c.value.tree) == [[other[0]]]
  {
    var d := FirstColumn(u);
    var places := seq(1, i requires 0 <= i < 1 => ColumnIndex([d][i]));
    PlaceAt(w.fp, 0, other);
    assert Computed(w.fp, ColPrograms(places, map[]), other) == [other[0]];
    assert ComputedRows(w.fp, ColPrograms(places, map[]), [other]) == [[other[0]]];
  }

  lemma JoinedFirst(ml: map<ColId, nat>, n: nat, d: ColId)
    requires d !in ml
    ensures var m := Joined(ml, Offsets([d]), n); d in m && m[d] == n
  {
    OffsetsAt([d]);
  }

  lemma OneProduct(a: Row, b: Row)
    ensures Product([a], [b]) == [a + b]
  {
    assert [a][1..] == [] && [b][1..] == [];
    assert Beside(a, [b]) == [a + b];
  }

  lemma BesideTree(width: TableId -> nat, l: Plan, u: TableId)
    requires Compile(width, l).Some? && Compile(width, Scan(u, [FirstColumn(u)])).Some?
    ensures var c, a, b := Compile(width, BesidePlan(l, u)), Compile(width, l).value, Compile(width, Scan(u, [FirstColumn(u)])).value;
      && c.Some? && c.value.offsets == Joined(a.offsets, b.offsets, a.width) && c.value.tree == CrossOp(a.tree, b.tree)
  {
    hide ScanTree, Joined, Offsets;
  }

  /** Beside another row, the first column to the right is read at the position after the last column to the left. */
  lemma BesideReads(w: World, width: TableId -> nat, l: Plan, u: TableId, row: Row, other: Row)
    requires Compile(width, l).Some? && Output(w, Compile(width, l).value.tree) == [row]
    requires FirstColumn(u) !in Compile(width, l).value.offsets && Compile(width, l).value.width <= |row|
    requires w.db(u) == [other] && |other| == width(u) && width(u) >= 1
    ensures var c := Compile(width, BesidePlan(l, u));
      && c.Some? && |ReadRows(c.value.offsets, Output(w, c.value.tree))| == 1
      && FirstColumn(u) in ReadRows(c.value.offsets, Output(w, c.value.tree))[0]
      && ReadRows(c.value.offsets, Output(w, c.value.tree))[0][FirstColumn(u)]
         == (row + [other[0]])[Compile(width, l).value.width]
  {
    hide Compile, Product, Joined, Offsets, BesidePlan;
    RightSide(w, width, u, other);
    BesideTree(width, l, u);
    JoinedFirst(Compile(width, l).value.offsets, Compile(width, l).value.width, FirstColumn(u));
    OneProduct(row, [other[0]]);
  }

  lemma ProbedOne(w: World, t: TableId, index: nat, row: Row)
    requires ProbesFind(w) && w.db(t) == [row]
    ensures w.probe(t, index, ExtractKey(row, w.keyColumns(index))) == [row]
  {
    OneFound(w.keyColumns(index), row);
    var out := w.probe(t, index, ExtractKey(row, w.keyColumns(index)));
    assert multiset(out) == multiset([row]);
    assert |out| == |multiset(out)| == 1 && out[0] in multiset(out);
  }

  /** A plan that is right beside another table is as wide as its rows. */
  lemma BesideWhole(w: World, width: TableId -> nat, l: Plan, ls: seq<Named>, u: TableId, row: Row, other: Row)
    requires Compile(width, l).Some? && Output(w, Compile(width, l).value.tree) == [row]
    requires FirstColumn(u) !in Compile(width, l).value.offsets && Compile(width, l).value.width <= |row|
    requires w.db(u) == [other] && |other| == width(u) && width(u) >= 1 && row == Positions(|row|) && other[0] == BigInt(-1)
    requires Yields(w, width, BesidePlan(l, u), Pairs(ls, ScanRows([FirstColumn(u)], w.db(u))))
    ensures Compile(width, l).value.width == |row|
  {
    hide Compile, Output, Answers, BesidePlan, ReadRows, ScanRows;
    BesideReads(w, width, l, u, row, other);
    var c := Compile(width, BesidePlan(l, u)).value;
    var got := ReadRows(c.offsets, Output(w, c.tree));
    assert got[0] in multiset(Pairs(ls, ScanRows([FirstColumn(u)], w.db(u))));
    OtherSide(w, ls, u, other, got[0]);
  }

  lemma {:induction false} OtherSide(w: World, ls: seq<Named>, u: TableId, other: Row, r: Named)
    requires w.db(u) == [other] && other != [] && r in Pairs(ls, ScanRows([FirstColumn(u)], w.db(u)))
    ensures FirstColumn(u) in r && r[FirstColumn(u)] == other[0]
  {
    var d := FirstColumn(u);
    var rs := ScanRows([d], [other]);
    assert rs == [ScanRow([d], other)] && rs[1..] == [];
    assert WithEach(ls[0], rs) == [ls[0] + ScanRow([d], other)];
    if r !in WithEach(ls[0], rs) {
      OtherSide(w, ls[1..], u, other, r);
    }
  }

  // ------------------------------------------------------------------ exactly

  /**
   * The forms of an index scan are right in a plan, for all tables and keys, if and only if the listed columns
   * are all of the table's, in order.
   */
  lemma IndexScanIff(w: World, width: TableId -> nat, cat: Option<Catalog>, t: TableId, cols: seq<ColId>, index: nat, u: TableId)
    requires CatalogAgrees(w, cat) && NoneTwice(cols) && |cols| <= width(t) && forall id | id in cols :: ColumnIndex(id) < width(t)
    requires t != u && width(u) >= 1 && FirstColumn(u) !in cols
    ensures LookupRight(w, width, cat, t, cols, index, u) <==> InOrder(cols) && |cols| == width(t)
  {
    hide Fits, InOrder, Candidate, Annotate, Yields, Prepared, LogicalRows;
    if InOrder(cols) && |cols| == width(t) {
      forall w': World, key: Key, q: Plan |
        && w'.keyColumns == w.keyColumns && Fits(w', width) && |key| == |w.keyColumns(index)|
        && Candidate(Annotate(cat, Lookup(t, cols, index, key)), q)
        ensures FormRight(w', width, Lookup(t, cols, index, key), q, u)
      {
        LookupPrepared(w', width, cat, t, cols, index, key);
        CandidateRuns(w', width, cat, Lookup(t, cols, index, key), q);
        BesideYields(w', width, cat, Lookup(t, cols, index, key), q, u);
      }
    }
    if LookupRight(w, width, cat, t, cols, index, u) {
      var row, other := Positions(width(t)), seq(width(u), i => BigInt(-1));
      var w', key := TwoRows(w, t, row, u, other), ExtractKey(row, w.keyColumns(index));
      TwoFit(w, width, t, row, u, other);
      IndexIsForm(cat, Lookup(t, cols, index, key));
      assert FormRight(w', width, Lookup(t, cols, index, key), IndexScan(t, cols, index, Literals(key)), u);
      AloneInOrder(w', width, t, cols, index, row);
      LookupReads(w', width, t, cols, index, key);
      ProbedOne(w', t, index, row);
      OffsetsAt(cols);
      BesideWhole(w', width, IndexScan(t, cols, index, Literals(key)), LogicalRows(w', NONE, Lookup(t, cols, index, key)), u, row, other);
    }
  }
}
