/** The rows of plans. */
module QueryMeaning {
  import opened Bags
  import opened Base
  import opened Exprs
  import opened AggSpec
  import opened AggOrder
  import opened AggSafe
  import opened PlanModel
  import opened MemoModel

  // ------------------------------------------------------------------ what an operator makes of a row

  // `outer` are the columns of enclosing queries; a row's own columns come before them.

  function Keeping(fp: Rounded, outer: Named, preds: seq<Expr>): (f: Named -> seq<Named>) {
    (r: Named) => if AllHold(fp, preds, EnvOf(outer + r)) then [r] else []
  }

  function Projecting(cols: seq<ColId>): (f: Named -> seq<Named>) {
    (r: Named) => [Projected(cols, r)]
  }

  function Extending(fp: Rounded, outer: Named, exprs: seq<(ColId, Expr)>): (f: Named -> seq<Named>) {
    (r: Named) => [Extend(r, ExprIds(exprs), ExprVals(fp, exprs, outer + r))]
  }

  ghost function Renaming(names: map<ColId, ColId>): (f: Named -> seq<Named>) {
    (r: Named) => [Renamed(names, r)]
  }

  function Pairing(l: Named): (f: Named -> seq<Named>) {
    (r: Named) => [l + r]
  }

  // ------------------------------------------------------------------ joins

  /** The pair of two rows, if the predicates hold on it. */
  function Matching(fp: Rounded, outer: Named, preds: seq<Expr>): (h: (Named, Named) -> seq<Named>) {
    (l: Named, r: Named) => if AllHold(fp, preds, EnvOf(outer + (l + r))) then [l + r] else []
  }

  /** A row with its matches, or by itself when there are none. */
  function OrAlone(h: (Named, Named) -> seq<Named>, rs: seq<Named>): (f: Named -> seq<Named>) {
    (l: Named) => if Flat(Fixed(h, l), rs) == [] then [l] else Flat(Fixed(h, l), rs)
  }

  function OnlyAlone(h: (Named, Named) -> seq<Named>, rs: seq<Named>): (f: Named -> seq<Named>) {
    (l: Named) => if Flat(Fixed(h, l), rs) == [] then [l] else []
  }

  /** The rows of a join by its type; a row without a match on the other side has no columns of it. */
  function Joining(t: JoinType, h: (Named, Named) -> seq<Named>, ls: seq<Named>, rs: seq<Named>): (out: seq<Named>) {
    match t
    case Inner => NestedFlat(h, ls, rs)
    case Cross => NestedFlat(h, ls, rs)
    case Left => Flat(OrAlone(h, rs), ls)
    case Right => Flat(OrAlone(Flipped(h), ls), rs)
    case Full => Flat(OrAlone(h, rs), ls) + Flat(OnlyAlone(Flipped(h), ls), rs)
  }

  // ------------------------------------------------------------------ plans

  ghost function Aggregated(w: World, groupBy: seq<ColId>, aggrs: seq<Aggregation>,
      rows: seq<Named>): (out: seq<Named>) {
    LabelRows(groupBy + Dests(aggrs), Groups(w, AggOps(aggrs), NamedItems(groupBy, aggrs, rows)))
  }

  ghost predicate Aggregates(groupBy: seq<ColId>, aggrs: seq<Aggregation>, rows: seq<Named>) {
    Finishes(AggOps(aggrs), NamedItems(groupBy, aggrs, rows))
  }

  /**
   * What a logical plan asks for. An index scan is the scan of the rows with its key. A mutation is kept
   * whole, and a sort orders what as a bag stays the same.
   */
  ghost function LogicalRows(w: World, outer: Named, p: Logical): (rows: seq<Named>)
    decreases p, 0
  {
    match p
    case LScan(t, cols) => ScanRows(cols, w.db(t))
    case LIndexScan(t, cols, index, keys, _) => ScanRows(cols, RowsWithKey(w.db(t), w.keyColumns(index), KeyValues(keys)))
    case LSelect(src, preds) => Flat(Keeping(w.fp, outer, preds), LogicalRows(w, outer, src))
    case LJoin(t, l, r, preds) =>
      Joining(t, Matching(w.fp, outer, preds), LogicalRows(w, outer, l), LogicalRows(w, outer, r))
    case LProject(src, cols) => Flat(Projecting(cols), LogicalRows(w, outer, src))
    case LOrderBy(src, _) => LogicalRows(w, outer, src)
    case LAggregate(src, groupBy, aggrs) => Aggregated(w, groupBy, aggrs, LogicalRows(w, outer, src))
    case LMap(src, exprs) => Flat(Extending(w.fp, outer, exprs), LogicalRows(w, outer, src))
    case LFlatMap(l, r) => Flat(LogicalAcross(w, outer, r), LogicalRows(w, outer, l))
    case LRename(src, names) => Flat(Renaming(names), LogicalRows(w, outer, src))
    case LMutation(_, _) => []
  }

  /** A row paired with the rows of a plan that sees its columns. */
  ghost function LogicalAcross(w: World, outer: Named, p: Logical): (f: Named -> seq<Named>)
    decreases p, 1
  {
    (l: Named) => Flat(Pairing(l), LogicalRows(w, outer + l, p))
  }

  /** What a physical plan yields: an index scan takes its columns in the order of the table. */
  ghost function PhysicalRows(w: World, outer: Named, q: Plan): (rows: seq<Named>)
    decreases q, 0
  {
    match q
    case Scan(t, cols) => ScanRows(cols, w.db(t))
    case IndexScan(t, cols, index, keys) => LabelRows(cols, w.probe(t, index, KeyValues(keys)))
    case Select(src, preds) => Flat(Keeping(w.fp, outer, preds), PhysicalRows(w, outer, src))
    case CrossJoin(l, r, preds) =>
      Joining(Cross, Matching(w.fp, outer, preds), PhysicalRows(w, outer, l), PhysicalRows(w, outer, r))
    case NestedLoopJoin(t, l, r, preds) =>
      Joining(t, Matching(w.fp, outer, preds), PhysicalRows(w, outer, l), PhysicalRows(w, outer, r))
    case HashJoin(_, l, r, preds) =>
      NestedFlat(Flipped(Matching(w.fp, outer, preds)), PhysicalRows(w, outer, r), PhysicalRows(w, outer, l))
    case Project(src, cols) => Flat(Projecting(cols), PhysicalRows(w, outer, src))
    case Sort(src, _) => PhysicalRows(w, outer, src)
    case HashAggregate(src, groupBy, aggrs) => Aggregated(w, groupBy, aggrs, PhysicalRows(w, outer, src))
    case Map(src, exprs) => Flat(Extending(w.fp, outer, exprs), PhysicalRows(w, outer, src))
    case FlatMap(l, r) => Flat(PhysicalAcross(w, outer, r), PhysicalRows(w, outer, l))
    case Rename(src, names) => Flat(Renaming(names), PhysicalRows(w, outer, src))
    case Mutation(_) => []
  }

  ghost function PhysicalAcross(w: World, outer: Named, q: Plan): (f: Named -> seq<Named>)
    decreases q, 1
  {
    (l: Named) => Flat(Pairing(l), PhysicalRows(w, outer + l, q))
  }

  // ------------------------------------------------------------------ no aggregate fails

  /** No aggregate of the rows fails, in whatever order they come: a running total may overflow in one only. */
  ghost predicate AnyOrder(groupBy: seq<ColId>, aggrs: seq<Aggregation>, rows: seq<Named>) {
    forall other: seq<Named> | multiset(other) == multiset(rows) :: Aggregates(groupBy, aggrs, other)
  }

  ghost predicate NoneFails(w: World, outer: Named, p: Logical)
    decreases p
  {
    if p.LFlatMap? then
      && NoneFails(w, outer, p.left)
      && forall l | l in LogicalRows(w, outer, p.left) :: NoneFails(w, outer + l, p.right)
    else if p.LJoin? then NoneFails(w, outer, p.left) && NoneFails(w, outer, p.right)
    else if OneInput(p) then
      && NoneFails(w, outer, p.src)
      && (p.LAggregate? ==> AnyOrder(p.groupBy, p.aggrs, LogicalRows(w, outer, p.src)))
    else true
  }

  /** Every aggregate of the plan adds up within 64 bits, by the absolute values of its rows. */
  ghost predicate SafePlan(w: World, outer: Named, p: Logical)
    decreases p
  {
    if p.LFlatMap? then
      && SafePlan(w, outer, p.left)
      && forall l | l in LogicalRows(w, outer, p.left) :: SafePlan(w, outer + l, p.right)
    else if p.LJoin? then SafePlan(w, outer, p.left) && SafePlan(w, outer, p.right)
    else if OneInput(p) then
      && SafePlan(w, outer, p.src)
      && (p.LAggregate? ==> Safe(AggOps(p.aggrs), NamedItems(p.groupBy, p.aggrs, LogicalRows(w, outer, p.src))))
    else true
  }

  lemma SafeAggregates(groupBy: seq<ColId>, aggrs: seq<Aggregation>, rows: seq<Named>)
    requires Safe(AggOps(aggrs), NamedItems(groupBy, aggrs, rows))
    ensures AnyOrder(groupBy, aggrs, rows)
  {
    hide Safe, Finishes, NamedItems;
    forall other: seq<Named> | multiset(other) == multiset(rows) ensures Aggregates(groupBy, aggrs, other) {
      ItemsFlat(groupBy, aggrs, rows);
      ItemsFlat(groupBy, aggrs, other);
      FlatPermuted(ItemOf(groupBy, aggrs), rows, other);
      SafeAnyOrder(AggOps(aggrs), NamedItems(groupBy, aggrs, rows), NamedItems(groupBy, aggrs, other));
    }
  }

  /** Such a plan has no aggregate that fails. */
  lemma {:induction false} SafeNoneFails(w: World, outer: Named, p: Logical)
    requires SafePlan(w, outer, p)
    ensures NoneFails(w, outer, p)
    decreases p
  {
    hide LogicalRows, Safe, NamedItems, AnyOrder;
    if p.LFlatMap? {
      SafeNoneFails(w, outer, p.left);
      forall l | l in LogicalRows(w, outer, p.left) ensures NoneFails(w, outer + l, p.right) {
        SafeNoneFails(w, outer + l, p.right);
      }
    } else if p.LJoin? {
      SafeNoneFails(w, outer, p.left);
      SafeNoneFails(w, outer, p.right);
    } else if OneInput(p) {
      SafeNoneFails(w, outer, p.src);
      if p.LAggregate? {
        SafeAggregates(p.groupBy, p.aggrs, LogicalRows(w, outer, p.src));
      }
    }
  }

  // ------------------------------------------------------------------ operators on bags

  lemma MatchAlone(h: (Named, Named) -> seq<Named>, g: (Named, Named) -> seq<Named>, l: Named, a: seq<Named>,
      b: seq<Named>)
    requires multiset(a) == multiset(b) && forall x, y :: h(x, y) == g(x, y)
    ensures multiset(OrAlone(h, a)(l)) == multiset(OrAlone(g, b)(l))
    ensures multiset(OnlyAlone(h, a)(l)) == multiset(OnlyAlone(g, b)(l))
  {
    FlatSame(Fixed(h, l), Fixed(g, l), a, b);
    EmptyBag(Flat(Fixed(h, l), a), Flat(Fixed(g, l), b));
  }

  lemma AlonePermuted(h: (Named, Named) -> seq<Named>, g: (Named, Named) -> seq<Named>, ls: seq<Named>,
      ls': seq<Named>, rs: seq<Named>, rs': seq<Named>)
    requires multiset(ls) == multiset(ls') && multiset(rs) == multiset(rs') && forall x, y :: h(x, y) == g(x, y)
    ensures multiset(Flat(OrAlone(h, rs), ls)) == multiset(Flat(OrAlone(g, rs'), ls'))
    ensures multiset(Flat(OnlyAlone(h, rs), ls)) == multiset(Flat(OnlyAlone(g, rs'), ls'))
  {
    forall i | 0 <= i < |ls'|
      ensures multiset(OrAlone(h, rs)(ls'[i])) == multiset(OrAlone(g, rs')(ls'[i]))
      ensures multiset(OnlyAlone(h, rs)(ls'[i])) == multiset(OnlyAlone(g, rs')(ls'[i]))
    {
      MatchAlone(h, g, ls'[i], rs, rs');
    }
    FlatSame(OrAlone(h, rs), OrAlone(g, rs'), ls, ls');
    FlatSame(OnlyAlone(h, rs), OnlyAlone(g, rs'), ls, ls');
  }

  lemma NestedAlike(h: (Named, Named) -> seq<Named>, g: (Named, Named) -> seq<Named>, ls: seq<Named>, rs: seq<Named>)
    requires forall x, y :: h(x, y) == g(x, y)
    ensures multiset(NestedFlat(h, ls, rs)) == multiset(NestedFlat(g, ls, rs))
  {
    forall i | 0 <= i < |ls| ensures multiset(Over(h, rs)(ls[i])) == multiset(Over(g, rs)(ls[i])) {
      FlatSame(Fixed(h, ls[i]), Fixed(g, ls[i]), rs, rs);
    }
    FlatSame(Over(h, rs), Over(g, rs), ls, ls);
  }

  /** A join of any type depends on its inputs as bags, and on which pairs match. */
  lemma JoiningAlike(t: JoinType, h: (Named, Named) -> seq<Named>, g: (Named, Named) -> seq<Named>, ls: seq<Named>,
      ls': seq<Named>, rs: seq<Named>, rs': seq<Named>)
    requires multiset(ls) == multiset(ls') && multiset(rs) == multiset(rs') && forall x, y :: h(x, y) == g(x, y)
    ensures multiset(Joining(t, h, ls, rs)) == multiset(Joining(t, g, ls', rs'))
  {
    hide OrAlone, OnlyAlone, NestedFlat;
    AlonePermuted(h, g, ls, ls', rs, rs');
    FlippedAlike(h, g);
    AlonePermuted(Flipped(h), Flipped(g), rs, rs', ls, ls');
    PairsPermuted(h, ls, rs, ls', rs');
    NestedAlike(h, g, ls', rs');
  }

  lemma FlippedAlike(h: (Named, Named) -> seq<Named>, g: (Named, Named) -> seq<Named>)
    requires forall x, y :: h(x, y) == g(x, y)
    ensures forall x, y :: Flipped(h)(x, y) == Flipped(g)(x, y)
  {
  }

  /** Matching on the conjunction is matching on the predicates. */
  lemma CombinedMatching(fp: Rounded, outer: Named, preds: seq<Expr>)
    ensures forall l, r :: Matching(fp, outer, [Combine(preds)])(l, r) == Matching(fp, outer, preds)(l, r)
  {
    hide AllHold, Combine;
    forall l: Named, r: Named ensures Matching(fp, outer, [Combine(preds)])(l, r) == Matching(fp, outer, preds)(l, r) {
      CombineHolds(fp, preds, EnvOf(outer + (l + r)));
      OneHolds(fp, Combine(preds), EnvOf(outer + (l + r)));
    }
  }

  function ItemOf(groupBy: seq<ColId>, aggrs: seq<Aggregation>): (f: Named -> seq<Item>) {
    (r: Named) => [Item(Picks(groupBy, r), Picks(Sources(aggrs), r))]
  }

  lemma {:induction false} ItemsFlat(groupBy: seq<ColId>, aggrs: seq<Aggregation>, rows: seq<Named>)
    ensures NamedItems(groupBy, aggrs, rows) == Flat(ItemOf(groupBy, aggrs), rows)
  {
    hide Picks;
    if rows == [] {
    } else {
      ItemsFlat(groupBy, aggrs, rows[1..]);
      assert NamedItems(groupBy, aggrs, rows) == ItemOf(groupBy, aggrs)(rows[0]) + NamedItems(groupBy, aggrs, rows[1..]);
    }
  }

  lemma AggregatedAlike(w: World, groupBy: seq<ColId>, aggrs: seq<Aggregation>, a: seq<Named>, b: seq<Named>)
    requires multiset(a) == multiset(b) && Aggregates(groupBy, aggrs, a) && Aggregates(groupBy, aggrs, b)
    ensures Aggregated(w, groupBy, aggrs, a) == Aggregated(w, groupBy, aggrs, b)
  {
    hide NamedItems, Computable, AggRows, LabelRows;
    ItemsFlat(groupBy, aggrs, a);
    ItemsFlat(groupBy, aggrs, b);
    FlatPermuted(ItemOf(groupBy, aggrs), a, b);
    AggRowsPermuted(AggOps(aggrs), w.avg, NamedItems(groupBy, aggrs, a), NamedItems(groupBy, aggrs, b));
  }

  // ------------------------------------------------------------------ index scans

  /** The listed columns are the first ones of the table, one after the other. */
  ghost predicate InOrder(cols: seq<ColId>) {
    forall i | 0 <= i < |cols| :: ColumnIndex(cols[i]) == i
  }

  lemma LabelInOrder(cols: seq<ColId>, row: Row)
    requires InOrder(cols)
    ensures Label(cols, row) == ScanRow(cols, row)
  {
    OffsetsAt(cols);
    var a, b := Label(cols, row), ScanRow(cols, row);
    assert a.Keys == b.Keys;
    forall id | id in a ensures a[id] == b[id] {
      assert cols[Offsets(cols)[id]] == id;
    }
  }

  function Labelling(cols: seq<ColId>): (f: Row -> seq<Named>) {
    (row: Row) => [Label(cols, row)]
  }

  lemma {:induction false} LabelFlat(cols: seq<ColId>, rows: seq<Row>)
    ensures LabelRows(cols, rows) == Flat(Labelling(cols), rows)
  {
    hide Label;
    if rows == [] {
    } else {
      LabelFlat(cols, rows[1..]);
      assert LabelRows(cols, rows) == [Label(cols, rows[0])] + LabelRows(cols, rows[1..]);
    }
  }

  /** An index scan over columns in order yields the rows with its key, however the index orders them. */
  lemma ProbeRows(w: World, t: TableId, cols: seq<ColId>, index: nat, key: Key)
    requires ProbesFind(w) && InOrder(cols)
    ensures multiset(LabelRows(cols, w.probe(t, index, key)))
      == multiset(ScanRows(cols, RowsWithKey(w.db(t), w.keyColumns(index), key)))
  {
    hide LabelRows, RowsWithKey;
    var found := RowsWithKey(w.db(t), w.keyColumns(index), key);
    LabelFlat(cols, w.probe(t, index, key));
    LabelFlat(cols, found);
    FlatPermuted(Labelling(cols), w.probe(t, index, key), found);
    InOrderRows(cols, found);
  }

  lemma InOrderRows(cols: seq<ColId>, rows: seq<Row>)
    requires InOrder(cols)
    ensures LabelRows(cols, rows) == ScanRows(cols, rows)
  {
    hide Label, ScanRow;
    forall i | 0 <= i < |rows| ensures Label(cols, rows[i]) == ScanRow(cols, rows[i]) {
      LabelInOrder(cols, rows[i]);
    }
  }

  /** The predicates of the alternative ask for the key. */
  lemma {:induction false} AltHolds(fp: Rounded, outer: Named, cols: seq<ColId>, columns: seq<nat>, keys: seq<Expr>,
      row: Row)
    requires InOrder(cols) && |columns| == |keys| && AllLiterals(keys) && AltPreds(cols, columns, keys).Some?
    ensures AllHold(fp, AltPreds(cols, columns, keys).value.0, EnvOf(outer + ScanRow(cols, row)))
      <==> ExtractKey(row, columns) == KeyValues(keys)
  {
    if columns != [] {
      AltHolds(fp, outer, cols, columns[1..], keys[1..], row);
      var env := EnvOf(outer + ScanRow(cols, row));
      var first, rest := Binary(Eq, ColRef(cols[columns[0]]), keys[0]), AltPreds(cols, columns[1..], keys[1..]).value.0;
      KeyHolds(fp, outer, cols, columns[0], keys[0], row);
      hide Holds;
      AllHoldCat(fp, [first], rest, env);
      OneHolds(fp, first, env);
      assert ExtractKey(row, columns) == [At(row, columns[0])] + ExtractKey(row, columns[1..]);
      assert KeyValues(keys) == [keys[0].val] + KeyValues(keys[1..]);
      ConsSame(At(row, columns[0]), ExtractKey(row, columns[1..]), keys[0].val, KeyValues(keys[1..]));
    } else {
      assert ExtractKey(row, columns) == [] && KeyValues(keys) == [];
    }
  }

  lemma ConsSame<T>(x: T, a: seq<T>, y: T, b: seq<T>)
    ensures [x] + a == [y] + b <==> x == y && a == b
  {
    assert ([x] + a)[1..] == a && ([y] + b)[1..] == b && ([x] + a)[0] == x && ([y] + b)[0] == y;
  }

  lemma KeyHolds(fp: Rounded, outer: Named, cols: seq<ColId>, c: nat, key: Expr, row: Row)
    requires InOrder(cols) && c < |cols| && key.Lit?
    ensures Holds(fp, Binary(Eq, ColRef(cols[c]), key), EnvOf(outer + ScanRow(cols, row))) <==> At(row, c) == key.val
  {
    var env := EnvOf(outer + ScanRow(cols, row));
    assert cols[c] in ScanRow(cols, row);
    assert Value(fp, ColRef(cols[c]), env) == Some(At(row, c)) && Value(fp, key, env) == Some(key.val);
  }

  /** Scanning and filtering by the alternative's predicates is looking the key up. */
  lemma {:induction false} AltRows(fp: Rounded, outer: Named, cols: seq<ColId>, columns: seq<nat>, keys: seq<Expr>,
      rows: seq<Row>)
    requires InOrder(cols) && |columns| == |keys| && AllLiterals(keys) && AltPreds(cols, columns, keys).Some?
    ensures Flat(Keeping(fp, outer, AltPreds(cols, columns, keys).value.0), ScanRows(cols, rows))
      == ScanRows(cols, RowsWithKey(rows, columns, KeyValues(keys)))
  {
    hide AllHold, ScanRow, AltPreds, ExtractKey, KeyValues;
    if rows == [] {
    } else {
      AltRows(fp, outer, cols, columns, keys, rows[1..]);
      AltHolds(fp, outer, cols, columns, keys, rows[0]);
      assert ScanRows(cols, rows)[1..] == ScanRows(cols, rows[1..]);
      assert ScanRows(cols, rows)[0] == ScanRow(cols, rows[0]);
      ScanCons(cols, rows[0], RowsWithKey(rows[1..], columns, KeyValues(keys)));
    }
  }

  lemma ScanCons(cols: seq<ColId>, row: Row, rows: seq<Row>)
    ensures ScanRows(cols, [row] + rows) == [ScanRow(cols, row)] + ScanRows(cols, rows)
  {
  }

  // ------------------------------------------------------------------ every candidate means the plan

  ghost predicate CatalogAgrees(w: World, cat: Option<Catalog>) {
    cat.Some? ==> forall t, info | info in cat.value(t) :: w.keyColumns(info.id) == info.columns
  }

  /** Index scans list all of the table's columns, in order, and have one literal per key column. */
  ghost predicate IndexScansSound(w: World, width: TableId -> nat, p: Logical) {
    if p.LIndexScan? then
      && InOrder(p.cols) && |p.cols| == width(p.table)
      && AllLiterals(p.keys) && |p.keys| == |w.keyColumns(p.index)|
    else if TwoInputs(p) then IndexScansSound(w, width, p.left) && IndexScansSound(w, width, p.right)
    else if OneInput(p) then IndexScansSound(w, width, p.src)
    else true
  }

  ghost predicate SameBag(w: World, outer: Named, p: Logical, q: Plan) {
    multiset(PhysicalRows(w, outer, q)) == multiset(LogicalRows(w, outer, p))
  }

  lemma {:induction false} FoundIndex(infos: seq<IndexInfo>, id: nat)
    ensures FindIndex(infos, id).Some? ==> FindIndex(infos, id).value in infos && FindIndex(infos, id).value.id == id
  {
    if infos != [] && infos[0].id != id {
      FoundIndex(infos[1..], id);
    }
  }

  lemma IndexScanMeans(w: World, width: TableId -> nat, cat: Option<Catalog>, outer: Named, p: Logical, q: Plan)
    requires ProbesFind(w) && CatalogAgrees(w, cat) && IndexScansSound(w, width, p)
    requires p.LIndexScan? && Candidate(Annotate(cat, p), q)
    ensures SameBag(w, outer, p, q)
  {
    hide ProbesFind, AltPreds, RowsWithKey, ScanRows, LabelRows, Candidate, FindIndex, InOrder, Keeping;
    IndexForms(cat, p, q);
    ProbeRows(w, p.table, p.cols, p.index, KeyValues(p.keys));
    if q.Select? {
      var info := FindIndex(cat.value(p.table), p.index);
      FoundIndex(cat.value(p.table), p.index);
      AltRows(w.fp, outer, p.cols, info.value.columns, p.keys, w.db(p.table));
      assert w.keyColumns(info.value.id) == info.value.columns;
      assert PhysicalRows(w, outer, q.src) == ScanRows(p.cols, w.db(p.table));
    }
  }

  /** The two forms of an index scan. */
  lemma IndexForms(cat: Option<Catalog>, p: Logical, q: Plan)
    requires p.LIndexScan? && Candidate(Annotate(cat, p), q)
    ensures q == IndexScan(p.table, p.cols, p.index, p.keys) || (
      && cat.Some? && FindIndex(cat.value(p.table), p.index).Some?
      && var preds := AltPreds(p.cols, FindIndex(cat.value(p.table), p.index).value.columns, p.keys);
         preds.Some? && q == Select(Scan(p.table, p.cols), preds.value.0))
  {
    hide AltPreds, FindIndex;
  }

  lemma SameKind(cat: Option<Catalog>, p: Logical, q: Plan)
    requires Candidate(Annotate(cat, p), q)
    ensures p.LJoin? ==> q.NestedLoopJoin? || q.HashJoin?
    ensures p.LFlatMap? ==> q.FlatMap?
    ensures OneInput(p) ==> HasOne(q)
    ensures p.LAggregate? ==> q.HashAggregate? && q.groupBy == p.groupBy && q.aggrs == p.aggrs
    ensures TwoInputs(p) ==> Candidate(Annotate(cat, p.left), q.left) && Candidate(Annotate(cat, p.right), q.right)
    ensures OneInput(p) ==> Candidate(Annotate(cat, p.src), q.src)
  {
    hide Combine, AltOf;
  }

  /** The forms of a join. */
  lemma JoinForms(cat: Option<Catalog>, p: Logical, q: Plan)
    requires p.LJoin? && Candidate(Annotate(cat, p), q)
    ensures
      || (q.NestedLoopJoin? && q == NestedLoopJoin(p.joinType, q.left, q.right, [Combine(p.preds)]))
      || (q.HashJoin? && p.joinType.Inner? && q == HashJoin(Inner, q.left, q.right, [Combine(p.preds)]))
  {
    hide Combine, Equality;
  }

  lemma JoinMeans(w: World, cat: Option<Catalog>, outer: Named, p: Logical, q: Plan)
    requires p.LJoin? && Candidate(Annotate(cat, p), q) && HasTwo(q)
    requires SameBag(w, outer, p.left, q.left) && SameBag(w, outer, p.right, q.right)
    ensures SameBag(w, outer, p, q)
  {
    hide Joining, Matching, Combine, NestedFlat, Candidate, Annotate;
    var h, g := Matching(w.fp, outer, [Combine(p.preds)]), Matching(w.fp, outer, p.preds);
    var ls, rs := PhysicalRows(w, outer, q.left), PhysicalRows(w, outer, q.right);
    JoinForms(cat, p, q);
    CombinedMatching(w.fp, outer, p.preds);
    JoiningAlike(p.joinType, h, g, ls, LogicalRows(w, outer, p.left), rs, LogicalRows(w, outer, p.right));
    InnerJoining(h, ls, rs);
    FlatSwap(h, ls, rs);
  }

  lemma InnerJoining(h: (Named, Named) -> seq<Named>, ls: seq<Named>, rs: seq<Named>)
    ensures Joining(Inner, h, ls, rs) == NestedFlat(h, ls, rs)
  {
  }

  lemma FlatMapMeans(w: World, outer: Named, p: Logical, q: Plan)
    requires p.LFlatMap? && q.FlatMap? && SameBag(w, outer, p.left, q.left)
    requires forall l | l in LogicalRows(w, outer, p.left) :: SameBag(w, outer + l, p.right, q.right)
    ensures SameBag(w, outer, p, q)
  {
    var ls := LogicalRows(w, outer, p.left);
    forall i | 0 <= i < |ls|
      ensures multiset(PhysicalAcross(w, outer, q.right)(ls[i])) == multiset(LogicalAcross(w, outer, p.right)(ls[i]))
    {
      assert SameBag(w, outer + ls[i], p.right, q.right);
      FlatPermuted(Pairing(ls[i]), PhysicalRows(w, outer + ls[i], q.right), LogicalRows(w, outer + ls[i], p.right));
    }
    FlatSame(PhysicalAcross(w, outer, q.right), LogicalAcross(w, outer, p.right), PhysicalRows(w, outer, q.left), ls);
  }

  /** The one form of a node with one input. */
  function UnaryForm(p: Logical, src: Plan): (q: Plan)
    requires OneInput(p)
  {
    match p
    case LSelect(_, preds) => Select(src, preds)
    case LProject(_, cols) => Project(src, cols)
    case LOrderBy(_, order) => Sort(src, order)
    case LAggregate(_, groupBy, aggrs) => HashAggregate(src, groupBy, aggrs)
    case LMap(_, exprs) => Map(src, exprs)
    case LRename(_, names) => Rename(src, names)
  }

  lemma UnaryIs(cat: Option<Catalog>, p: Logical, q: Plan)
    requires OneInput(p) && Candidate(Annotate(cat, p), q)
    ensures HasOne(q) && q == UnaryForm(p, q.src)
  {
  }

  lemma UnaryMeans(w: World, cat: Option<Catalog>, outer: Named, p: Logical, q: Plan)
    requires OneInput(p) && Candidate(Annotate(cat, p), q) && HasOne(q) && SameBag(w, outer, p.src, q.src)
    requires p.LAggregate? ==> AnyOrder(p.groupBy, p.aggrs, LogicalRows(w, outer, p.src))
    ensures SameBag(w, outer, p, q)
  {
    hide Keeping, Projecting, Extending, Renaming, Aggregated, Aggregates, Flat, Candidate, Annotate;
    UnaryIs(cat, p, q);
    var a, b := PhysicalRows(w, outer, q.src), LogicalRows(w, outer, p.src);
    match p
    case LSelect(_, preds) => FlatPermuted(Keeping(w.fp, outer, preds), a, b);
    case LProject(_, cols) => FlatPermuted(Projecting(cols), a, b);
    case LOrderBy(_, _) =>
    case LAggregate(_, groupBy, aggrs) => AggregatedAlike(w, groupBy, aggrs, a, b);
    case LMap(_, exprs) => FlatPermuted(Extending(w.fp, outer, exprs), a, b);
    case LRename(_, names) => FlatPermuted(Renaming(names), a, b);
  }

  /** Every candidate, so also the one resolved to, yields the rows the logical plan asks for. */
  lemma {:induction false} CandidateMeans(w: World, width: TableId -> nat, cat: Option<Catalog>, outer: Named,
      p: Logical, q: Plan)
    requires ProbesFind(w) && CatalogAgrees(w, cat) && IndexScansSound(w, width, p) && Candidate(Annotate(cat, p), q)
    requires NoneFails(w, outer, p)
    ensures SameBag(w, outer, p, q)
    decreases p
  {
    hide ProbesFind, CatalogAgrees, LogicalRows, PhysicalRows, Candidate, Annotate, SameBag, AnyOrder, InOrder;
    SameKind(cat, p, q);
    if p.LJoin? {
      CandidateMeans(w, width, cat, outer, p.left, q.left);
      CandidateMeans(w, width, cat, outer, p.right, q.right);
      JoinMeans(w, cat, outer, p, q);
    } else if p.LFlatMap? {
      CandidateMeans(w, width, cat, outer, p.left, q.left);
      forall l | l in LogicalRows(w, outer, p.left) ensures SameBag(w, outer + l, p.right, q.right) {
        CandidateMeans(w, width, cat, outer + l, p.right, q.right);
      }
      FlatMapMeans(w, outer, p, q);
    } else if OneInput(p) {
      CandidateMeans(w, width, cat, outer, p.src, q.src);
      UnaryMeans(w, cat, outer, p, q);
    } else if p.LIndexScan? {
      IndexScanMeans(w, width, cat, outer, p, q);
    } else {
      LeafMeans(w, cat, outer, p, q);
    }
  }

  lemma LeafMeans(w: World, cat: Option<Catalog>, outer: Named, p: Logical, q: Plan)
    requires (p.LScan? || p.LMutation?) && Candidate(Annotate(cat, p), q)
    ensures SameBag(w, outer, p, q)
  {
  }

  // ------------------------------------------------------------------ columns and keys

  ghost predicate NoneTwice(cols: seq<ColId>) {
    forall i, j | 0 <= i < j < |cols| :: cols[i] != cols[j]
  }

  function Literals(key: Key): (keys: seq<Expr>)
    ensures |keys| == |key| && AllLiterals(keys) && KeyValues(keys) == key
  {
    seq(|key|, i requires 0 <= i < |key| => Lit(key[i]))
  }
}
