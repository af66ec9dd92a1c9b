/** Physical plans and what they mean: sequences of rows whose fields are found by column id. */
module PlanModel {
  import opened Base
  import opened Exprs
  import opened AggSpec

  type TableId = nat

  const MAX_COLUMNS: nat := 100

  /** Where a base column's id says it is in its table. */
  function ColumnIndex(id: ColId): (i: nat) {
    id % MAX_COLUMNS
  }

  datatype Aggregation = Aggregation(dest: ColId, src: ColId, op: AggOp)

  datatype JoinType = Inner | Left | Right | Full | Cross

  /** An index: its id and the table positions of its key columns. */
  datatype IndexInfo = IndexInfo(id: nat, columns: seq<nat>)

  type Catalog = TableId -> seq<IndexInfo>

  /** A scan with equality predicates that is equivalent to an index scan; the raw predicates name table positions. */
  datatype ScanSelectAlt = ScanSelectAlt(planColumns: seq<ColId>, planPreds: seq<Expr>, rawPreds: seq<Expr>)

  datatype Logical =
    | LScan(table: TableId, cols: seq<ColId>)
    | LIndexScan(table: TableId, cols: seq<ColId>, index: nat, keys: seq<Expr>, alt: Option<ScanSelectAlt>)
    | LSelect(src: Logical, preds: seq<Expr>)
    | LJoin(joinType: JoinType, left: Logical, right: Logical, preds: seq<Expr>)
    | LProject(src: Logical, cols: seq<ColId>)
    | LOrderBy(src: Logical, order: seq<(ColId, bool, bool)>)
    | LAggregate(src: Logical, groupBy: seq<ColId>, aggrs: seq<Aggregation>)
    | LMap(src: Logical, exprs: seq<(ColId, Expr)>)
    | LFlatMap(left: Logical, right: Logical)
    | LRename(src: Logical, names: map<ColId, ColId>)
    | LMutation(table: TableId, src: Logical)

  /** Physical plans. */
  datatype Plan =
    | Scan(table: TableId, cols: seq<ColId>)
    | IndexScan(table: TableId, cols: seq<ColId>, index: nat, keys: seq<Expr>)
    | Rename(src: Plan, names: map<ColId, ColId>)
    | Project(src: Plan, cols: seq<ColId>)
    | Select(src: Plan, preds: seq<Expr>)
    | CrossJoin(left: Plan, right: Plan, preds: seq<Expr>)
    | NestedLoopJoin(joinType: JoinType, left: Plan, right: Plan, preds: seq<Expr>)
    | HashJoin(joinType: JoinType, left: Plan, right: Plan, preds: seq<Expr>)
    | HashAggregate(src: Plan, groupBy: seq<ColId>, aggrs: seq<Aggregation>)
    | Map(src: Plan, exprs: seq<(ColId, Expr)>)
    | Sort(src: Plan, order: seq<(ColId, bool, bool)>)
    | FlatMap(left: Plan, right: Plan)
    | Mutation(plan: Logical)

  /**
   * What a query runs against: the arithmetic that rounds, the stored rows, the key columns of each index,
   * and what a probe of an index on a table returns.
   */
  datatype World = World(
    fp: Rounded,
    avg: Average,
    db: TableId -> seq<Row>,
    keyColumns: nat -> seq<nat>,
    probe: (TableId, nat, Key) -> seq<Row>
  )

  // ------------------------------------------------------------------ index probes

  /** The rows of a table whose key columns hold the key. */
  function RowsWithKey(rows: seq<Row>, columns: seq<nat>, key: Key): (out: seq<Row>) {
    if rows == [] then []
    else (if ExtractKey(rows[0], columns) == key then [rows[0]] else []) + RowsWithKey(rows[1..], columns, key)
  }

  /** Probes return the rows with their key, each once, in any order. */
  ghost predicate ProbesFind(w: World) {
    forall t, index, key :: multiset(w.probe(t, index, key)) == multiset(RowsWithKey(w.db(t), w.keyColumns(index), key))
  }

  /** The key of an index scan; anything but a literal panics, and is given as Null here. */
  function KeyValues(keys: seq<Expr>): (key: Key)
    ensures |key| == |keys|
  {
    seq(|keys|, i requires 0 <= i < |keys| => if keys[i].Lit? then keys[i].val else Null)
  }

  predicate AllLiterals(keys: seq<Expr>) {
    forall i | 0 <= i < |keys| :: keys[i].Lit?
  }

  // ------------------------------------------------------------------ rows with named fields

  type Named = map<ColId, Field>

  function EnvOf(r: Named): (env: Env) {
    (id: ColId) => if id in r then Some(r[id]) else None
  }

  /** A value that failed to compute aborts the query; it is given as Null here, so nothing is said of such runs. */
  function Got(v: Option<Field>): (f: Field) {
    if v.Some? then v.value else Null
  }

  /** Each of the column ids with its last position. */
  function Offsets(cols: seq<ColId>): (m: map<ColId, nat>) {
    if cols == [] then map[] else Offsets(cols[..|cols| - 1])[cols[|cols| - 1] := |cols| - 1]
  }

  lemma {:induction false} OffsetsAt(cols: seq<ColId>)
    ensures forall id :: id in Offsets(cols) <==> id in cols
    ensures forall id | id in cols :: Offsets(cols)[id] < |cols| && cols[Offsets(cols)[id]] == id
  {
    if cols == [] {
    } else {
      OffsetsAt(cols[..|cols| - 1]);
      assert cols == cols[..|cols| - 1] + [cols[|cols| - 1]];
    }
  }

  /** The fields of a positional row, under the ids an offset map gives them. */
  function Read(m: map<ColId, nat>, row: Row): (r: Named) {
    map id | id in m :: At(row, m[id])
  }

  function Label(cols: seq<ColId>, row: Row): (r: Named) {
    Read(Offsets(cols), row)
  }

  /** The id that `names` turns into `d`. */
  ghost function Origin(names: map<ColId, ColId>, d: ColId): (s: ColId)
    requires d in names.Values
    ensures s in names && names[s] == d
  {
    var s :| s in names && names[s] == d;
    s
  }

  ghost function Renamed<V>(names: map<ColId, ColId>, r: map<ColId, V>): (r': map<ColId, V>) {
    map d | d in names.Values && Origin(names, d) in r :: r[Origin(names, d)]
  }

  ghost predicate Injective(names: map<ColId, ColId>) {
    forall a, b | a in names && b in names && names[a] == names[b] :: a == b
  }

  /** Without colliding names, each column is found under its new id. */
  lemma RenamedAt<V>(names: map<ColId, ColId>, m: map<ColId, V>, s: ColId)
    requires Injective(names) && s in names && s in m
    ensures names[s] in Renamed(names, m) && Renamed(names, m)[names[s]] == m[s]
  {
    assert names[s] in names.Values;
    assert Origin(names, names[s]) == s;
  }

  lemma RenameKeys<V>(names: map<ColId, ColId>, m: map<ColId, V>)
    requires names.Keys == m.Keys
    ensures Renamed(names, m).Keys == names.Values
  {
  }

  function Extend(r: Named, ids: seq<ColId>, vals: seq<Field>): (r': Named)
    requires |ids| == |vals|
  {
    if ids == [] then r
    else Extend(r, ids[..|ids| - 1], vals[..|ids| - 1])[ids[|ids| - 1] := vals[|ids| - 1]]
  }

  // ------------------------------------------------------------------ meaning

  function Filtered(fp: Rounded, preds: seq<Expr>, rows: seq<Named>): (out: seq<Named>) {
    if rows == [] then []
    else (if AllHold(fp, preds, EnvOf(rows[0])) then [rows[0]] else []) + Filtered(fp, preds, rows[1..])
  }

  function WithEach(l: Named, rs: seq<Named>): (out: seq<Named>) {
    if rs == [] then [] else [l + rs[0]] + WithEach(l, rs[1..])
  }

  /** Every pair of rows, left rows outermost. */
  function Pairs(ls: seq<Named>, rs: seq<Named>): (out: seq<Named>) {
    if ls == [] then [] else WithEach(ls[0], rs) + Pairs(ls[1..], rs)
  }

  function EachWith(ls: seq<Named>, r: Named): (out: seq<Named>) {
    if ls == [] then [] else [ls[0] + r] + EachWith(ls[1..], r)
  }

  /** Every pair of rows, right rows outermost. */
  function PairsByRight(ls: seq<Named>, rs: seq<Named>): (out: seq<Named>) {
    if rs == [] then [] else EachWith(ls, rs[0]) + PairsByRight(ls, rs[1..])
  }

  function Picks(ids: seq<ColId>, r: Named): (vals: seq<Field>) {
    seq(|ids|, i requires 0 <= i < |ids| => Got(EnvOf(r)(ids[i])))
  }

  function Sources(aggrs: seq<Aggregation>): (ids: seq<ColId>)
    ensures |ids| == |aggrs|
  {
    seq(|aggrs|, i requires 0 <= i < |aggrs| => aggrs[i].src)
  }

  function Dests(aggrs: seq<Aggregation>): (ids: seq<ColId>)
    ensures |ids| == |aggrs|
  {
    seq(|aggrs|, i requires 0 <= i < |aggrs| => aggrs[i].dest)
  }

  function AggOps(aggrs: seq<Aggregation>): (ops: seq<AggOp>)
    ensures |ops| == |aggrs|
  {
    seq(|aggrs|, i requires 0 <= i < |aggrs| => aggrs[i].op)
  }

  function NamedItems(groupBy: seq<ColId>, aggrs: seq<Aggregation>, rows: seq<Named>): (items: seq<Item>)
    ensures Wide(|aggrs|, items) && |items| == |rows|
  {
    seq(|rows|, i requires 0 <= i < |rows| => Item(Picks(groupBy, rows[i]), Picks(Sources(aggrs), rows[i])))
  }

  ghost function Groups(w: World, ops: seq<AggOp>, items: seq<Item>): (rows: seq<Row>)
    requires Wide(|ops|, items)
  {
    if Finishes(ops, items) then AggRows(ops, w.avg, items) else []
  }

  function ExprIds(exprs: seq<(ColId, Expr)>): (ids: seq<ColId>)
    ensures |ids| == |exprs|
  {
    seq(|exprs|, i requires 0 <= i < |exprs| => exprs[i].0)
  }

  function ExprVals(fp: Rounded, exprs: seq<(ColId, Expr)>, r: Named): (vals: seq<Field>)
    ensures |vals| == |exprs|
  {
    seq(|exprs|, i requires 0 <= i < |exprs| => Got(Value(fp, exprs[i].1, EnvOf(r))))
  }

  function ScanRow(cols: seq<ColId>, row: Row): (r: Named) {
    map id | id in cols :: At(row, ColumnIndex(id))
  }

  function ScanRows(cols: seq<ColId>, rows: seq<Row>): (rs: seq<Named>) {
    seq(|rows|, i requires 0 <= i < |rows| => ScanRow(cols, rows[i]))
  }

  ghost function RenamedRows(names: map<ColId, ColId>, rows: seq<Named>): (rs: seq<Named>) {
    seq(|rows|, i requires 0 <= i < |rows| => Renamed(names, rows[i]))
  }

  function Projected(cols: seq<ColId>, r: Named): (r': Named) {
    map id | id in cols && id in r :: r[id]
  }

  function ProjectedRows(cols: seq<ColId>, rows: seq<Named>): (rs: seq<Named>) {
    seq(|rows|, i requires 0 <= i < |rows| => Projected(cols, rows[i]))
  }

  function LabelRows(cols: seq<ColId>, rows: seq<Row>): (rs: seq<Named>) {
    seq(|rows|, i requires 0 <= i < |rows| => Label(cols, rows[i]))
  }

  function Extended(fp: Rounded, exprs: seq<(ColId, Expr)>, r: Named): (r': Named) {
    Extend(r, ExprIds(exprs), ExprVals(fp, exprs, r))
  }

  function ExtendedRows(fp: Rounded, exprs: seq<(ColId, Expr)>, rows: seq<Named>): (rs: seq<Named>) {
    seq(|rows|, i requires 0 <= i < |rows| => Extended(fp, exprs, rows[i]))
  }

  /** The rows of a plan, for the kinds that have operators. */
  ghost function Meaning(w: World, p: Plan): (rows: seq<Named>) {
    match p
    case Scan(t, cols) => ScanRows(cols, w.db(t))
    case IndexScan(t, cols, index, keys) => LabelRows(cols, w.probe(t, index, KeyValues(keys)))
    case Rename(src, names) => RenamedRows(names, Meaning(w, src))
    case Project(src, cols) => ProjectedRows(cols, Meaning(w, src))
    case Select(src, preds) => Filtered(w.fp, preds, Meaning(w, src))
    case CrossJoin(l, r, preds) => Filtered(w.fp, preds, Pairs(Meaning(w, l), Meaning(w, r)))
    case NestedLoopJoin(_, l, r, preds) => Filtered(w.fp, preds, Pairs(Meaning(w, l), Meaning(w, r)))
    case HashJoin(_, l, r, preds) => Filtered(w.fp, preds, PairsByRight(Meaning(w, l), Meaning(w, r)))
    case HashAggregate(src, groupBy, aggrs) =>
      LabelRows(groupBy + Dests(aggrs), Groups(w, AggOps(aggrs), NamedItems(groupBy, aggrs, Meaning(w, src))))
    case Map(src, exprs) => ExtendedRows(w.fp, exprs, Meaning(w, src))
    case _ => []
  }

  function Ids(cols: seq<ColId>): (ids: set<ColId>) {
    set id | id in cols
  }

  /** The columns of a plan. */
  ghost function Cols(p: Plan): (ids: set<ColId>) {
    match p
    case Scan(_, cols) => Ids(cols)
    case IndexScan(_, cols, _, _) => Ids(cols)
    case Rename(src, names) => names.Values
    case Project(_, cols) => Ids(cols)
    case Select(src, _) => Cols(src)
    case CrossJoin(l, r, _) => Cols(l) + Cols(r)
    case NestedLoopJoin(_, l, r, _) => Cols(l) + Cols(r)
    case HashJoin(_, l, r, _) => Cols(l) + Cols(r)
    case HashAggregate(_, groupBy, aggrs) => Ids(groupBy + Dests(aggrs))
    case Map(src, exprs) => Cols(src) + Ids(ExprIds(exprs))
    case _ => {}
  }

  // ------------------------------------------------------------------ well-formed plans

  ghost predicate Bound(e: Expr, ids: set<ColId>) {
    Supported(e) && Free(e) <= ids
  }

  /** The left operand has a column of the left input. */
  ghost predicate Aligned(e: Expr, left: set<ColId>)
    requires e.Binary?
  {
    Free(e.left) * left != {}
  }

  /** A join predicate with one operand on each input. */
  ghost predicate JoinPred(e: Expr, left: set<ColId>, right: set<ColId>) {
    && e.Binary? && left !! right
    && if Aligned(e, left) then Bound(e.left, left) && Bound(e.right, right)
       else Bound(e.left, right) && Bound(e.right, left)
  }

  predicate Compares(op: Op) {
    op.Eq? || op.Neq? || op.Gt? || op.Ge? || op.Lt? || op.Le? || op.And? || op.Or?
  }

  /** Swapping the operands makes no difference. */
  predicate Symmetric(op: Op) {
    op.Eq? || op.Neq? || op.And? || op.Or?
  }

  /** Plans whose columns resolve; `width` gives the number of columns of a table, which an index scan yields whole. */
  ghost predicate WellFormed(width: TableId -> nat, p: Plan) {
    match p
    case Scan(t, cols) => forall id | id in cols :: ColumnIndex(id) < width(t)
    case IndexScan(t, cols, _, keys) =>
      |cols| == width(t) && AllLiterals(keys) && forall id | id in cols :: ColumnIndex(id) < width(t)
    case Rename(src, names) => WellFormed(width, src) && names.Keys == Cols(src) && Injective(names)
    case Project(src, cols) => WellFormed(width, src) && forall id | id in cols :: id in Cols(src)
    case Select(src, preds) => WellFormed(width, src) && forall e | e in preds :: Bound(e, Cols(src))
    case CrossJoin(l, r, preds) =>
      WellFormed(width, l) && WellFormed(width, r) && forall e | e in preds :: Bound(e, Cols(l) + Cols(r))
    case NestedLoopJoin(t, l, r, preds) =>
      && t.Inner? && WellFormed(width, l) && WellFormed(width, r)
      && |preds| == 1 && JoinPred(preds[0], Cols(l), Cols(r)) && Compares(preds[0].op)
      && (Aligned(preds[0], Cols(l)) || Symmetric(preds[0].op))
    case HashJoin(t, l, r, preds) =>
      && t.Inner? && WellFormed(width, l) && WellFormed(width, r)
      && |preds| == 1 && JoinPred(preds[0], Cols(l), Cols(r)) && preds[0].op == Eq
    case HashAggregate(src, groupBy, aggrs) =>
      && WellFormed(width, src) && (forall id | id in groupBy :: id in Cols(src))
      && (forall id | id in Sources(aggrs) :: id in Cols(src))
    case Map(src, exprs) => WellFormed(width, src) && forall x | x in exprs :: Bound(x.1, Cols(src))
    case _ => false
  }
}
