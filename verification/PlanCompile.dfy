/** Operator trees, and the translation of a physical plan to one, with its map from column ids to offsets. */
module PlanCompile {
  import opened Base
  import opened Exprs
  import opened Bytecode
  import opened JoinSpec
  import opened AggSpec
  import opened PlanModel
  import HashJoin
  import NestedLoopJoin
  import Aggregate

  datatype Tree =
    | SeqScan(table: TableId, fields: seq<Program>)
    | IndexLookup(table: TableId, index: nat, key: Key)
    | ProjectOp(fields: seq<Program>, child: Tree)
    | FilterOp(pred: Program, child: Tree)
    | CrossOp(left: Tree, right: Tree)
    | NestedLoopOp(op: Op, leftExpr: Program, rightExpr: Program, left: Tree, right: Tree)
    | HashOp(leftExpr: Program, rightExpr: Program, left: Tree, right: Tree)
    | AggregateOp(groups: seq<Program>, aggs: seq<Program>, ops: seq<AggOp>, child: Tree)

  // ------------------------------------------------------------------ what the operators produce

  function Runs(fp: Rounded, p: Program): (f: Row -> Field) {
    (row: Row) => Got(Eval(fp, p, row))
  }

  function RunsAll(fp: Rounded, ps: seq<Program>): (fs: seq<Row -> Field>)
    ensures |fs| == |ps|
  {
    seq(|ps|, i requires 0 <= i < |ps| => Runs(fp, ps[i]))
  }

  function Computed(fp: Rounded, ps: seq<Program>, row: Row): (r: Row)
    ensures |r| == |ps|
  {
    seq(|ps|, i requires 0 <= i < |ps| => Got(Eval(fp, ps[i], row)))
  }

  function ComputedRows(fp: Rounded, ps: seq<Program>, rows: seq<Row>): (rs: seq<Row>)
    ensures |rs| == |rows|
  {
    seq(|rows|, i requires 0 <= i < |rows| => Computed(fp, ps, rows[i]))
  }

  function Passing(fp: Rounded, p: Program, rows: seq<Row>): (out: seq<Row>) {
    if rows == [] then []
    else (if Eval(fp, p, rows[0]) == Some(Bool(true)) then [rows[0]] else []) + Passing(fp, p, rows[1..])
  }

  function Beside(l: Row, rs: seq<Row>): (out: seq<Row>) {
    if rs == [] then [] else [l + rs[0]] + Beside(l, rs[1..])
  }

  function Product(ls: seq<Row>, rs: seq<Row>): (out: seq<Row>) {
    if ls == [] then [] else Beside(ls[0], rs) + Product(ls[1..], rs)
  }

  /** The rows an operator tree yields, each operator as it was specified on its own. */
  ghost function Output(w: World, t: Tree): (rows: seq<Row>) {
    match t
    case SeqScan(table, fields) => ComputedRows(w.fp, fields, w.db(table))
    case IndexLookup(table, index, key) => w.probe(table, index, key)
    case ProjectOp(fields, c) => ComputedRows(w.fp, fields, Output(w, c))
    case FilterOp(p, c) => Passing(w.fp, p, Output(w, c))
    case CrossOp(l, r) => Product(Output(w, l), Output(w, r))
    case NestedLoopOp(op, le, re, l, r) =>
      Nested(NestedLoopJoin.Comparing(op),
        HashJoin.KeyBy(Runs(w.fp, le), Output(w, l)), HashJoin.KeyBy(Runs(w.fp, re), Output(w, r)))
    case HashOp(le, re, l, r) =>
      ByRight(SameKey,
        HashJoin.KeyBy(Runs(w.fp, le), Output(w, l)), HashJoin.KeyBy(Runs(w.fp, re), Output(w, r)))
    case AggregateOp(groups, aggs, ops, c) =>
      if |ops| != |aggs| then []
      else Groups(w, ops, Aggregate.ItemsOf(RunsAll(w.fp, groups), RunsAll(w.fp, aggs), Output(w, c)))
  }

  // ------------------------------------------------------------------ the translation

  /** An operator tree, the offset of each column id, and the number of columns. */
  datatype Compiled = Compiled(tree: Tree, offsets: map<ColId, nat>, width: nat)

  function ColPrograms(ids: seq<ColId>, m: map<ColId, nat>): (ps: seq<Program>)
    ensures |ps| == |ids|
  {
    seq(|ids|, i requires 0 <= i < |ids| => Bytecode.Compiled(ColRef(ids[i]), m))
  }

  function ExprPrograms(exprs: seq<(ColId, Expr)>, m: map<ColId, nat>): (ps: seq<Program>)
    requires forall x | x in exprs :: Supported(x.1)
    ensures |ps| == |exprs|
  {
    seq(|exprs|, i requires 0 <= i < |exprs| => Bytecode.Compiled(exprs[i].1, m))
  }

  /** One filter on top of the other, in the order of the predicates. */
  function Filters(t: Tree, preds: seq<Expr>, m: map<ColId, nat>): (t': Tree)
    requires forall e | e in preds :: Supported(e)
  {
    if preds == [] then t
    else
      var n := |preds| - 1;
      FilterOp(Bytecode.Compiled(preds[n], m), Filters(t, preds[..n], m))
  }

  /** The offsets of a joined row: the right ones behind the left row. */
  function Joined(l: map<ColId, nat>, r: map<ColId, nat>, width: nat): (m: map<ColId, nat>) {
    l + map id | id in r :: r[id] + width
  }

  /** Offsets of new columns, each placed behind the ones before it. */
  function Appended(m: map<ColId, nat>, ids: seq<ColId>, width: nat): (m': map<ColId, nat>) {
    if ids == [] then m
    else Appended(m, ids[..|ids| - 1], width)[ids[|ids| - 1] := width + |ids| - 1]
  }

  function Identity(n: nat): (ids: seq<ColId>)
    ensures |ids| == n
  {
    seq(n, i requires 0 <= i < n => i)
  }

  /** The operands of a join predicate, the one that has a column of the left input first. */
  ghost function Sides(e: Expr, left: set<ColId>): (s: (Expr, Expr))
    requires e.Binary?
  {
    if Free(e.left) * left != {} then (e.left, e.right) else (e.right, e.left)
  }

  // Each step takes the translated inputs; nothing where the translation fails or panics.

  ghost function ScanTree(width: TableId -> nat, t: TableId, cols: seq<ColId>): (r: Option<Compiled>) {
    if forall id | id in cols :: ColumnIndex(id) < width(t) then
      var places := seq(|cols|, i requires 0 <= i < |cols| => ColumnIndex(cols[i]));
      Some(Compiled(SeqScan(t, ColPrograms(places, map[])), Offsets(cols), |cols|))
    else None
  }

  /** The operator hands out whole rows, but is taken to have only the listed columns, in the order of the list. */
  ghost function IndexTree(width: TableId -> nat, t: TableId, cols: seq<ColId>, index: nat,
      keys: seq<Expr>): (r: Option<Compiled>) {
    if AllLiterals(keys) && forall id | id in cols :: ColumnIndex(id) < width(t) then
      Some(Compiled(IndexLookup(t, index, KeyValues(keys)), Offsets(cols), |cols|))
    else None
  }

  ghost function RenameTree(c: Option<Compiled>, names: map<ColId, ColId>): (r: Option<Compiled>) {
    if c.Some? && c.value.offsets.Keys <= names.Keys then
      Some(c.value.(offsets := Renamed(names, c.value.offsets)))
    else None
  }

  ghost function ProjectTree(c: Option<Compiled>, cols: seq<ColId>): (r: Option<Compiled>) {
    if c.Some? && forall id | id in cols :: id in c.value.offsets then
      Some(Compiled(ProjectOp(ColPrograms(cols, c.value.offsets), c.value.tree), Offsets(cols), |cols|))
    else None
  }

  ghost function SelectTree(c: Option<Compiled>, preds: seq<Expr>): (r: Option<Compiled>) {
    if c.Some? && forall e | e in preds :: Supported(e) then
      Some(c.value.(tree := Filters(c.value.tree, preds, c.value.offsets)))
    else None
  }

  ghost function CrossTree(a: Option<Compiled>, b: Option<Compiled>, preds: seq<Expr>): (r: Option<Compiled>) {
    if a.Some? && b.Some? && forall e | e in preds :: Supported(e) then
      var m := Joined(a.value.offsets, b.value.offsets, a.value.width);
      Some(Compiled(Filters(CrossOp(a.value.tree, b.value.tree), preds, m), m, a.value.width + b.value.width))
    else None
  }

  /** Only the first predicate is looked at; `left` are the columns of the left input. */
  ghost function LoopTree(a: Option<Compiled>, b: Option<Compiled>, preds: seq<Expr>,
      left: set<ColId>): (r: Option<Compiled>) {
    if a.Some? && b.Some? && preds != [] && preds[0].Binary? && Supported(preds[0]) then
      var (le, re) := Sides(preds[0], left);
      Some(Compiled(
        NestedLoopOp(preds[0].op, Bytecode.Compiled(le, a.value.offsets), Bytecode.Compiled(re, b.value.offsets),
          a.value.tree, b.value.tree),
        Joined(a.value.offsets, b.value.offsets, a.value.width), a.value.width + b.value.width))
    else None
  }

  ghost function HashTree(a: Option<Compiled>, b: Option<Compiled>, preds: seq<Expr>,
      left: set<ColId>): (r: Option<Compiled>) {
    if a.Some? && b.Some? && preds != [] && preds[0].Binary? && preds[0].op == Eq && Supported(preds[0]) then
      var (le, re) := Sides(preds[0], left);
      Some(Compiled(
        HashOp(Bytecode.Compiled(le, a.value.offsets), Bytecode.Compiled(re, b.value.offsets),
          a.value.tree, b.value.tree),
        Joined(a.value.offsets, b.value.offsets, a.value.width), a.value.width + b.value.width))
    else None
  }

  ghost function AggregateTree(c: Option<Compiled>, groupBy: seq<ColId>,
      aggrs: seq<Aggregation>): (r: Option<Compiled>) {
    if c.Some? && forall id | id in groupBy + Sources(aggrs) :: id in c.value.offsets then
      Some(Compiled(
        AggregateOp(ColPrograms(groupBy, c.value.offsets), ColPrograms(Sources(aggrs), c.value.offsets),
          AggOps(aggrs), c.value.tree),
        Offsets(groupBy + Dests(aggrs)), |groupBy| + |aggrs|))
    else None
  }

  ghost function MapTree(c: Option<Compiled>, exprs: seq<(ColId, Expr)>): (r: Option<Compiled>) {
    if c.Some? && forall x | x in exprs :: Supported(x.1) then
      var w := c.value.width;
      Some(Compiled(
        ProjectOp(ColPrograms(Identity(w), map[]) + ExprPrograms(exprs, c.value.offsets), c.value.tree),
        Appended(c.value.offsets, ExprIds(exprs), w), w + |exprs|))
    else None
  }

  /** The operator tree of a plan. */
  ghost function Compile(width: TableId -> nat, p: Plan): (r: Option<Compiled>) {
    match p
    case Scan(t, cols) => ScanTree(width, t, cols)
    case IndexScan(t, cols, index, keys) => IndexTree(width, t, cols, index, keys)
    case Rename(src, names) => RenameTree(Compile(width, src), names)
    case Project(src, cols) => ProjectTree(Compile(width, src), cols)
    case Select(src, preds) => SelectTree(Compile(width, src), preds)
    case CrossJoin(l, r, preds) => CrossTree(Compile(width, l), Compile(width, r), preds)
    case NestedLoopJoin(_, l, r, preds) => LoopTree(Compile(width, l), Compile(width, r), preds, Cols(l))
    case HashJoin(_, l, r, preds) => HashTree(Compile(width, l), Compile(width, r), preds, Cols(l))
    case HashAggregate(src, groupBy, aggrs) => AggregateTree(Compile(width, src), groupBy, aggrs)
    case Map(src, exprs) => MapTree(Compile(width, src), exprs)
    case _ => None
  }
}
