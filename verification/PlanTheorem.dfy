/** Plans compile correctly. */
module PlanTheorem {
  import opened Base
  import opened Exprs
  import opened Bytecode
  import opened JoinSpec
  import opened AggSpec
  import opened PlanModel
  import opened PlanCompile
  import opened PlanRows
  import opened PlanJoins
  import HashJoin
  import NestedLoopJoin
  import Aggregate

  // ------------------------------------------------------------------ aggregates

  lemma PicksRead(fp: Rounded, ids: seq<ColId>, m: map<ColId, nat>, row: Row)
    requires (forall id | id in ids :: id in m) && Inside(m, |row|)
    ensures Aggregate.EvalAll(RunsAll(fp, ColPrograms(ids, m)), row) == Picks(ids, Read(m, row))
  {
    hide Eval, Bytecode.Compiled;
    forall i | 0 <= i < |ids| ensures Runs(fp, ColPrograms(ids, m)[i])(row) == Got(EnvOf(Read(m, row))(ids[i])) {
      assert ids[i] in ids;
      ColumnAt(fp, ids[i], m, row);
    }
  }

  lemma ItemsRead(fp: Rounded, groupBy: seq<ColId>, aggrs: seq<Aggregation>, m: map<ColId, nat>, rows: seq<Row>, n: nat)
    requires (forall id | id in groupBy :: id in m) && (forall id | id in Sources(aggrs) :: id in m)
    requires Inside(m, n) && AllWide(rows, n)
    ensures Aggregate.ItemsOf(RunsAll(fp, ColPrograms(groupBy, m)), RunsAll(fp, ColPrograms(Sources(aggrs), m)), rows)
      == NamedItems(groupBy, aggrs, ReadRows(m, rows))
  {
    hide Picks, Read, RunsAll, ColPrograms;
    forall i | 0 <= i < |rows|
      ensures Aggregate.EvalAll(RunsAll(fp, ColPrograms(groupBy, m)), rows[i]) == Picks(groupBy, Read(m, rows[i]))
      ensures Aggregate.EvalAll(RunsAll(fp, ColPrograms(Sources(aggrs), m)), rows[i]) == Picks(Sources(aggrs), Read(m, rows[i]))
    {
      PicksRead(fp, groupBy, m, rows[i]);
      PicksRead(fp, Sources(aggrs), m, rows[i]);
    }
  }

  lemma {:induction false} GroupKeyWide(items: seq<Item>, k: Key, n: nat)
    requires Group(items, k) != [] && forall i | 0 <= i < |items| :: |items[i].key| == n
    ensures |k| == n
  {
    var j := |items| - 1;
    if items[j].key != k {
      GroupKeyWide(items[..j], k, n);
    }
  }

  lemma {:induction false} FinalsWide(ops: seq<AggOp>, avg: Average, count: nat, acc: seq<Field>, n: nat)
    requires n <= |ops| && n <= |acc|
    ensures |FinalsTo(ops, avg, count, acc, n)| == n
  {
    if n == 0 {
    } else {
      FinalsWide(ops, avg, count, acc, n - 1);
    }
  }

  lemma GroupsWide(w: World, ops: seq<AggOp>, items: seq<Item>, n: nat)
    requires Wide(|ops|, items) && forall i | 0 <= i < |items| :: |items[i].key| == n
    ensures AllWide(Groups(w, ops, items), n + |ops|)
  {
    hide Folds, FinalsTo, Group, KeysOf;
    if Finishes(ops, items) {
      KeysOfAre(items);
      var ks := KeysOf(items);
      forall i | 0 <= i < |ks| ensures |GroupRow(ops, w.avg, items, ks[i])| == n + |ops| {
        GroupKeyWide(items, ks[i], n);
        assert Computes(ops, items, ks[i]);
        GroupWide(|ops|, items, ks[i]);
        FinalsWide(ops, w.avg, |Group(items, ks[i])|, Folds(ops, Group(items, ks[i])).value, |ops|);
      }
    }
  }

  // ------------------------------------------------------------------ added columns

  lemma {:induction false} AppendedInside(m: map<ColId, nat>, ids: seq<ColId>, n: nat)
    requires Inside(m, n)
    ensures Inside(Appended(m, ids, n), n + |ids|)
    ensures Appended(m, ids, n).Keys == m.Keys + Ids(ids)
  {
    if ids == [] {
    } else {
      AppendedInside(m, ids[..|ids| - 1], n);
      assert ids == ids[..|ids| - 1] + [ids[|ids| - 1]];
    }
  }

  lemma ReadPrefix(m: map<ColId, nat>, a: Row, b: Row)
    requires Inside(m, |a|)
    ensures Read(m, a + b) == Read(m, a)
  {
  }

  lemma ReadOneMore(m: map<ColId, nat>, id: ColId, row: Row, f: Field)
    requires Inside(m, |row|)
    ensures Read(m[id := |row|], row + [f]) == Read(m, row)[id := f]
  {
    ReadPrefix(m, row, [f]);
  }

  lemma {:induction false} AppendedReads(m: map<ColId, nat>, ids: seq<ColId>, row: Row, vals: seq<Field>)
    requires |ids| == |vals| && Inside(m, |row|)
    ensures Read(Appended(m, ids, |row|), row + vals) == Extend(Read(m, row), ids, vals)
  {
    hide Read, Inside;
    if ids == [] {
      assert row + vals == row;
    } else {
      var n := |ids| - 1;
      AppendedReads(m, ids[..n], row, vals[..n]);
      AppendedInside(m, ids[..n], |row|);
      assert row + vals == (row + vals[..n]) + [vals[n]];
      ReadOneMore(Appended(m, ids[..n], |row|), ids[n], row + vals[..n], vals[n]);
    }
  }

  lemma MapComputes(fp: Rounded, exprs: seq<(ColId, Expr)>, m: map<ColId, nat>, row: Row)
    requires (forall x | x in exprs :: Supported(x.1) && Bound(x.1, m.Keys)) && Inside(m, |row|)
    ensures Computed(fp, ColPrograms(Identity(|row|), map[]) + ExprPrograms(exprs, m), row)
      == row + ExprVals(fp, exprs, Read(m, row))
  {
    hide Eval, Bytecode.Compiled, Value, Read;
    var out := Computed(fp, ColPrograms(Identity(|row|), map[]) + ExprPrograms(exprs, m), row);
    forall i | 0 <= i < |row| ensures out[i] == row[i] {
      PlaceAt(fp, i, row);
    }
    forall i | 0 <= i < |exprs| ensures out[|row| + i] == ExprVals(fp, exprs, Read(m, row))[i] {
      assert exprs[i] in exprs;
      ValueAgrees(fp, exprs[i].1, m, row);
    }
  }

  // ------------------------------------------------------------------ the theorem

  /** Every row of a table has as many fields as the table has columns, and index probes find what they should. */
  ghost predicate Fits(w: World, width: TableId -> nat) {
    ProbesFind(w) && forall t :: AllWide(w.db(t), width(t))
  }

  /** The operands of every join have a value wherever the join evaluates them, so that no join aborts. */
  ghost predicate JoinsDefined(w: World, p: Plan) {
    match p
    case Rename(src, _) => JoinsDefined(w, src)
    case Project(src, _) => JoinsDefined(w, src)
    case Select(src, _) => JoinsDefined(w, src)
    case CrossJoin(l, r, _) => JoinsDefined(w, l) && JoinsDefined(w, r)
    case NestedLoopJoin(_, l, r, preds) =>
      && JoinsDefined(w, l) && JoinsDefined(w, r)
      && (Meaning(w, l) == [] || Meaning(w, r) == [] || OperandsDefined(w, l, r, preds))
    case HashJoin(_, l, r, preds) =>
      JoinsDefined(w, l) && JoinsDefined(w, r) && OperandsDefined(w, l, r, preds)
    case HashAggregate(src, _, _) => JoinsDefined(w, src)
    case Map(src, _) => JoinsDefined(w, src)
    case _ => true
  }

  ghost predicate OperandsDefined(w: World, l: Plan, r: Plan, preds: seq<Expr>) {
    preds != [] && preds[0].Binary? &&
    var (le, re) := Sides(preds[0], Cols(l));
    Defined(w.fp, le, Meaning(w, l)) && Defined(w.fp, re, Meaning(w, r))
  }

  /** The tree `c` implements a plan with these columns and rows. */
  ghost predicate Implements(w: World, c: PlanCompile.Compiled, cols: set<ColId>, rows: seq<Named>) {
    && c.offsets.Keys == cols
    && Inside(c.offsets, c.width)
    && AllWide(Output(w, c.tree), c.width)
    && ReadRows(c.offsets, Output(w, c.tree)) == rows
  }

  ghost predicate Implemented(w: World, c: Option<PlanCompile.Compiled>, cols: set<ColId>, rows: seq<Named>) {
    c.Some? && Implements(w, c.value, cols, rows)
  }

  lemma ScanCorrect(w: World, width: TableId -> nat, t: TableId, cols: seq<ColId>)
    requires (forall id | id in cols :: ColumnIndex(id) < width(t)) && AllWide(w.db(t), width(t))
    ensures Implemented(w, ScanTree(width, t, cols), Ids(cols), ScanRows(cols, w.db(t)))
  {
    hide Read, Computed, ScanRow, ColPrograms;
    OffsetsAt(cols);
    var rows := w.db(t);
    forall i | 0 <= i < |rows|
      ensures var places := seq(|cols|, i requires 0 <= i < |cols| => ColumnIndex(cols[i]));
        Read(Offsets(cols), Computed(w.fp, ColPrograms(places, map[]), rows[i])) == ScanRow(cols, rows[i])
    {
      ScanReads(w.fp, cols, rows[i]);
    }
  }

  lemma {:induction false} FoundIn(rows: seq<Row>, columns: seq<nat>, key: Key, row: Row)
    requires row in RowsWithKey(rows, columns, key)
    ensures row in rows
  {
    if row !in (if ExtractKey(rows[0], columns) == key then [rows[0]] else []) {
      FoundIn(rows[1..], columns, key, row);
    }
  }

  lemma ProbedWide(w: World, width: TableId -> nat, t: TableId, index: nat, key: Key)
    requires Fits(w, width)
    ensures AllWide(w.probe(t, index, key), width(t))
  {
    var out, found := w.probe(t, index, key), RowsWithKey(w.db(t), w.keyColumns(index), key);
    assert AllWide(w.db(t), width(t));
    forall i | 0 <= i < |out| ensures |out[i]| == width(t) {
      assert out[i] in multiset(out) && out[i] in multiset(found);
      FoundIn(w.db(t), w.keyColumns(index), key, out[i]);
    }
  }

  lemma IndexCorrect(w: World, width: TableId -> nat, t: TableId, cols: seq<ColId>, index: nat, keys: seq<Expr>)
    requires Fits(w, width) && |cols| == width(t) && AllLiterals(keys) && forall id | id in cols :: ColumnIndex(id) < width(t)
    ensures Implemented(w, IndexTree(width, t, cols, index, keys), Ids(cols), LabelRows(cols, w.probe(t, index, KeyValues(keys))))
  {
    hide Fits, Offsets;
    OffsetsAt(cols);
    ProbedWide(w, width, t, index, KeyValues(keys));
  }

  lemma RenameCorrect(w: World, c: PlanCompile.Compiled, names: map<ColId, ColId>, rows: seq<Named>)
    requires Implements(w, c, names.Keys, rows)
    ensures Implements(w, c.(offsets := Renamed(names, c.offsets)), names.Values, RenamedRows(names, rows))
  {
    hide Read, Renamed;
    RenameKeys(names, c.offsets);
    RenameInside(names, c.offsets, c.width);
    var out := Output(w, c.tree);
    forall i | 0 <= i < |out| ensures Read(Renamed(names, c.offsets), out[i]) == Renamed(names, rows[i]) {
      RenameReads(names, c.offsets, out[i]);
      assert rows[i] == Read(c.offsets, out[i]);
    }
  }

  lemma RenameInside(names: map<ColId, ColId>, m: map<ColId, nat>, n: nat)
    requires Inside(m, n)
    ensures Inside(Renamed(names, m), n)
  {
  }

  lemma ProjectRowsRead(fp: Rounded, cols: seq<ColId>, m: map<ColId, nat>, rows: seq<Row>, n: nat)
    requires (forall id | id in cols :: id in m) && Inside(m, n) && AllWide(rows, n)
    ensures ReadRows(Offsets(cols), ComputedRows(fp, ColPrograms(cols, m), rows)) == ProjectedRows(cols, ReadRows(m, rows))
  {
    hide Read, Computed, Projected, ColPrograms, Offsets;
    forall i | 0 <= i < |rows|
      ensures Read(Offsets(cols), Computed(fp, ColPrograms(cols, m), rows[i])) == Projected(cols, Read(m, rows[i]))
    {
      ProjectReads(fp, cols, m, rows[i]);
    }
  }

  lemma ProjectCorrect(w: World, c: PlanCompile.Compiled, cols: seq<ColId>, ids: set<ColId>, rows: seq<Named>)
    requires Implements(w, c, ids, rows) && forall id | id in cols :: id in ids
    ensures Implements(w, PlanCompile.Compiled(ProjectOp(ColPrograms(cols, c.offsets), c.tree), Offsets(cols), |cols|),
      Ids(cols), ProjectedRows(cols, rows))
  {
    hide ReadRows, ProjectedRows, Offsets;
    OffsetsAt(cols);
    ProjectRowsRead(w.fp, cols, c.offsets, Output(w, c.tree), c.width);
  }

  lemma SelectCorrect(w: World, c: PlanCompile.Compiled, preds: seq<Expr>, ids: set<ColId>, rows: seq<Named>)
    requires Implements(w, c, ids, rows) && forall e | e in preds :: Supported(e) && Bound(e, ids)
    ensures Implements(w, c.(tree := Filters(c.tree, preds, c.offsets)), ids, Filtered(w.fp, preds, rows))
  {
    hide ReadRows, Filtered, AllWide;
    FiltersRead(w, c.tree, preds, c.offsets, c.width);
  }

  lemma JoinedInside(ml: map<ColId, nat>, mr: map<ColId, nat>, n: nat, k: nat)
    requires Inside(ml, n) && Inside(mr, k)
    ensures Inside(Joined(ml, mr, n), n + k) && Joined(ml, mr, n).Keys == ml.Keys + mr.Keys
  {
  }

  lemma CrossCorrect(w: World, a: PlanCompile.Compiled, b: PlanCompile.Compiled, preds: seq<Expr>,
      left: set<ColId>, right: set<ColId>, ls: seq<Named>, rs: seq<Named>)
    requires Implements(w, a, left, ls) && Implements(w, b, right, rs)
    requires forall e | e in preds :: Supported(e) && Bound(e, left + right)
    ensures var m := Joined(a.offsets, b.offsets, a.width);
      Implements(w, PlanCompile.Compiled(Filters(CrossOp(a.tree, b.tree), preds, m), m, a.width + b.width),
        left + right, Filtered(w.fp, preds, Pairs(ls, rs)))
  {
    hide ReadRows, Filtered, AllWide, Product, Joined, Inside;
    var m := Joined(a.offsets, b.offsets, a.width);
    JoinedInside(a.offsets, b.offsets, a.width, b.width);
    ProductReads(a.offsets, b.offsets, Output(w, a.tree), Output(w, b.tree), a.width);
    ProductWide(Output(w, a.tree), Output(w, b.tree), a.width, b.width);
    var t := CrossOp(a.tree, b.tree);
    assert Implements(w, PlanCompile.Compiled(t, m, a.width + b.width), left + right, Pairs(ls, rs));
    SelectCorrect(w, PlanCompile.Compiled(t, m, a.width + b.width), preds, left + right, Pairs(ls, rs));
  }

  // ------------------------------------------------------------------ joins

  lemma {:induction false} LeftRowWide(m: Matcher, l: Keyed, rs: seq<Keyed>, n: nat, k: nat)
    requires |l.row| == n && forall i | 0 <= i < |rs| :: |rs[i].row| == k
    ensures AllWide(LeftRow(m, l, rs), n + k)
  {
    if rs == [] {
    } else {
      LeftRowWide(m, l, rs[1..], n, k);
    }
  }

  lemma {:induction false} NestedWide(m: Matcher, ls: seq<Keyed>, rs: seq<Keyed>, n: nat, k: nat)
    requires (forall i | 0 <= i < |ls| :: |ls[i].row| == n) && forall i | 0 <= i < |rs| :: |rs[i].row| == k
    ensures AllWide(Nested(m, ls, rs), n + k)
  {
    if ls == [] {
    } else {
      NestedWide(m, ls[1..], rs, n, k);
      LeftRowWide(m, ls[0], rs, n, k);
    }
  }

  lemma {:induction false} RightRowWide(m: Matcher, ls: seq<Keyed>, r: Keyed, n: nat, k: nat)
    requires |r.row| == k && forall i | 0 <= i < |ls| :: |ls[i].row| == n
    ensures AllWide(RightRow(m, ls, r), n + k)
  {
    if ls == [] {
    } else {
      RightRowWide(m, ls[1..], r, n, k);
    }
  }

  lemma {:induction false} ByRightWide(m: Matcher, ls: seq<Keyed>, rs: seq<Keyed>, n: nat, k: nat)
    requires (forall i | 0 <= i < |ls| :: |ls[i].row| == n) && forall i | 0 <= i < |rs| :: |rs[i].row| == k
    ensures AllWide(ByRight(m, ls, rs), n + k)
  {
    if rs == [] {
    } else {
      ByRightWide(m, ls, rs[1..], n, k);
      RightRowWide(m, ls, rs[0], n, k);
    }
  }

  /** What the translation of a join may assume. */
  ghost predicate JoinReady(w: World, a: PlanCompile.Compiled, b: PlanCompile.Compiled, e: Expr,
      left: set<ColId>, right: set<ColId>, ls: seq<Named>, rs: seq<Named>) {
    && Implements(w, a, left, ls) && Implements(w, b, right, rs)
    && JoinPred(e, left, right) && Compares(e.op)
    && Defined(w.fp, Sides(e, left).0, ls) && Defined(w.fp, Sides(e, left).1, rs)
  }

  lemma ReadyJoinable(w: World, a: PlanCompile.Compiled, b: PlanCompile.Compiled, e: Expr,
      left: set<ColId>, right: set<ColId>, ls: seq<Named>, rs: seq<Named>)
    requires JoinReady(w, a, b, e, left, right, ls, rs)
    ensures e.Binary? && Supported(e) && Supported(Turned(e, left).left) && Supported(Turned(e, left).right)
    ensures Joinable(w.fp, Turned(e, left), a.offsets, b.offsets, Output(w, a.tree), Output(w, b.tree), a.width, b.width)
  {
    hide ReadRows, AllWide, Defined;
    TurnedSided(e, left, right);
  }

  /** The translation of a nested-loop join, which yields the pairs on which the turned comparison holds. */
  lemma LoopTurned(w: World, a: PlanCompile.Compiled, b: PlanCompile.Compiled, e: Expr,
      left: set<ColId>, right: set<ColId>, ls: seq<Named>, rs: seq<Named>)
    requires JoinReady(w, a, b, e, left, right, ls, rs) && Supported(e)
    ensures var (le, re) := Sides(e, left); var m := Joined(a.offsets, b.offsets, a.width);
      Implements(w,
        PlanCompile.Compiled(
          NestedLoopOp(e.op, Bytecode.Compiled(le, a.offsets), Bytecode.Compiled(re, b.offsets), a.tree, b.tree),
          m, a.width + b.width),
        left + right, Filtered(w.fp, [AsExpr(Turned(e, left))], Pairs(ls, rs)))
  {
    hide ReadRows, Filtered, Nested, Joined, Joinable, Bytecode.Compiled, Runs, Aligned, AsExpr;
    ReadyJoinable(w, a, b, e, left, right, ls, rs);
    var x, y, c := Output(w, a.tree), Output(w, b.tree), Turned(e, left);
    JoinedInside(a.offsets, b.offsets, a.width, b.width);
    LoopReads(w.fp, c, a.offsets, b.offsets, x, y, a.width, b.width);
    NestedWide(NestedLoopJoin.Comparing(e.op), HashJoin.KeyBy(KeyFrom(w.fp, c.left, a.offsets), x),
      HashJoin.KeyBy(KeyFrom(w.fp, c.right, b.offsets), y), a.width, b.width);
  }

  lemma HashTurned(w: World, a: PlanCompile.Compiled, b: PlanCompile.Compiled, e: Expr,
      left: set<ColId>, right: set<ColId>, ls: seq<Named>, rs: seq<Named>)
    requires JoinReady(w, a, b, e, left, right, ls, rs) && Supported(e) && e.op == Eq
    ensures var (le, re) := Sides(e, left); var m := Joined(a.offsets, b.offsets, a.width);
      Implements(w,
        PlanCompile.Compiled(
          HashOp(Bytecode.Compiled(le, a.offsets), Bytecode.Compiled(re, b.offsets), a.tree, b.tree),
          m, a.width + b.width),
        left + right, Filtered(w.fp, [AsExpr(Turned(e, left))], PairsByRight(ls, rs)))
  {
    hide ReadRows, Filtered, ByRight, Joined, Joinable, Bytecode.Compiled, Runs, Aligned, AsExpr;
    ReadyJoinable(w, a, b, e, left, right, ls, rs);
    var x, y, c := Output(w, a.tree), Output(w, b.tree), Turned(e, left);
    JoinedInside(a.offsets, b.offsets, a.width, b.width);
    HashReads(w.fp, c, a.offsets, b.offsets, x, y, a.width, b.width);
    ByRightWide(SameKey, HashJoin.KeyBy(KeyFrom(w.fp, c.left, a.offsets), x),
      HashJoin.KeyBy(KeyFrom(w.fp, c.right, b.offsets), y), a.width, b.width);
  }

  // ------------------------------------------------------------------ aggregates and added columns

  lemma AggregateCorrect(w: World, c: PlanCompile.Compiled, groupBy: seq<ColId>, aggrs: seq<Aggregation>,
      ids: set<ColId>, rows: seq<Named>)
    requires Implements(w, c, ids, rows)
    requires (forall id | id in groupBy :: id in ids) && (forall id | id in Sources(aggrs) :: id in ids)
    ensures var names := groupBy + Dests(aggrs);
      Implements(w,
        PlanCompile.Compiled(
          AggregateOp(ColPrograms(groupBy, c.offsets), ColPrograms(Sources(aggrs), c.offsets), AggOps(aggrs), c.tree),
          Offsets(names), |groupBy| + |aggrs|),
        Ids(names), LabelRows(names, Groups(w, AggOps(aggrs), NamedItems(groupBy, aggrs, rows))))
  {
    hide Groups, NamedItems, Aggregate.ItemsOf, ColPrograms, RunsAll, Offsets;
    var names := groupBy + Dests(aggrs);
    OffsetsAt(names);
    ItemsRead(w.fp, groupBy, aggrs, c.offsets, Output(w, c.tree), c.width);
    var items := NamedItems(groupBy, aggrs, rows);
    NamedKeysWide(groupBy, aggrs, rows);
    GroupsWide(w, AggOps(aggrs), items, |groupBy|);
  }

  lemma NamedKeysWide(groupBy: seq<ColId>, aggrs: seq<Aggregation>, rows: seq<Named>)
    ensures var items := NamedItems(groupBy, aggrs, rows); forall i | 0 <= i < |items| :: |items[i].key| == |groupBy|
  {
  }

  lemma MapRowsRead(fp: Rounded, exprs: seq<(ColId, Expr)>, m: map<ColId, nat>, rows: seq<Row>, n: nat)
    requires forall x | x in exprs :: Supported(x.1) && Bound(x.1, m.Keys)
    requires Inside(m, n) && AllWide(rows, n)
    ensures ReadRows(Appended(m, ExprIds(exprs), n),
        ComputedRows(fp, ColPrograms(Identity(n), map[]) + ExprPrograms(exprs, m), rows))
      == ExtendedRows(fp, exprs, ReadRows(m, rows))
  {
    hide Read, Computed, ColPrograms, ExprPrograms, Appended, Extend, ExprVals;
    forall i | 0 <= i < |rows|
      ensures Read(Appended(m, ExprIds(exprs), n), Computed(fp, ColPrograms(Identity(n), map[]) + ExprPrograms(exprs, m), rows[i]))
        == Extended(fp, exprs, Read(m, rows[i]))
    {
      MapComputes(fp, exprs, m, rows[i]);
      AppendedReads(m, ExprIds(exprs), rows[i], ExprVals(fp, exprs, Read(m, rows[i])));
    }
  }

  lemma MapCorrect(w: World, c: PlanCompile.Compiled, exprs: seq<(ColId, Expr)>, ids: set<ColId>, rows: seq<Named>)
    requires Implements(w, c, ids, rows) && forall x | x in exprs :: Supported(x.1) && Bound(x.1, ids)
    ensures Implements(w,
      PlanCompile.Compiled(
        ProjectOp(ColPrograms(Identity(c.width), map[]) + ExprPrograms(exprs, c.offsets), c.tree),
        Appended(c.offsets, ExprIds(exprs), c.width), c.width + |exprs|),
      ids + Ids(ExprIds(exprs)), ExtendedRows(w.fp, exprs, rows))
  {
    hide ReadRows, ExtendedRows, Appended, Bound;
    AppendedInside(c.offsets, ExprIds(exprs), c.width);
    MapRowsRead(w.fp, exprs, c.offsets, Output(w, c.tree), c.width);
  }

  // ------------------------------------------------------------------ all plans

  ghost predicate Translated(w: World, width: TableId -> nat, p: Plan) {
    Implemented(w, Compile(width, p), Cols(p), Meaning(w, p))
  }

  lemma RenameStep(w: World, c: Option<PlanCompile.Compiled>, names: map<ColId, ColId>, rows: seq<Named>)
    requires Implemented(w, c, names.Keys, rows)
    ensures Implemented(w, RenameTree(c, names), names.Values, RenamedRows(names, rows))
  {
    hide ReadRows, AllWide, Inside, RenamedRows, Output, Renamed;
    RenameCorrect(w, c.value, names, rows);
  }

  lemma ProjectStep(w: World, c: Option<PlanCompile.Compiled>, cols: seq<ColId>, ids: set<ColId>, rows: seq<Named>)
    requires Implemented(w, c, ids, rows) && forall id | id in cols :: id in ids
    ensures Implemented(w, ProjectTree(c, cols), Ids(cols), ProjectedRows(cols, rows))
  {
    hide ReadRows, AllWide, Inside, ProjectedRows, Output, Offsets, ColPrograms;
    ProjectCorrect(w, c.value, cols, ids, rows);
  }

  lemma BoundSupported(preds: seq<Expr>, ids: set<ColId>)
    requires forall e | e in preds :: Bound(e, ids)
    ensures forall e | e in preds :: Supported(e)
  {
    forall e | e in preds ensures Supported(e) {
      assert Bound(e, ids);
    }
  }

  lemma SelectStep(w: World, c: Option<PlanCompile.Compiled>, preds: seq<Expr>, ids: set<ColId>, rows: seq<Named>)
    requires Implemented(w, c, ids, rows) && forall e | e in preds :: Bound(e, ids)
    ensures Implemented(w, SelectTree(c, preds), ids, Filtered(w.fp, preds, rows))
  {
    hide Implements, Filtered, Free, Supported, Filters;
    BoundSupported(preds, ids);
    SelectCorrect(w, c.value, preds, ids, rows);
  }

  lemma CrossStep(w: World, a: Option<PlanCompile.Compiled>, b: Option<PlanCompile.Compiled>, preds: seq<Expr>,
      left: set<ColId>, right: set<ColId>, ls: seq<Named>, rs: seq<Named>)
    requires Implemented(w, a, left, ls) && Implemented(w, b, right, rs) && forall e | e in preds :: Bound(e, left + right)
    ensures Implemented(w, CrossTree(a, b, preds), left + right, Filtered(w.fp, preds, Pairs(ls, rs)))
  {
    hide Implements, Filtered, Free, Supported, Filters, Joined;
    BoundSupported(preds, left + right);
    CrossCorrect(w, a.value, b.value, preds, left, right, ls, rs);
  }

  lemma LoopStep(w: World, a: Option<PlanCompile.Compiled>, b: Option<PlanCompile.Compiled>, e: Expr,
      left: set<ColId>, right: set<ColId>, ls: seq<Named>, rs: seq<Named>)
    requires a.Some? && b.Some? && JoinReady(w, a.value, b.value, e, left, right, ls, rs)
    ensures e.Binary? && Implemented(w, LoopTree(a, b, [e], left), left + right,
        Filtered(w.fp, [AsExpr(Turned(e, left))], Pairs(ls, rs)))
  {
    hide Implements, Filtered, JoinReady, Joined, Joinable, Supported, Free, Bytecode.Compiled, AsExpr;
    assert [e][0] == e;
    ReadyJoinable(w, a.value, b.value, e, left, right, ls, rs);
    LoopTurned(w, a.value, b.value, e, left, right, ls, rs);
  }

  lemma {:induction false} NoPairs(ls: seq<Named>, rs: seq<Named>)
    requires ls == [] || rs == []
    ensures Pairs(ls, rs) == []
  {
    if ls == [] {
    } else {
      NoPairs(ls[1..], rs);
    }
  }

  lemma {:induction false} NoneNested(m: Matcher, ls: seq<Keyed>, rs: seq<Keyed>)
    requires ls == [] || rs == []
    ensures Nested(m, ls, rs) == []
  {
    if ls == [] {
    } else {
      NoneNested(m, ls[1..], rs);
    }
  }

  lemma LoopShape(a: PlanCompile.Compiled, b: PlanCompile.Compiled, e: Expr, left: set<ColId>)
    requires e.Binary? && Supported(e)
    ensures var c := LoopTree(Some(a), Some(b), [e], left); var (le, re) := Sides(e, left);
      && c.Some? && c.value.offsets == Joined(a.offsets, b.offsets, a.width) && c.value.width == a.width + b.width
      && c.value.tree == NestedLoopOp(e.op, Bytecode.Compiled(le, a.offsets), Bytecode.Compiled(re, b.offsets), a.tree, b.tree)
  {
    assert [e][0] == e;
  }

  /** A nested-loop join with an empty input, whatever its operands are. */
  lemma EmptyLoop(w: World, a: PlanCompile.Compiled, b: PlanCompile.Compiled, e: Expr,
      left: set<ColId>, right: set<ColId>, ls: seq<Named>, rs: seq<Named>)
    requires Implements(w, a, left, ls) && Implements(w, b, right, rs) && e.Binary? && Supported(e) && (ls == [] || rs == [])
    ensures Implemented(w, LoopTree(Some(a), Some(b), [e], left), left + right, [])
  {
    hide Joined, LoopTree, Nested, Bytecode.Compiled, Runs, Free;
    LoopShape(a, b, e, left);
    var (le, re) := Sides(e, left);
    JoinedInside(a.offsets, b.offsets, a.width, b.width);
    NoneNested(NestedLoopJoin.Comparing(e.op), HashJoin.KeyBy(Runs(w.fp, Bytecode.Compiled(le, a.offsets)), Output(w, a.tree)),
      HashJoin.KeyBy(Runs(w.fp, Bytecode.Compiled(re, b.offsets)), Output(w, b.tree)));
  }

  lemma EmptyStep(w: World, a: Option<PlanCompile.Compiled>, b: Option<PlanCompile.Compiled>, preds: seq<Expr>,
      left: set<ColId>, right: set<ColId>, ls: seq<Named>, rs: seq<Named>)
    requires Implemented(w, a, left, ls) && Implemented(w, b, right, rs) && (ls == [] || rs == [])
    requires |preds| == 1 && JoinPred(preds[0], left, right)
    ensures Implemented(w, LoopTree(a, b, preds, left), left + right, Filtered(w.fp, preds, Pairs(ls, rs)))
  {
    hide Implements, LoopTree;
    assert preds == [preds[0]];
    NoPairs(ls, rs);
    EmptyLoop(w, a.value, b.value, preds[0], left, right, ls, rs);
  }

  lemma HashStep(w: World, a: Option<PlanCompile.Compiled>, b: Option<PlanCompile.Compiled>, e: Expr,
      left: set<ColId>, right: set<ColId>, ls: seq<Named>, rs: seq<Named>)
    requires a.Some? && b.Some? && JoinReady(w, a.value, b.value, e, left, right, ls, rs) && e.Binary? && e.op == Eq
    ensures Implemented(w, HashTree(a, b, [e], left), left + right, Filtered(w.fp, [AsExpr(Turned(e, left))], PairsByRight(ls, rs)))
  {
    hide Implements, Filtered, JoinReady, Joined, Joinable, Supported, Free, Bytecode.Compiled, AsExpr;
    assert [e][0] == e;
    ReadyJoinable(w, a.value, b.value, e, left, right, ls, rs);
    HashTurned(w, a.value, b.value, e, left, right, ls, rs);
  }

  lemma AggregateStep(w: World, c: Option<PlanCompile.Compiled>, groupBy: seq<ColId>, aggrs: seq<Aggregation>,
      ids: set<ColId>, rows: seq<Named>)
    requires Implemented(w, c, ids, rows)
    requires (forall id | id in groupBy :: id in ids) && (forall id | id in Sources(aggrs) :: id in ids)
    ensures Implemented(w, AggregateTree(c, groupBy, aggrs), Ids(groupBy + Dests(aggrs)),
      LabelRows(groupBy + Dests(aggrs), Groups(w, AggOps(aggrs), NamedItems(groupBy, aggrs, rows))))
  {
    hide ReadRows, AllWide, Inside, LabelRows, Output, Groups, NamedItems, Offsets, ColPrograms;
    AggregateCorrect(w, c.value, groupBy, aggrs, ids, rows);
  }

  lemma ExprsSupported(exprs: seq<(ColId, Expr)>, ids: set<ColId>)
    requires forall x | x in exprs :: Bound(x.1, ids)
    ensures forall x | x in exprs :: Supported(x.1)
  {
    forall x | x in exprs ensures Supported(x.1) {
      assert Bound(x.1, ids);
    }
  }

  lemma MapStep(w: World, c: Option<PlanCompile.Compiled>, exprs: seq<(ColId, Expr)>, ids: set<ColId>, rows: seq<Named>)
    requires Implemented(w, c, ids, rows) && forall x | x in exprs :: Bound(x.1, ids)
    ensures Implemented(w, MapTree(c, exprs), ids + Ids(ExprIds(exprs)), ExtendedRows(w.fp, exprs, rows))
  {
    hide Implements, ExtendedRows, Free, Supported, ColPrograms, ExprPrograms, Appended;
    ExprsSupported(exprs, ids);
    MapCorrect(w, c.value, exprs, ids, rows);
  }

  lemma Ready(w: World, a: Option<PlanCompile.Compiled>, b: Option<PlanCompile.Compiled>, l: Plan, r: Plan,
      preds: seq<Expr>)
    requires Implemented(w, a, Cols(l), Meaning(w, l)) && Implemented(w, b, Cols(r), Meaning(w, r))
    requires |preds| == 1 && JoinPred(preds[0], Cols(l), Cols(r)) && Compares(preds[0].op)
    requires OperandsDefined(w, l, r, preds)
    ensures preds == [preds[0]] && preds[0].Binary? && a.Some? && b.Some?
    ensures JoinReady(w, a.value, b.value, preds[0], Cols(l), Cols(r), Meaning(w, l), Meaning(w, r))
  {
    hide Implements, Bound, Meaning, Cols, Defined, Free;
  }

  /** For a well-formed plan the translation succeeds, and its tree yields exactly the rows the plan means. */
  lemma {:induction false} TranslationCorrect(w: World, width: TableId -> nat, p: Plan)
    requires WellFormed(width, p) && Fits(w, width) && JoinsDefined(w, p)
    ensures Translated(w, width, p)
    decreases p, 1
  {
    hide Translated, Fits, WellFormed, JoinsDefined;
    if p.Scan? || p.IndexScan? {
      LeafCase(w, width, p);
    } else if p.CrossJoin? || p.NestedLoopJoin? || p.HashJoin? {
      JoinCase(w, width, p);
    } else {
      UnaryPlan(width, p);
      UnaryCase(w, width, p);
    }
  }

  lemma UnaryPlan(width: TableId -> nat, p: Plan)
    requires WellFormed(width, p) && !p.Scan? && !p.IndexScan? && !p.CrossJoin? && !p.NestedLoopJoin? && !p.HashJoin?
    ensures p.Rename? || p.Project? || p.Select? || p.HashAggregate? || p.Map?
  {
  }

  lemma LeafCase(w: World, width: TableId -> nat, p: Plan)
    requires p.Scan? || p.IndexScan?
    requires WellFormed(width, p) && Fits(w, width) && JoinsDefined(w, p)
    ensures Translated(w, width, p)
  {
    hide Implemented, ScanTree, IndexTree, AllWide;
    if p.Scan? {
      ScanCorrect(w, width, p.table, p.cols);
    } else {
      IndexCorrect(w, width, p.table, p.cols, p.index, p.keys);
    }
  }

  lemma {:induction false} JoinCase(w: World, width: TableId -> nat, p: Plan)
    requires p.CrossJoin? || p.NestedLoopJoin? || p.HashJoin?
    requires WellFormed(width, p) && Fits(w, width) && JoinsDefined(w, p)
    ensures Translated(w, width, p)
    decreases p, 0
  {
    hide Implemented, ScanTree, RenameTree, ProjectTree, SelectTree, CrossTree, LoopTree, HashTree, AggregateTree, MapTree,
      Bound, OperandsDefined, JoinPred, Filtered, Fits, AllWide;
    var l, r, preds := p.left, p.right, p.preds;
    TranslationCorrect(w, width, l);
    TranslationCorrect(w, width, r);
    var a, b := Compile(width, l), Compile(width, r);
    if p.CrossJoin? {
      CrossStep(w, a, b, preds, Cols(l), Cols(r), Meaning(w, l), Meaning(w, r));
    } else if p.NestedLoopJoin? && (Meaning(w, l) == [] || Meaning(w, r) == []) {
      EmptyStep(w, a, b, preds, Cols(l), Cols(r), Meaning(w, l), Meaning(w, r));
    } else {
      Ready(w, a, b, l, r, preds);
      if p.NestedLoopJoin? {
        LoopStep(w, a, b, preds[0], Cols(l), Cols(r), Meaning(w, l), Meaning(w, r));
        TurnedFilter(w.fp, preds[0], Cols(l), Pairs(Meaning(w, l), Meaning(w, r)));
      } else {
        HashStep(w, a, b, preds[0], Cols(l), Cols(r), Meaning(w, l), Meaning(w, r));
        TurnedFilter(w.fp, preds[0], Cols(l), PairsByRight(Meaning(w, l), Meaning(w, r)));
      }
    }
  }

  lemma {:induction false} UnaryCase(w: World, width: TableId -> nat, p: Plan)
    requires p.Rename? || p.Project? || p.Select? || p.HashAggregate? || p.Map?
    requires WellFormed(width, p) && Fits(w, width) && JoinsDefined(w, p)
    ensures Translated(w, width, p)
    decreases p, 0
  {
    hide Implemented, ScanTree, RenameTree, ProjectTree, SelectTree, CrossTree, LoopTree, HashTree, AggregateTree, MapTree,
      Bound, OperandsDefined, JoinPred, Filtered, Fits, AllWide;
    var src := p.src;
    TranslationCorrect(w, width, src);
    var c, ids, rows := Compile(width, src), Cols(src), Meaning(w, src);
    match p
    case Rename(_, names) => RenameStep(w, c, names, rows);
    case Project(_, cols) => ProjectStep(w, c, cols, ids, rows);
    case Select(_, preds) => SelectStep(w, c, preds, ids, rows);
    case HashAggregate(_, groupBy, aggrs) => AggregateStep(w, c, groupBy, aggrs, ids, rows);
    case Map(_, exprs) => MapStep(w, c, exprs, ids, rows);
  }
}
