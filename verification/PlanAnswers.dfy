/** Runs that do not abort. */
module PlanAnswers {
  import opened Base
  import opened Exprs
  import opened Bytecode
  import opened AggSpec
  import opened PlanModel
  import opened PlanCompile
  import opened PlanRows
  import opened PlanJoins
  import opened PlanTheorem
  import Aggregate

  // ------------------------------------------------------------------ operators

  /** The program has a value on every row. */
  ghost predicate Evals(fp: Rounded, p: Program, rows: seq<Row>) {
    forall i | 0 <= i < |rows| :: Eval(fp, p, rows[i]).Some?
  }

  ghost predicate EvalsAll(fp: Rounded, ps: seq<Program>, rows: seq<Row>) {
    forall j | 0 <= j < |ps| :: Evals(fp, ps[j], rows)
  }

  /** The program says yes or no on every row. */
  ghost predicate Tests(fp: Rounded, p: Program, rows: seq<Row>) {
    forall i | 0 <= i < |rows| :: Eval(fp, p, rows[i]).Some? && Eval(fp, p, rows[i]).value.Bool?
  }

  /** The loop evaluates both operands on every pair of rows, and compares the values. */
  ghost predicate ComparesAll(fp: Rounded, op: Op, le: Program, re: Program, ls: seq<Row>, rs: seq<Row>) {
    forall i, j | 0 <= i < |ls| && 0 <= j < |rs| ::
      ComparesOne(op, Eval(fp, le, ls[i]), Eval(fp, re, rs[j]))
  }

  predicate ComparesOne(op: Op, x: Option<Field>, y: Option<Field>) {
    x.Some? && y.Some? && CompareFields(op, x.value, y.value).Some?
  }

  /** No operator of the tree aborts on any of the rows it gets; an input counts as read to its end. */
  ghost predicate Answers(w: World, t: Tree) {
    match t
    case SeqScan(table, fields) => EvalsAll(w.fp, fields, w.db(table))
    case IndexLookup(_, _, _) => true
    case ProjectOp(fields, c) => Answers(w, c) && EvalsAll(w.fp, fields, Output(w, c))
    case FilterOp(p, c) => Answers(w, c) && Tests(w.fp, p, Output(w, c))
    case CrossOp(l, r) => Answers(w, l) && Answers(w, r)
    case NestedLoopOp(op, le, re, l, r) =>
      Answers(w, l) && Answers(w, r) && ComparesAll(w.fp, op, le, re, Output(w, l), Output(w, r))
    case HashOp(le, re, l, r) =>
      Answers(w, l) && Answers(w, r) && Evals(w.fp, le, Output(w, l)) && Evals(w.fp, re, Output(w, r))
    case AggregateOp(groups, aggs, ops, c) =>
      && Answers(w, c) && EvalsAll(w.fp, groups, Output(w, c)) && EvalsAll(w.fp, aggs, Output(w, c))
      && |ops| == |aggs|
      && Finishes(ops, Aggregate.ItemsOf(RunsAll(w.fp, groups), RunsAll(w.fp, aggs), Output(w, c)))
  }

  // ------------------------------------------------------------------ plans

  /** The expression is true or false on every row. */
  ghost predicate Decided(fp: Rounded, e: Expr, rows: seq<Named>) {
    forall i | 0 <= i < |rows| :: Value(fp, e, EnvOf(rows[i])).Some? && Value(fp, e, EnvOf(rows[i])).value.Bool?
  }

  /** Every predicate is decided on the rows that the ones before it let pass. */
  ghost predicate AllDecided(fp: Rounded, preds: seq<Expr>, rows: seq<Named>) {
    preds == [] || (
      var n := |preds| - 1;
      AllDecided(fp, preds[..n], rows) && Decided(fp, preds[n], Filtered(fp, preds[..n], rows)))
  }

  ghost predicate PairsCompare(fp: Rounded, op: Op, le: Expr, re: Expr, ls: seq<Named>, rs: seq<Named>) {
    forall i, j | 0 <= i < |ls| && 0 <= j < |rs| ::
      ComparesOne(op, Value(fp, le, EnvOf(ls[i])), Value(fp, re, EnvOf(rs[j])))
  }

  ghost predicate AllExprs(fp: Rounded, exprs: seq<(ColId, Expr)>, rows: seq<Named>) {
    forall j | 0 <= j < |exprs| :: Defined(fp, exprs[j].1, rows)
  }

  /** What a plan asks of the values of its expressions, over rows with named fields. */
  ghost predicate PlanRuns(w: World, p: Plan) {
    match p
    case Rename(src, _) => PlanRuns(w, src)
    case Project(src, _) => PlanRuns(w, src)
    case Select(src, preds) => PlanRuns(w, src) && AllDecided(w.fp, preds, Meaning(w, src))
    case CrossJoin(l, r, preds) =>
      PlanRuns(w, l) && PlanRuns(w, r) && AllDecided(w.fp, preds, Pairs(Meaning(w, l), Meaning(w, r)))
    case NestedLoopJoin(_, l, r, preds) =>
      && PlanRuns(w, l) && PlanRuns(w, r) && preds != [] && preds[0].Binary?
      && var (le, re) := Sides(preds[0], Cols(l));
         PairsCompare(w.fp, preds[0].op, le, re, Meaning(w, l), Meaning(w, r))
    case HashJoin(_, l, r, preds) =>
      PlanRuns(w, l) && PlanRuns(w, r) && OperandsDefined(w, l, r, preds)
    case HashAggregate(src, groupBy, aggrs) =>
      PlanRuns(w, src) && Finishes(AggOps(aggrs), NamedItems(groupBy, aggrs, Meaning(w, src)))
    case Map(src, exprs) => PlanRuns(w, src) && AllExprs(w.fp, exprs, Meaning(w, src))
    case _ => true
  }

  // ------------------------------------------------------------------ one expression

  /** Row by row, the compiled expression and the expression have the same values. */
  ghost predicate SameValues(fp: Rounded, p: Program, out: seq<Row>, e: Expr, rows: seq<Named>) {
    |out| == |rows| && forall i | 0 <= i < |out| :: Eval(fp, p, out[i]) == Value(fp, e, EnvOf(rows[i]))
  }

  lemma ValuesAgree(w: World, c: PlanCompile.Compiled, cols: set<ColId>, rows: seq<Named>, e: Expr)
    requires Implements(w, c, cols, rows) && Bound(e, cols)
    ensures SameValues(w.fp, Bytecode.Compiled(e, c.offsets), Output(w, c.tree), e, rows)
  {
    hide Eval, Bytecode.Compiled, Value, Free, Output, Read;
    var out := Output(w, c.tree);
    forall i | 0 <= i < |out|
      ensures Eval(w.fp, Bytecode.Compiled(e, c.offsets), out[i]) == Value(w.fp, e, EnvOf(rows[i]))
    {
      ValueAgrees(w.fp, e, c.offsets, out[i]);
    }
  }

  lemma EvalsIff(w: World, c: PlanCompile.Compiled, cols: set<ColId>, rows: seq<Named>, e: Expr)
    requires Implements(w, c, cols, rows) && Bound(e, cols)
    ensures Evals(w.fp, Bytecode.Compiled(e, c.offsets), Output(w, c.tree)) <==> Defined(w.fp, e, rows)
    ensures Tests(w.fp, Bytecode.Compiled(e, c.offsets), Output(w, c.tree)) <==> Decided(w.fp, e, rows)
  {
    hide Eval, Bytecode.Compiled, Value, Free, Output, Implements;
    ValuesAgree(w, c, cols, rows, e);
  }

  lemma ComparesSame(fp: Rounded, op: Op, p: Program, q: Program, x: seq<Row>, y: seq<Row>, le: Expr, re: Expr,
      ls: seq<Named>, rs: seq<Named>)
    requires SameValues(fp, p, x, le, ls) && SameValues(fp, q, y, re, rs)
    ensures ComparesAll(fp, op, p, q, x, y) <==> PairsCompare(fp, op, le, re, ls, rs)
  {
    hide Eval, Value, ComparesOne;
  }

  lemma ComparesIff(w: World, a: PlanCompile.Compiled, b: PlanCompile.Compiled, left: set<ColId>, right: set<ColId>,
      ls: seq<Named>, rs: seq<Named>, op: Op, le: Expr, re: Expr)
    requires Implements(w, a, left, ls) && Implements(w, b, right, rs) && Bound(le, left) && Bound(re, right)
    ensures ComparesAll(w.fp, op, Bytecode.Compiled(le, a.offsets), Bytecode.Compiled(re, b.offsets),
        Output(w, a.tree), Output(w, b.tree))
      <==> PairsCompare(w.fp, op, le, re, ls, rs)
  {
    hide Bytecode.Compiled, Free, Output, Implements, SameValues, ComparesAll, PairsCompare;
    ValuesAgree(w, a, left, ls, le);
    ValuesAgree(w, b, right, rs, re);
    ComparesSame(w.fp, op, Bytecode.Compiled(le, a.offsets), Bytecode.Compiled(re, b.offsets),
      Output(w, a.tree), Output(w, b.tree), le, re, ls, rs);
  }

  // ------------------------------------------------------------------ one operator

  lemma ScanAnswers(w: World, width: TableId -> nat, t: TableId, cols: seq<ColId>)
    requires (forall id | id in cols :: ColumnIndex(id) < width(t)) && AllWide(w.db(t), width(t))
    ensures ScanTree(width, t, cols).Some? && Answers(w, ScanTree(width, t, cols).value.tree)
  {
    hide Eval, Bytecode.Compiled;
    var rows := w.db(t);
    var places := seq(|cols|, i requires 0 <= i < |cols| => ColumnIndex(cols[i]));
    forall j | 0 <= j < |cols| ensures Evals(w.fp, ColPrograms(places, map[])[j], rows) {
      assert cols[j] in cols;
      forall i | 0 <= i < |rows| ensures Eval(w.fp, ColPrograms(places, map[])[j], rows[i]).Some? {
        PlaceAt(w.fp, places[j], rows[i]);
      }
    }
  }

  /** Columns of the input always have a value. */
  lemma ColumnsEval(w: World, c: PlanCompile.Compiled, ids: set<ColId>, rows: seq<Named>, cols: seq<ColId>)
    requires Implements(w, c, ids, rows) && forall id | id in cols :: id in ids
    ensures EvalsAll(w.fp, ColPrograms(cols, c.offsets), Output(w, c.tree))
  {
    hide Eval, Bytecode.Compiled, Output, Read;
    var out := Output(w, c.tree);
    forall j | 0 <= j < |cols| ensures Evals(w.fp, ColPrograms(cols, c.offsets)[j], out) {
      assert cols[j] in cols;
      forall i | 0 <= i < |out| ensures Eval(w.fp, ColPrograms(cols, c.offsets)[j], out[i]).Some? {
        ColumnAt(w.fp, cols[j], c.offsets, out[i]);
      }
    }
  }

  lemma {:induction false} FiltersAnswer(w: World, c: PlanCompile.Compiled, ids: set<ColId>, rows: seq<Named>, preds: seq<Expr>)
    requires Implements(w, c, ids, rows) && forall e | e in preds :: Supported(e) && Bound(e, ids)
    ensures Answers(w, Filters(c.tree, preds, c.offsets)) <==> Answers(w, c.tree) && AllDecided(w.fp, preds, rows)
  {
    hide Implements, Bound, Supported, Bytecode.Compiled, Filtered, Decided, Tests, Output;
    if preds == [] {
    } else {
      var n := |preds| - 1;
      assert preds[n] in preds && forall e | e in preds[..n] :: e in preds;
      FiltersAnswer(w, c, ids, rows, preds[..n]);
      SelectCorrect(w, c, preds[..n], ids, rows);
      EvalsIff(w, c.(tree := Filters(c.tree, preds[..n], c.offsets)), ids, Filtered(w.fp, preds[..n], rows), preds[n]);
    }
  }

  lemma MapAnswers(w: World, c: PlanCompile.Compiled, ids: set<ColId>, rows: seq<Named>, exprs: seq<(ColId, Expr)>)
    requires Implements(w, c, ids, rows) && forall x | x in exprs :: Supported(x.1) && Bound(x.1, ids)
    ensures EvalsAll(w.fp, ColPrograms(Identity(c.width), map[]) + ExprPrograms(exprs, c.offsets), Output(w, c.tree))
      <==> AllExprs(w.fp, exprs, rows)
  {
    hide Eval, Bytecode.Compiled, Output, Read, Defined, Bound, Supported;
    var out := Output(w, c.tree);
    var ps := ColPrograms(Identity(c.width), map[]) + ExprPrograms(exprs, c.offsets);
    forall j | 0 <= j < c.width ensures Evals(w.fp, ps[j], out) {
      forall i | 0 <= i < |out| ensures Eval(w.fp, ps[j], out[i]).Some? {
        PlaceAt(w.fp, j, out[i]);
      }
    }
    forall j | 0 <= j < |exprs| ensures Evals(w.fp, ps[c.width + j], out) <==> Defined(w.fp, exprs[j].1, rows) {
      assert exprs[j] in exprs;
      EvalsIff(w, c, ids, rows, exprs[j].1);
    }
    if EvalsAll(w.fp, ps, out) {
      forall j | 0 <= j < |exprs| ensures Defined(w.fp, exprs[j].1, rows) {
        assert Evals(w.fp, ps[c.width + j], out);
      }
    }
  }

  // ------------------------------------------------------------------ all plans

  /** A well-formed plan has a tree, with its columns. */
  lemma {:induction false} HasTree(width: TableId -> nat, p: Plan)
    requires WellFormed(width, p)
    ensures Compile(width, p).Some? && Compile(width, p).value.offsets.Keys == Cols(p)
  {
    hide Bytecode.Compiled, Filters, ColPrograms, ExprPrograms, Free, Offsets, Renamed, Joined, Appended, Supported, Sides;
    match p
    case Scan(_, cols) => OffsetsAt(cols);
    case IndexScan(_, cols, _, _) => OffsetsAt(cols);
    case Rename(src, names) =>
      HasTree(width, src);
      RenameKeys(names, Compile(width, src).value.offsets);
    case Project(src, cols) =>
      HasTree(width, src);
      OffsetsAt(cols);
    case Select(src, preds) =>
      HasTree(width, src);
      BoundSupported(preds, Cols(src));
    case CrossJoin(l, r, preds) =>
      HasTree(width, l);
      HasTree(width, r);
      BoundSupported(preds, Cols(l) + Cols(r));
      JoinedKeys(Compile(width, l).value.offsets, Compile(width, r).value.offsets, Compile(width, l).value.width);
    case NestedLoopJoin(_, l, r, preds) =>
      HasTree(width, l);
      HasTree(width, r);
      PredSupported(preds[0], Cols(l), Cols(r));
      JoinedKeys(Compile(width, l).value.offsets, Compile(width, r).value.offsets, Compile(width, l).value.width);
    case HashJoin(_, l, r, preds) =>
      HasTree(width, l);
      HasTree(width, r);
      PredSupported(preds[0], Cols(l), Cols(r));
      JoinedKeys(Compile(width, l).value.offsets, Compile(width, r).value.offsets, Compile(width, l).value.width);
    case HashAggregate(src, groupBy, aggrs) =>
      HasTree(width, src);
      OffsetsAt(groupBy + Dests(aggrs));
    case Map(src, exprs) =>
      HasTree(width, src);
      ExprsSupported(exprs, Cols(src));
      AppendedKeys(Compile(width, src).value.offsets, ExprIds(exprs), Compile(width, src).value.width);
  }

  lemma JoinedKeys(ml: map<ColId, nat>, mr: map<ColId, nat>, n: nat)
    ensures Joined(ml, mr, n).Keys == ml.Keys + mr.Keys
  {
  }

  lemma PredSupported(e: Expr, left: set<ColId>, right: set<ColId>)
    requires JoinPred(e, left, right)
    ensures Supported(e)
  {
  }

  lemma {:induction false} AppendedKeys(m: map<ColId, nat>, ids: seq<ColId>, n: nat)
    ensures Appended(m, ids, n).Keys == m.Keys + Ids(ids)
  {
    if ids == [] {
    } else {
      AppendedKeys(m, ids[..|ids| - 1], n);
      assert ids == ids[..|ids| - 1] + [ids[|ids| - 1]];
    }
  }

  lemma AggregateAnswers(w: World, c: PlanCompile.Compiled, ids: set<ColId>, rows: seq<Named>,
      groupBy: seq<ColId>, aggrs: seq<Aggregation>)
    requires Implements(w, c, ids, rows)
    requires (forall id | id in groupBy :: id in ids) && (forall id | id in Sources(aggrs) :: id in ids)
    ensures Answers(w,
        AggregateOp(ColPrograms(groupBy, c.offsets), ColPrograms(Sources(aggrs), c.offsets), AggOps(aggrs), c.tree))
      <==> Answers(w, c.tree) && Finishes(AggOps(aggrs), NamedItems(groupBy, aggrs, rows))
  {
    hide EvalsAll, Finishes, NamedItems, Aggregate.ItemsOf, RunsAll, ColPrograms, Output;
    ColumnsEval(w, c, ids, rows, groupBy);
    ColumnsEval(w, c, ids, rows, Sources(aggrs));
    ItemsRead(w.fp, groupBy, aggrs, c.offsets, Output(w, c.tree), c.width);
  }

  /** What the theorem says of a plan. */
  ghost predicate AnswersAlike(w: World, width: TableId -> nat, p: Plan) {
    && Compile(width, p).Some?
    && (Answers(w, Compile(width, p).value.tree) <==> PlanRuns(w, p))
    && (PlanRuns(w, p) ==> JoinsDefined(w, p) && Translated(w, width, p))
  }

  lemma Settles(w: World, width: TableId -> nat, p: Plan)
    requires WellFormed(width, p) && Fits(w, width) && (PlanRuns(w, p) ==> JoinsDefined(w, p))
    requires Compile(width, p).Some? && (Answers(w, Compile(width, p).value.tree) <==> PlanRuns(w, p))
    ensures AnswersAlike(w, width, p)
  {
    hide WellFormed, Fits, PlanRuns, JoinsDefined, Translated, Answers;
    if PlanRuns(w, p) {
      TranslationCorrect(w, width, p);
    }
  }

  lemma LeafAnswers(w: World, width: TableId -> nat, p: Plan)
    requires WellFormed(width, p) && Fits(w, width) && (p.Scan? || p.IndexScan?)
    ensures AnswersAlike(w, width, p)
  {
    HasTree(width, p);
    if p.Scan? {
      ScanAnswers(w, width, p.table, p.cols);
    }
    Settles(w, width, p);
  }

  lemma UnaryAnswers(w: World, width: TableId -> nat, p: Plan)
    requires p.Rename? || p.Project? || p.Select? || p.HashAggregate? || p.Map?
    requires WellFormed(width, p) && Fits(w, width) && AnswersAlike(w, width, p.src)
    ensures AnswersAlike(w, width, p)
  {
    hide Fits, Implements, AllDecided, EvalsAll, Finishes, NamedItems, AllExprs, Filters, ColPrograms, ExprPrograms, Meaning,
      Output, Tests, Cols, Free;
    HasTree(width, p);
    var c, ids, rows := Compile(width, p.src).value, Cols(p.src), Meaning(w, p.src);
    if PlanRuns(w, p.src) {
      match p
      case Rename(_, _) =>
      case Project(_, cols) => ColumnsEval(w, c, ids, rows, cols);
      case Select(_, preds) =>
        BoundSupported(preds, ids);
        FiltersAnswer(w, c, ids, rows, preds);
      case HashAggregate(_, groupBy, aggrs) => AggregateAnswers(w, c, ids, rows, groupBy, aggrs);
      case Map(_, exprs) =>
        ExprsSupported(exprs, ids);
        MapAnswers(w, c, ids, rows, exprs);
    } else if p.Select? {
      FiltersNeed(w, c.tree, p.preds, c.offsets);
    }
    Settles(w, width, p);
  }

  /** Filters answer only if their input does. */
  lemma {:induction false} FiltersNeed(w: World, t: Tree, preds: seq<Expr>, m: map<ColId, nat>)
    requires forall e | e in preds :: Supported(e)
    ensures Answers(w, Filters(t, preds, m)) ==> Answers(w, t)
  {
    hide Output, Tests, Bytecode.Compiled, Supported;
    if preds == [] {
    } else {
      FiltersNeed(w, t, preds[..|preds| - 1], m);
    }
  }

  lemma CrossAnswers(w: World, width: TableId -> nat, p: Plan)
    requires p.CrossJoin? && WellFormed(width, p) && Fits(w, width)
    requires AnswersAlike(w, width, p.left) && AnswersAlike(w, width, p.right)
    ensures AnswersAlike(w, width, p)
  {
    hide Fits, Implements, AllDecided, Filters, Meaning, Pairs, Joined, Output;
    HasTree(width, p);
    var a, b := Compile(width, p.left).value, Compile(width, p.right).value;
    var ls, rs, m := Meaning(w, p.left), Meaning(w, p.right), Joined(a.offsets, b.offsets, a.width);
    var t := CrossOp(a.tree, b.tree);
    BoundSupported(p.preds, Cols(p.left) + Cols(p.right));
    if PlanRuns(w, p.left) && PlanRuns(w, p.right) {
      CrossCorrect(w, a, b, [], Cols(p.left), Cols(p.right), ls, rs);
      NoFilters(w.fp, t, m, Pairs(ls, rs));
      FiltersAnswer(w, PlanCompile.Compiled(t, m, a.width + b.width), Cols(p.left) + Cols(p.right), Pairs(ls, rs), p.preds);
    } else {
      FiltersNeed(w, t, p.preds, m);
    }
    Settles(w, width, p);
  }

  lemma NoFilters(fp: Rounded, t: Tree, m: map<ColId, nat>, rows: seq<Named>)
    ensures Filters(t, [], m) == t && Filtered(fp, [], rows) == rows
  {
    FilteredByNone(fp, rows);
  }

  lemma LoopAnswers(w: World, width: TableId -> nat, p: Plan)
    requires p.NestedLoopJoin? && WellFormed(width, p) && Fits(w, width)
    requires AnswersAlike(w, width, p.left) && AnswersAlike(w, width, p.right)
    ensures AnswersAlike(w, width, p)
  {
    hide Fits, Implements, Meaning, Joined, Output, Bytecode.Compiled, ComparesAll, Free;
    HasTree(width, p);
    var a, b, e := Compile(width, p.left).value, Compile(width, p.right).value, p.preds[0];
    var ls, rs := Meaning(w, p.left), Meaning(w, p.right);
    PredSupported(e, Cols(p.left), Cols(p.right));
    assert p.preds == [e];
    LoopShape(a, b, e, Cols(p.left));
    var (le, re) := Sides(e, Cols(p.left));
    SidesBound(e, Cols(p.left), Cols(p.right));
    if PlanRuns(w, p.left) && PlanRuns(w, p.right) {
      ComparesIff(w, a, b, Cols(p.left), Cols(p.right), ls, rs, e.op, le, re);
      if PlanRuns(w, p) {
        PairsDefined(w.fp, e.op, le, re, ls, rs);
      }
    }
    Settles(w, width, p);
  }

  lemma SidesBound(e: Expr, left: set<ColId>, right: set<ColId>)
    requires JoinPred(e, left, right)
    ensures Bound(Sides(e, left).0, left) && Bound(Sides(e, left).1, right)
  {
  }

  lemma PairsDefined(fp: Rounded, op: Op, le: Expr, re: Expr, ls: seq<Named>, rs: seq<Named>)
    requires PairsCompare(fp, op, le, re, ls, rs)
    ensures ls == [] || rs == [] || (Defined(fp, le, ls) && Defined(fp, re, rs))
  {
    hide Value;
    if ls != [] && rs != [] {
      forall i | 0 <= i < |ls| ensures Value(fp, le, EnvOf(ls[i])).Some? {
        assert ComparesOne(op, Value(fp, le, EnvOf(ls[i])), Value(fp, re, EnvOf(rs[0])));
      }
      forall j | 0 <= j < |rs| ensures Value(fp, re, EnvOf(rs[j])).Some? {
        assert ComparesOne(op, Value(fp, le, EnvOf(ls[0])), Value(fp, re, EnvOf(rs[j])));
      }
    }
  }

  lemma HashAnswers(w: World, width: TableId -> nat, p: Plan)
    requires p.HashJoin? && WellFormed(width, p) && Fits(w, width)
    requires AnswersAlike(w, width, p.left) && AnswersAlike(w, width, p.right)
    ensures AnswersAlike(w, width, p)
  {
    hide Fits, Implements, Meaning, Joined, Output, Bytecode.Compiled, Evals, Defined, Free;
    HasTree(width, p);
    var a, b, e := Compile(width, p.left).value, Compile(width, p.right).value, p.preds[0];
    PredSupported(e, Cols(p.left), Cols(p.right));
    assert p.preds == [e];
    var (le, re) := Sides(e, Cols(p.left));
    SidesBound(e, Cols(p.left), Cols(p.right));
    if PlanRuns(w, p.left) && PlanRuns(w, p.right) {
      EvalsIff(w, a, Cols(p.left), Meaning(w, p.left), le);
      EvalsIff(w, b, Cols(p.right), Meaning(w, p.right), re);
    }
    Settles(w, width, p);
  }

  /**
   * For a well-formed plan the operators run without aborting if and only if the plan's expressions have the
   * values they need on the rows the plan means; and then they yield exactly those rows.
   */
  lemma {:induction false} AnswersIff(w: World, width: TableId -> nat, p: Plan)
    requires WellFormed(width, p) && Fits(w, width)
    ensures AnswersAlike(w, width, p)
  {
    hide Fits, AnswersAlike;
    if p.Scan? || p.IndexScan? {
      LeafAnswers(w, width, p);
    } else if p.CrossJoin? || p.NestedLoopJoin? || p.HashJoin? {
      AnswersIff(w, width, p.left);
      AnswersIff(w, width, p.right);
      if p.CrossJoin? {
        CrossAnswers(w, width, p);
      } else if p.NestedLoopJoin? {
        LoopAnswers(w, width, p);
      } else {
        HashAnswers(w, width, p);
      }
    } else {
      UnaryPlan(width, p);
      AnswersIff(w, width, p.src);
      UnaryAnswers(w, width, p);
    }
  }
}
