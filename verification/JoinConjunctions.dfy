/** Joins on two predicates. */
module JoinConjunctions {
  import opened Base
  import opened Exprs
  import opened Bytecode
  import opened PlanModel
  import opened PlanCompile
  import opened PlanTheorem
  import opened PlanAnswers
  import opened PlanSwap

  /** The expression reads a column that the input does not have, under an id that is no position of its rows. */
  ghost predicate Lacks(c: PlanCompile.Compiled, e: Expr, id: ColId) {
    id in Free(e) && id !in c.offsets && id >= c.width
  }

  lemma {:induction false} MissingColumn(fp: Rounded, e: Expr, env: Env, id: ColId)
    requires id in Free(e) && env(id) == None
    ensures Value(fp, e, env) == None
  {
    if e.Binary? {
      if id in Free(e.left) {
        MissingColumn(fp, e.left, env, id);
      } else {
        MissingColumn(fp, e.right, env, id);
      }
    }
  }

  /** Such an expression aborts on every row. */
  lemma LackingAborts(w: World, c: PlanCompile.Compiled, cols: set<ColId>, rows: seq<Named>, e: Expr, id: ColId, i: nat)
    requires Implements(w, c, cols, rows) && Supported(e) && Lacks(c, e, id) && i < |Output(w, c.tree)|
    ensures Eval(w.fp, Bytecode.Compiled(e, c.offsets), Output(w, c.tree)[i]) == None
  {
    hide Bytecode.Compiled, Eval, Free, Output, Value, Read;
    var row := Output(w, c.tree)[i];
    CompileCorrect(w.fp, e, c.offsets, row);
    MissingColumn(w.fp, e, Through(c.offsets, RowEnv(row)), id);
  }

  /** A nested-loop join with an operand that lacks a column answers if and only if one of its inputs is empty. */
  lemma LackingLoop(w: World, a: PlanCompile.Compiled, b: PlanCompile.Compiled, left: set<ColId>, right: set<ColId>,
      ls: seq<Named>, rs: seq<Named>, e: Expr, id: ColId)
    requires Implements(w, a, left, ls) && Implements(w, b, right, rs) && Answers(w, a.tree) && Answers(w, b.tree)
    requires e.Binary? && Supported(e) && (Lacks(a, Sides(e, left).0, id) || Lacks(b, Sides(e, left).1, id))
    ensures LoopTree(Some(a), Some(b), [e], left).Some?
    ensures Answers(w, LoopTree(Some(a), Some(b), [e], left).value.tree) <==> ls == [] || rs == []
  {
    hide LoopTree, Bytecode.Compiled, Eval, Free, Output, Read, Lacks, Joined;
    LoopShape(a, b, e, left);
    var (le, re) := Sides(e, left);
    var x, y := Output(w, a.tree), Output(w, b.tree);
    if ls != [] && rs != [] {
      if Lacks(a, le, id) {
        LackingAborts(w, a, left, ls, le, id, 0);
      } else {
        LackingAborts(w, b, right, rs, re, id, 0);
      }
      assert !ComparesOne(e.op, Eval(w.fp, Bytecode.Compiled(le, a.offsets), x[0]), Eval(w.fp, Bytecode.Compiled(re, b.offsets), y[0]));
    }
  }

  lemma LoopParts(w: World, width: TableId -> nat, l: Plan, r: Plan, e: Expr)
    ensures var p := NestedLoopJoin(Inner, l, r, [e]);
      && Compile(width, p) == LoopTree(Compile(width, l), Compile(width, r), [e], Cols(l))
      && Cols(p) == Cols(l) + Cols(r) && Meaning(w, p) == Filtered(w.fp, [e], Pairs(Meaning(w, l), Meaning(w, r)))
  {
  }

  /**
   * A join whose one predicate is taken apart into operands, one of which reads a column that is not on its
   * side, such as the conjunction of two predicates: it answers if and only if one of its inputs is empty, and
   * otherwise aborts.
   */
  lemma ConjunctionIff(w: World, width: TableId -> nat, l: Plan, r: Plan, e: Expr, id: ColId)
    requires WellFormed(width, l) && WellFormed(width, r) && Fits(w, width)
    requires PlanRuns(w, l) && PlanRuns(w, r)
    requires Compile(width, l).Some? && Compile(width, r).Some? && e.Binary? && Supported(e)
    requires var (le, re) := Sides(e, Cols(l)); Lacks(Compile(width, l).value, le, id) || Lacks(Compile(width, r).value, re, id)
    ensures var p := NestedLoopJoin(Inner, l, r, [e]);
      && Compile(width, p).Some?
      && (Answers(w, Compile(width, p).value.tree) <==> Meaning(w, l) == [] || Meaning(w, r) == [])
      && (Answers(w, Compile(width, p).value.tree) ==> Translated(w, width, p))
  {
    hide WellFormed, Fits, PlanRuns, LoopTree, Free, Implements, Lacks, Answers, Supported, Compile, Meaning, Cols;
    LoopParts(w, width, l, r, e);
    AnswersIff(w, width, l);
    AnswersIff(w, width, r);
    var a, b := Compile(width, l).value, Compile(width, r).value;
    LackingLoop(w, a, b, Cols(l), Cols(r), Meaning(w, l), Meaning(w, r), e, id);
    if Meaning(w, l) == [] || Meaning(w, r) == [] {
      EmptyLoop(w, a, b, e, Cols(l), Cols(r), Meaning(w, l), Meaning(w, r));
      NoPairs(Meaning(w, l), Meaning(w, r));
    }
  }

  // ------------------------------------------------------------------ an input that aborts

  function TwoEqualities(): (e: Expr) {
    Binary(And, Binary(Eq, ColRef(0), ColRef(100)), Binary(Eq, ColRef(1), ColRef(101)))
  }

  lemma LeftCompiled()
    ensures Compile(TwoWide, LEFT).Some? && Compile(TwoWide, LEFT).value.width == 2
    ensures 100 !in Compile(TwoWide, LEFT).value.offsets && Compile(TwoWide, RIGHT).Some?
  {
    OffsetsAt([0, 1]);
  }

  /** `column 0 = column 100 AND column 1 = column 101` on one row each, whatever it holds: the join aborts. */
  lemma ConjunctionAborts(w: World, a: Row, b: Row)
    requires OneRowEach(w, a, b)
    ensures var c := Compile(TwoWide, NestedLoopJoin(Inner, LEFT, RIGHT, [TwoEqualities()])); c.Some? && !Answers(w, c.value.tree)
  {
    hide Fits, WellFormed, Meaning, OneRowEach, Compile, Cols, Answers;
    OneRowMeans(w, a, b);
    LeftCompiled();
    assert 0 in Free(TwoEqualities().left);
    ConjunctionIff(w, TwoWide, LEFT, RIGHT, TwoEqualities(), 100);
  }
}
