/** Joins with swapped operands. */
module PlanSwap {
  import opened Base
  import opened Exprs
  import opened Bytecode
  import opened PlanModel
  import opened PlanCompile
  import opened PlanRows
  import opened PlanJoins
  import opened PlanTheorem

  // ------------------------------------------------------------------ filtered pairs

  lemma {:induction false} FilteredCount(fp: Rounded, e: Expr, rows: seq<Named>, r: Named)
    ensures multiset(Filtered(fp, [e], rows))[r] == if Holds(fp, e, EnvOf(r)) then multiset(rows)[r] else 0
  {
    hide AllHold, Holds;
    if rows == [] {
    } else {
      FilteredCount(fp, e, rows[1..], r);
      OneHolds(fp, e, EnvOf(rows[0]));
      assert rows == [rows[0]] + rows[1..];
    }
  }

  lemma {:induction false} FilteredAlike(fp: Rounded, d: Expr, e: Expr, rows: seq<Named>)
    requires forall i | 0 <= i < |rows| :: Holds(fp, d, EnvOf(rows[i])) <==> Holds(fp, e, EnvOf(rows[i]))
    ensures Filtered(fp, [d], rows) == Filtered(fp, [e], rows)
  {
    hide AllHold, Holds;
    if rows == [] {
    } else {
      FilteredAlike(fp, d, e, rows[1..]);
      OneHolds(fp, d, EnvOf(rows[0]));
      OneHolds(fp, e, EnvOf(rows[0]));
    }
  }

  lemma {:induction false} EachIn(l: Named, rs: seq<Named>, j: nat)
    requires j < |rs|
    ensures l + rs[j] in WithEach(l, rs)
  {
    if j == 0 {
    } else {
      EachIn(l, rs[1..], j - 1);
    }
  }

  lemma {:induction false} PairIn(ls: seq<Named>, rs: seq<Named>, i: nat, j: nat)
    requires i < |ls| && j < |rs|
    ensures ls[i] + rs[j] in Pairs(ls, rs)
  {
    if i == 0 {
      EachIn(ls[0], rs, j);
    } else {
      PairIn(ls[1..], rs, i - 1, j);
    }
  }

  lemma {:induction false} EachOf(l: Named, rs: seq<Named>, r: Named) returns (j: nat)
    requires r in WithEach(l, rs)
    ensures j < |rs| && r == l + rs[j]
  {
    if r == l + rs[0] {
      j := 0;
    } else {
      j := EachOf(l, rs[1..], r);
      j := j + 1;
    }
  }

  lemma {:induction false} PairOf(ls: seq<Named>, rs: seq<Named>, r: Named) returns (i: nat, j: nat)
    requires r in Pairs(ls, rs)
    ensures i < |ls| && j < |rs| && r == ls[i] + rs[j]
  {
    if r in WithEach(ls[0], rs) {
      i := 0;
      j := EachOf(ls[0], rs, r);
    } else {
      i, j := PairOf(ls[1..], rs, r);
      i := i + 1;
    }
  }

  // ------------------------------------------------------------------ one pair

  predicate Ordering(op: Op) {
    op.Gt? || op.Ge? || op.Lt? || op.Le?
  }

  /** An ordering decides alike in both directions exactly on equal values. */
  lemma OrderingTurns(fp: Rounded, op: Op, x: Field, y: Field)
    requires Ordering(op)
    ensures (Apply(fp, op, x, y) == Some(Bool(true)) <==> Apply(fp, op, y, x) == Some(Bool(true))) <==> x == y
  {
    hide FieldLe;
    FieldTotal();
  }

  /** The two directions of a predicate on a pair whose operands have values `x` and `y`. */
  lemma BothWays(fp: Rounded, e: Expr, left: set<ColId>, a: Named, b: Named)
    requires JoinPred(e, a.Keys, b.Keys) && left == a.Keys && !Aligned(e, left) && Ordering(e.op)
    requires Value(fp, e.right, EnvOf(a)).Some? && Value(fp, e.left, EnvOf(b)).Some?
    ensures (Holds(fp, AsExpr(Turned(e, left)), EnvOf(a + b)) <==> Holds(fp, e, EnvOf(a + b)))
      <==> Value(fp, e.right, EnvOf(a)) == Value(fp, e.left, EnvOf(b))
  {
    hide Apply;
    ValueLocal(fp, e.right, EnvOf(a), EnvOf(a + b));
    ValueLocal(fp, e.left, EnvOf(b), EnvOf(a + b));
    OrderingTurns(fp, e.op, Value(fp, e.right, EnvOf(a)).value, Value(fp, e.left, EnvOf(b)).value);
  }

  // ------------------------------------------------------------------ any join

  /** What a join of two translated inputs needs. */
  ghost predicate Joins(w: World, width: TableId -> nat, l: Plan, r: Plan, e: Expr) {
    && WellFormed(width, l) && WellFormed(width, r) && Fits(w, width) && JoinsDefined(w, l) && JoinsDefined(w, r)
    && JoinPred(e, Cols(l), Cols(r)) && Compares(e.op) && OperandsDefined(w, l, r, [e])
  }

  /** On every pair of rows both operands have the same value. */
  ghost predicate KeysEqual(w: World, l: Plan, r: Plan, e: Expr)
    requires e.Binary?
  {
    var ls, rs := Meaning(w, l), Meaning(w, r);
    forall i, j | 0 <= i < |ls| && 0 <= j < |rs| ::
      Value(w.fp, Sides(e, Cols(l)).0, EnvOf(ls[i])) == Value(w.fp, Sides(e, Cols(l)).1, EnvOf(rs[j]))
  }

  /** The operators yield the pairs on which the turned predicate holds. */
  lemma TurnedRows(w: World, width: TableId -> nat, l: Plan, r: Plan, e: Expr)
    requires Joins(w, width, l, r, e)
    ensures Implemented(w, Compile(width, NestedLoopJoin(Inner, l, r, [e])), Cols(l) + Cols(r),
      Filtered(w.fp, [AsExpr(Turned(e, Cols(l)))], Pairs(Meaning(w, l), Meaning(w, r))))
    ensures Translated(w, width, l) && Translated(w, width, r)
  {
    hide Implements, Filtered, WellFormed, Fits, JoinsDefined, JoinPred, LoopTree, Pairs, AsExpr, Meaning, Cols;
    TranslationCorrect(w, width, l);
    TranslationCorrect(w, width, r);
    assert [e][0] == e;
    Ready(w, Compile(width, l), Compile(width, r), l, r, [e]);
    LoopStep(w, Compile(width, l), Compile(width, r), e, Cols(l), Cols(r), Meaning(w, l), Meaning(w, r));
  }

  lemma SameRowsOnly(w: World, c: Option<PlanCompile.Compiled>, cols: set<ColId>, a: seq<Named>, b: seq<Named>)
    requires Implemented(w, c, cols, a)
    ensures Implemented(w, c, cols, b) <==> a == b
  {
  }

  lemma RowKeys(w: World, width: TableId -> nat, p: Plan, i: nat)
    requires Translated(w, width, p) && i < |Meaning(w, p)|
    ensures Meaning(w, p)[i].Keys == Cols(p)
  {
    hide Meaning, Cols, Output, Compile;
    var c := Compile(width, p).value;
    assert Meaning(w, p)[i] == Read(c.offsets, Output(w, c.tree)[i]);
  }

  lemma OperandValues(w: World, l: Plan, r: Plan, e: Expr, i: nat, j: nat)
    requires e.Binary? && OperandsDefined(w, l, r, [e]) && i < |Meaning(w, l)| && j < |Meaning(w, r)|
    ensures Value(w.fp, Sides(e, Cols(l)).0, EnvOf(Meaning(w, l)[i])).Some?
    ensures Value(w.fp, Sides(e, Cols(l)).1, EnvOf(Meaning(w, r)[j])).Some?
  {
    hide Meaning, Cols, Value, Sides;
    assert [e][0] == e;
  }

  /** On one pair of a join with swapped operands and an ordering. */
  lemma PairTurns(w: World, width: TableId -> nat, l: Plan, r: Plan, e: Expr, i: nat, j: nat)
    requires e.Binary? && Joins(w, width, l, r, e) && Translated(w, width, l) && Translated(w, width, r)
    requires !Aligned(e, Cols(l)) && !Symmetric(e.op) && i < |Meaning(w, l)| && j < |Meaning(w, r)|
    ensures var a, b, c := Meaning(w, l)[i], Meaning(w, r)[j], Turned(e, Cols(l));
      (Holds(w.fp, AsExpr(c), EnvOf(a + b)) <==> Holds(w.fp, e, EnvOf(a + b)))
      <==> Value(w.fp, c.left, EnvOf(a)) == Value(w.fp, c.right, EnvOf(b))
  {
    hide WellFormed, Fits, JoinsDefined, Translated, Meaning, Cols, Holds, Value, OperandsDefined;
    RowKeys(w, width, l, i);
    RowKeys(w, width, r, j);
    OperandValues(w, l, r, e, i, j);
    BothWays(w.fp, e, Cols(l), Meaning(w, l)[i], Meaning(w, r)[j]);
  }

  /**
   * A nested-loop join, of any inputs and any predicate with one operand on each, is translated right if and
   * only if its operands stand in the order of the inputs, or its operator is symmetric, or on every pair of
   * rows the operands are equal.
   */
  lemma SwappedIff(w: World, width: TableId -> nat, l: Plan, r: Plan, e: Expr)
    requires e.Binary? && Joins(w, width, l, r, e)
    ensures Translated(w, width, NestedLoopJoin(Inner, l, r, [e]))
      <==> Aligned(e, Cols(l)) || Symmetric(e.op) || KeysEqual(w, l, r, e)
  {
    hide WellFormed, Fits, JoinsDefined, JoinPred, Filtered, Pairs, AsExpr, Holds, Value, Compile, Free;
    hide OperandsDefined, Implemented;
    var p, d := NestedLoopJoin(Inner, l, r, [e]), AsExpr(Turned(e, Cols(l)));
    var rows := Pairs(Meaning(w, l), Meaning(w, r));
    TurnedRows(w, width, l, r, e);
    SameRowsOnly(w, Compile(width, p), Cols(p), Filtered(w.fp, [d], rows), Filtered(w.fp, [e], rows));
    if Aligned(e, Cols(l)) || Symmetric(e.op) {
      TurnedFilter(w.fp, e, Cols(l), rows);
    } else if KeysEqual(w, l, r, e) {
      EqualKeysAgree(w, width, l, r, e);
    } else {
      OtherKeysDiffer(w, width, l, r, e);
    }
  }

  lemma EqualKeysAgree(w: World, width: TableId -> nat, l: Plan, r: Plan, e: Expr)
    requires e.Binary? && Joins(w, width, l, r, e) && Translated(w, width, l) && Translated(w, width, r)
    requires !Aligned(e, Cols(l)) && !Symmetric(e.op) && KeysEqual(w, l, r, e)
    ensures var rows := Pairs(Meaning(w, l), Meaning(w, r));
      Filtered(w.fp, [AsExpr(Turned(e, Cols(l)))], rows) == Filtered(w.fp, [e], rows)
  {
    hide Joins, Translated, Meaning, Cols, Holds, Value, Filtered, Pairs, AsExpr;
    var d, rows := AsExpr(Turned(e, Cols(l))), Pairs(Meaning(w, l), Meaning(w, r));
    forall k | 0 <= k < |rows| ensures Holds(w.fp, d, EnvOf(rows[k])) <==> Holds(w.fp, e, EnvOf(rows[k])) {
      assert rows[k] in rows;
      var i, j := PairOf(Meaning(w, l), Meaning(w, r), rows[k]);
      PairTurns(w, width, l, r, e, i, j);
    }
    FilteredAlike(w.fp, d, e, rows);
  }

  lemma OtherKeysDiffer(w: World, width: TableId -> nat, l: Plan, r: Plan, e: Expr)
    requires e.Binary? && Joins(w, width, l, r, e) && Translated(w, width, l) && Translated(w, width, r)
    requires !Aligned(e, Cols(l)) && !Symmetric(e.op) && !KeysEqual(w, l, r, e)
    ensures var rows := Pairs(Meaning(w, l), Meaning(w, r));
      Filtered(w.fp, [AsExpr(Turned(e, Cols(l)))], rows) != Filtered(w.fp, [e], rows)
  {
    hide Joins, Translated, Meaning, Cols, Holds, Value, Filtered, Pairs, AsExpr;
    var ls, rs, d := Meaning(w, l), Meaning(w, r), AsExpr(Turned(e, Cols(l)));
    var rows := Pairs(ls, rs);
    var i, j :| 0 <= i < |ls| && 0 <= j < |rs| &&
      Value(w.fp, Sides(e, Cols(l)).0, EnvOf(ls[i])) != Value(w.fp, Sides(e, Cols(l)).1, EnvOf(rs[j]));
    PairTurns(w, width, l, r, e, i, j);
    PairIn(ls, rs, i, j);
    var row := ls[i] + rs[j];
    assert row in multiset(rows);
    FilteredCount(w.fp, d, rows, row);
    FilteredCount(w.fp, e, rows, row);
  }

  // ------------------------------------------------------------------ two inputs that go wrong

  function TwoWide(t: TableId): (n: nat) {
    2
  }

  /** Tables 0 and 1 with one row each; columns 0 and 1, and 100 and 101. */
  ghost predicate OneRowEach(w: World, a: Row, b: Row) {
    ProbesFind(w) && |a| == |b| == 2 && w.db(0) == [a] && w.db(1) == [b] && forall t | t > 1 :: w.db(t) == []
  }

  const LEFT := Scan(0, [0, 1])
  const RIGHT := Scan(1, [100, 101])

  lemma OneRowFits(w: World, a: Row, b: Row)
    requires OneRowEach(w, a, b)
    ensures Fits(w, TwoWide)
  {
    forall t ensures AllWide(w.db(t), TwoWide(t)) {
      if t > 1 {
        assert w.db(t) == [];
      }
    }
  }

  lemma ScanOne(w: World, t: TableId, x: ColId, y: ColId, row: Row)
    requires w.db(t) == [row] && |row| == 2 && ColumnIndex(x) == 0 && ColumnIndex(y) == 1
    ensures Meaning(w, Scan(t, [x, y])) == [map[x := row[0], y := row[1]]]
    ensures Cols(Scan(t, [x, y])) == {x, y} && WellFormed(TwoWide, Scan(t, [x, y]))
  {
    assert ScanRow([x, y], row) == map[x := row[0], y := row[1]];
  }

  lemma OneRowMeans(w: World, a: Row, b: Row)
    requires OneRowEach(w, a, b)
    ensures Fits(w, TwoWide) && Cols(LEFT) == {0, 1} && Cols(RIGHT) == {100, 101}
    ensures Meaning(w, LEFT) == [map[0 := a[0], 1 := a[1]]] && Meaning(w, RIGHT) == [map[100 := b[0], 101 := b[1]]]
    ensures WellFormed(TwoWide, LEFT) && WellFormed(TwoWide, RIGHT)
  {
    hide Fits, ProbesFind, Meaning, Cols, WellFormed;
    OneRowFits(w, a, b);
    ScanOne(w, 0, 0, 1, a);
    ScanOne(w, 1, 100, 101, b);
  }

  /** `column 100 < column 0` on 1 and 2, and every other ordering: the join finds the row the predicate rejects, or loses it. */
  lemma OrderedWrong(w: World, op: Op)
    requires Ordering(op) && OneRowEach(w, [BigInt(1), Null], [BigInt(2), Null])
    ensures !Translated(w, TwoWide, NestedLoopJoin(Inner, LEFT, RIGHT, [Binary(op, ColRef(100), ColRef(0))]))
  {
    hide Fits, WellFormed, Translated, Meaning, Cols;
    var e := Binary(op, ColRef(100), ColRef(0));
    OneRowMeans(w, [BigInt(1), Null], [BigInt(2), Null]);
    var ls, rs := Meaning(w, LEFT), Meaning(w, RIGHT);
    assert JoinPred(e, {0, 1}, {100, 101}) && !Aligned(e, {0, 1});
    assert Sides(e, {0, 1}) == (ColRef(0), ColRef(100));
    assert Value(w.fp, ColRef(0), EnvOf(ls[0])) == Some(BigInt(1)) && Value(w.fp, ColRef(100), EnvOf(rs[0])) == Some(BigInt(2));
    assert [e][0] == e && OperandsDefined(w, LEFT, RIGHT, [e]);
    assert !KeysEqual(w, LEFT, RIGHT, e);
    SwappedIff(w, TwoWide, LEFT, RIGHT, e);
  }
}
