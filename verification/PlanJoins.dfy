/** Translated joins: positional rows against named ones. */
module PlanJoins {
  import opened Base
  import opened Exprs
  import opened Bytecode
  import opened JoinSpec
  import opened PlanModel
  import opened PlanCompile
  import opened PlanRows
  import HashJoin
  import NestedLoopJoin

  // ------------------------------------------------------------------ pairs of rows

  lemma JoinedReads(ml: map<ColId, nat>, mr: map<ColId, nat>, l: Row, r: Row)
    requires Inside(ml, |l|)
    ensures Read(Joined(ml, mr, |l|), l + r) == Read(ml, l) + Read(mr, r)
  {
  }

  lemma {:induction false} BesideReads(ml: map<ColId, nat>, mr: map<ColId, nat>, l: Row, rs: seq<Row>)
    requires Inside(ml, |l|)
    ensures ReadRows(Joined(ml, mr, |l|), Beside(l, rs)) == WithEach(Read(ml, l), ReadRows(mr, rs))
  {
    hide Read, Joined;
    if rs == [] {
    } else {
      BesideReads(ml, mr, l, rs[1..]);
      JoinedReads(ml, mr, l, rs[0]);
      assert ReadRows(mr, rs)[1..] == ReadRows(mr, rs[1..]);
    }
  }

  lemma ReadRowsCat(m: map<ColId, nat>, a: seq<Row>, b: seq<Row>)
    ensures ReadRows(m, a + b) == ReadRows(m, a) + ReadRows(m, b)
  {
  }

  lemma {:induction false} ProductReads(ml: map<ColId, nat>, mr: map<ColId, nat>, ls: seq<Row>, rs: seq<Row>, n: nat)
    requires Inside(ml, n) && AllWide(ls, n)
    ensures ReadRows(Joined(ml, mr, n), Product(ls, rs)) == Pairs(ReadRows(ml, ls), ReadRows(mr, rs))
  {
    hide Read, Joined, Beside, WithEach;
    if ls == [] {
    } else {
      ProductReads(ml, mr, ls[1..], rs, n);
      BesideReads(ml, mr, ls[0], rs);
      ReadRowsCat(Joined(ml, mr, n), Beside(ls[0], rs), Product(ls[1..], rs));
      assert ReadRows(ml, ls)[1..] == ReadRows(ml, ls[1..]);
    }
  }

  lemma {:induction false} BesideWide(l: Row, rs: seq<Row>, k: nat)
    requires AllWide(rs, k)
    ensures AllWide(Beside(l, rs), |l| + k)
  {
    if rs == [] {
    } else {
      BesideWide(l, rs[1..], k);
    }
  }

  lemma {:induction false} ProductWide(ls: seq<Row>, rs: seq<Row>, n: nat, k: nat)
    requires AllWide(ls, n) && AllWide(rs, k)
    ensures AllWide(Product(ls, rs), n + k)
  {
    if ls == [] {
    } else {
      ProductWide(ls[1..], rs, n, k);
      BesideWide(ls[0], rs, k);
    }
  }

  // ------------------------------------------------------------------ one pair

  /** A comparison of an operand of the left input with one of the right input. */
  datatype Comparison = Comparison(op: Op, left: Expr, right: Expr)

  function AsExpr(c: Comparison): (e: Expr) {
    Binary(c.op, c.left, c.right)
  }

  /** What the translation makes of a join predicate: the operand with columns of the left input first. */
  ghost function Turned(e: Expr, left: set<ColId>): (c: Comparison)
    requires e.Binary?
  {
    Comparison(e.op, Sides(e, left).0, Sides(e, left).1)
  }

  ghost predicate Sided(c: Comparison, left: set<ColId>, right: set<ColId>) {
    Compares(c.op) && left !! right && Bound(c.left, left) && Bound(c.right, right)
  }

  lemma TurnedSided(e: Expr, left: set<ColId>, right: set<ColId>)
    requires JoinPred(e, left, right) && Compares(e.op)
    ensures Sided(Turned(e, left), left, right) && Supported(e)
  {
  }

  /** The operands, each computed on its own side, compare as the comparison decides on the joined row. */
  lemma PairAgrees(fp: Rounded, c: Comparison, a: Named, b: Named)
    requires Sided(c, a.Keys, b.Keys) && Value(fp, c.left, EnvOf(a)).Some? && Value(fp, c.right, EnvOf(b)).Some?
    ensures CompareFields(c.op, Value(fp, c.left, EnvOf(a)).value, Value(fp, c.right, EnvOf(b)).value) == Some(true)
      <==> Holds(fp, AsExpr(c), EnvOf(a + b))
  {
    hide CompareFields, Apply;
    ValueLocal(fp, c.left, EnvOf(a), EnvOf(a + b));
    ValueLocal(fp, c.right, EnvOf(b), EnvOf(a + b));
    CompareIsApply(fp, c.op, Value(fp, c.left, EnvOf(a)).value, Value(fp, c.right, EnvOf(b)).value);
  }

  /** An expression has a value on every row. */
  ghost predicate Defined(fp: Rounded, e: Expr, rows: seq<Named>) {
    forall i | 0 <= i < |rows| :: Value(fp, e, EnvOf(rows[i])).Some?
  }

  lemma {:induction false} FilteredCat(fp: Rounded, preds: seq<Expr>, a: seq<Named>, b: seq<Named>)
    ensures Filtered(fp, preds, a + b) == Filtered(fp, preds, a) + Filtered(fp, preds, b)
  {
    hide AllHold;
    if a == [] {
      assert a + b == b;
    } else {
      FilteredCat(fp, preds, a[1..], b);
      assert (a + b)[0] == a[0] && (a + b)[1..] == a[1..] + b;
      var head := if AllHold(fp, preds, EnvOf(a[0])) then [a[0]] else [];
      assert head + (Filtered(fp, preds, a[1..]) + Filtered(fp, preds, b)) == Filtered(fp, preds, a) + Filtered(fp, preds, b);
    }
  }

  // ------------------------------------------------------------------ the join operators

  /** What a join operator needs of its comparison and inputs. */
  ghost predicate Joinable(fp: Rounded, c: Comparison, ml: map<ColId, nat>, mr: map<ColId, nat>, ls: seq<Row>,
      rs: seq<Row>, n: nat, k: nat) {
    && Sided(c, ml.Keys, mr.Keys)
    && Inside(ml, n) && AllWide(ls, n) && Inside(mr, k) && AllWide(rs, k)
    && Defined(fp, c.left, ReadRows(ml, ls)) && Defined(fp, c.right, ReadRows(mr, rs))
  }

  lemma JoinableParts(fp: Rounded, c: Comparison, ml: map<ColId, nat>, mr: map<ColId, nat>, ls: seq<Row>,
      rs: seq<Row>, n: nat, k: nat)
    requires Joinable(fp, c, ml, mr, ls, rs, n, k)
    ensures Supported(c.left) && Supported(c.right)
    ensures ls != [] ==> Joinable(fp, c, ml, mr, [ls[0]], rs, n, k) && Joinable(fp, c, ml, mr, ls[1..], rs, n, k)
    ensures rs != [] ==> Joinable(fp, c, ml, mr, ls, [rs[0]], n, k) && Joinable(fp, c, ml, mr, ls, rs[1..], n, k)
  {
    hide Value, Read;
    if ls != [] {
      assert ReadRows(ml, ls)[1..] == ReadRows(ml, ls[1..]) && ReadRows(ml, [ls[0]])[0] == ReadRows(ml, ls)[0];
    }
    if rs != [] {
      assert ReadRows(mr, rs)[1..] == ReadRows(mr, rs[1..]) && ReadRows(mr, [rs[0]])[0] == ReadRows(mr, rs)[0];
    }
  }

  lemma JoinableWide(fp: Rounded, c: Comparison, ml: map<ColId, nat>, mr: map<ColId, nat>, ls: seq<Row>,
      rs: seq<Row>, n: nat, k: nat)
    requires Joinable(fp, c, ml, mr, ls, rs, n, k)
    ensures ls != [] ==> Inside(ml, n) && |ls[0]| == n
  {
  }

  /** The compiled operand on a side with these offsets. */
  ghost function KeyFrom(fp: Rounded, e: Expr, m: map<ColId, nat>): (f: Row -> Field)
    requires Supported(e)
  {
    Runs(fp, Bytecode.Compiled(e, m))
  }

  lemma KeysAgree(fp: Rounded, c: Comparison, ml: map<ColId, nat>, mr: map<ColId, nat>, ls: seq<Row>, rs: seq<Row>,
      n: nat, k: nat, i: nat, j: nat)
    requires Joinable(fp, c, ml, mr, ls, rs, n, k) && i < |ls| && j < |rs|
    ensures CompareFields(c.op, KeyFrom(fp, c.left, ml)(ls[i]), KeyFrom(fp, c.right, mr)(rs[j])) == Some(true)
      <==> Holds(fp, AsExpr(c), EnvOf(Read(ml, ls[i]) + Read(mr, rs[j])))
  {
    hide CompareFields, Eval, Value, Bytecode.Compiled;
    var a, b := Read(ml, ls[i]), Read(mr, rs[j]);
    assert a == ReadRows(ml, ls)[i] && b == ReadRows(mr, rs)[j];
    ValueAgrees(fp, c.left, ml, ls[i]);
    ValueAgrees(fp, c.right, mr, rs[j]);
    assert a.Keys == ml.Keys && b.Keys == mr.Keys;
    PairAgrees(fp, c, a, b);
  }

  lemma {:induction false} LoopRowReads(fp: Rounded, c: Comparison, ml: map<ColId, nat>, mr: map<ColId, nat>, l: Row,
      rs: seq<Row>, n: nat, k: nat)
    requires Joinable(fp, c, ml, mr, [l], rs, n, k)
    ensures ReadRows(Joined(ml, mr, n),
        LeftRow(NestedLoopJoin.Comparing(c.op), Keyed([KeyFrom(fp, c.left, ml)(l)], l),
          HashJoin.KeyBy(KeyFrom(fp, c.right, mr), rs)))
      == Filtered(fp, [AsExpr(c)], WithEach(Read(ml, l), ReadRows(mr, rs)))
    decreases rs
  {
    hide Joinable, CompareFields, Holds, KeyFrom, Read, Joined, AsExpr;
    JoinableParts(fp, c, ml, mr, [l], rs, n, k);
    JoinableWide(fp, c, ml, mr, [l], rs, n, k);
    if rs == [] {
    } else {
      var m, lf, rf := NestedLoopJoin.Comparing(c.op), KeyFrom(fp, c.left, ml), KeyFrom(fp, c.right, mr);
      assert ReadRows(mr, rs)[1..] == ReadRows(mr, rs[1..]);
      assert HashJoin.KeyBy(rf, rs)[1..] == HashJoin.KeyBy(rf, rs[1..]);
      LoopRowReads(fp, c, ml, mr, l, rs[1..], n, k);
      KeysAgree(fp, c, ml, mr, [l], rs, n, k, 0, 0);
      OneHolds(fp, AsExpr(c), EnvOf(Read(ml, l) + Read(mr, rs[0])));
      JoinedReads(ml, mr, l, rs[0]);
      var rest := LeftRow(m, Keyed([lf(l)], l), HashJoin.KeyBy(rf, rs[1..]));
      ReadRowsCat(Joined(ml, mr, n), [l + rs[0]], rest);
    }
  }

  /** A nested-loop join reads as the pairs on which its comparison holds. */
  lemma {:induction false} LoopReads(fp: Rounded, c: Comparison, ml: map<ColId, nat>, mr: map<ColId, nat>,
      ls: seq<Row>, rs: seq<Row>, n: nat, k: nat)
    requires Joinable(fp, c, ml, mr, ls, rs, n, k)
    ensures ReadRows(Joined(ml, mr, n),
        Nested(NestedLoopJoin.Comparing(c.op), HashJoin.KeyBy(KeyFrom(fp, c.left, ml), ls),
          HashJoin.KeyBy(KeyFrom(fp, c.right, mr), rs)))
      == Filtered(fp, [AsExpr(c)], Pairs(ReadRows(ml, ls), ReadRows(mr, rs)))
    decreases ls
  {
    hide Joinable, Holds, KeyFrom, Read, Joined, LeftRow, WithEach, AsExpr;
    JoinableParts(fp, c, ml, mr, ls, rs, n, k);
    if ls == [] {
    } else {
      var m, lf, rf := NestedLoopJoin.Comparing(c.op), KeyFrom(fp, c.left, ml), KeyFrom(fp, c.right, mr);
      var l, keyed := ls[0], HashJoin.KeyBy(rf, rs);
      assert ReadRows(ml, ls)[1..] == ReadRows(ml, ls[1..]);
      assert HashJoin.KeyBy(lf, ls)[1..] == HashJoin.KeyBy(lf, ls[1..]);
      LoopReads(fp, c, ml, mr, ls[1..], rs, n, k);
      LoopRowReads(fp, c, ml, mr, l, rs, n, k);
      FilteredCat(fp, [AsExpr(c)], WithEach(Read(ml, l), ReadRows(mr, rs)), Pairs(ReadRows(ml, ls[1..]), ReadRows(mr, rs)));
      ReadRowsCat(Joined(ml, mr, n), LeftRow(m, Keyed([lf(l)], l), keyed), Nested(m, HashJoin.KeyBy(lf, ls[1..]), keyed));
    }
  }

  /** The first left row beside the others. */
  lemma ProbeStep(lf: Row -> Field, ls: seq<Row>, x: Field, r: Row)
    requires ls != []
    ensures RightRow(SameKey, HashJoin.KeyBy(lf, ls), Keyed([x], r))
      == (if lf(ls[0]) == x then [ls[0] + r] else []) + RightRow(SameKey, HashJoin.KeyBy(lf, ls[1..]), Keyed([x], r))
  {
    assert HashJoin.KeyBy(lf, ls)[1..] == HashJoin.KeyBy(lf, ls[1..]);
    assert [lf(ls[0])] == [x] <==> lf(ls[0]) == x;
  }

  lemma FilterStep(fp: Rounded, e: Expr, ls: seq<Named>, r: Named)
    requires ls != []
    ensures Filtered(fp, [e], EachWith(ls, r))
      == (if Holds(fp, e, EnvOf(ls[0] + r)) then [ls[0] + r] else []) + Filtered(fp, [e], EachWith(ls[1..], r))
  {
    hide Holds, AllHold;
    OneHolds(fp, e, EnvOf(ls[0] + r));
    assert ([ls[0] + r] + EachWith(ls[1..], r))[1..] == EachWith(ls[1..], r);
  }

  lemma {:induction false} ProbeReads(fp: Rounded, c: Comparison, ml: map<ColId, nat>, mr: map<ColId, nat>,
      ls: seq<Row>, r: Row, n: nat, k: nat)
    requires Joinable(fp, c, ml, mr, ls, [r], n, k) && c.op == Eq
    ensures ReadRows(Joined(ml, mr, n),
        RightRow(SameKey, HashJoin.KeyBy(KeyFrom(fp, c.left, ml), ls), Keyed([KeyFrom(fp, c.right, mr)(r)], r)))
      == Filtered(fp, [AsExpr(c)], EachWith(ReadRows(ml, ls), Read(mr, r)))
    decreases ls
  {
    hide Joinable, Holds, KeyFrom, Read, Joined, AsExpr;
    JoinableParts(fp, c, ml, mr, ls, [r], n, k);
    JoinableWide(fp, c, ml, mr, ls, [r], n, k);
    if ls == [] {
    } else {
      hide RightRow, Filtered, EachWith, HashJoin.KeyBy;
      var lf, rf := KeyFrom(fp, c.left, ml), KeyFrom(fp, c.right, mr);
      assert ReadRows(ml, ls)[1..] == ReadRows(ml, ls[1..]);
      ProbeReads(fp, c, ml, mr, ls[1..], r, n, k);
      ProbeStep(lf, ls, rf(r), r);
      FilterStep(fp, AsExpr(c), ReadRows(ml, ls), Read(mr, r));
      KeysAgree(fp, c, ml, mr, ls, [r], n, k, 0, 0);
      JoinedReads(ml, mr, ls[0], r);
      var rest := RightRow(SameKey, HashJoin.KeyBy(lf, ls[1..]), Keyed([rf(r)], r));
      ReadRowsCat(Joined(ml, mr, n), [ls[0] + r], rest);
      ReadRowsCat(Joined(ml, mr, n), [], rest);
    }
  }

  /** A hash join reads as the pairs on which its equality holds, right rows outermost. */
  lemma {:induction false} HashReads(fp: Rounded, c: Comparison, ml: map<ColId, nat>, mr: map<ColId, nat>,
      ls: seq<Row>, rs: seq<Row>, n: nat, k: nat)
    requires Joinable(fp, c, ml, mr, ls, rs, n, k) && c.op == Eq
    ensures ReadRows(Joined(ml, mr, n),
        ByRight(SameKey, HashJoin.KeyBy(KeyFrom(fp, c.left, ml), ls), HashJoin.KeyBy(KeyFrom(fp, c.right, mr), rs)))
      == Filtered(fp, [AsExpr(c)], PairsByRight(ReadRows(ml, ls), ReadRows(mr, rs)))
    decreases rs
  {
    hide Joinable, Holds, KeyFrom, Read, Joined, RightRow, EachWith, AsExpr;
    JoinableParts(fp, c, ml, mr, ls, rs, n, k);
    if rs == [] {
    } else {
      var lf, rf := KeyFrom(fp, c.left, ml), KeyFrom(fp, c.right, mr);
      var r, keyed := rs[0], HashJoin.KeyBy(lf, ls);
      assert ReadRows(mr, rs)[1..] == ReadRows(mr, rs[1..]);
      assert HashJoin.KeyBy(rf, rs)[1..] == HashJoin.KeyBy(rf, rs[1..]);
      HashReads(fp, c, ml, mr, ls, rs[1..], n, k);
      ProbeReads(fp, c, ml, mr, ls, r, n, k);
      FilteredCat(fp, [AsExpr(c)], EachWith(ReadRows(ml, ls), Read(mr, r)), PairsByRight(ReadRows(ml, ls), ReadRows(mr, rs[1..])));
      ReadRowsCat(Joined(ml, mr, n), RightRow(SameKey, keyed, Keyed([rf(r)], r)), ByRight(SameKey, keyed, HashJoin.KeyBy(rf, rs[1..])));
    }
  }

  // ------------------------------------------------------------------ turning a predicate round

  /** A predicate that is not turned round, or whose operator is symmetric, decides as written. */
  lemma TurnedHolds(fp: Rounded, e: Expr, left: set<ColId>, env: Env)
    requires e.Binary? && Compares(e.op) && (Aligned(e, left) || Symmetric(e.op))
    ensures Holds(fp, AsExpr(Turned(e, left)), env) <==> Holds(fp, e, env)
  {
    if !Aligned(e, left) {
      var a, b := Value(fp, e.left, env), Value(fp, e.right, env);
      if a.Some? && b.Some? {
        SymmetricApply(fp, e.op, a.value, b.value);
      }
    }
  }

  lemma SymmetricApply(fp: Rounded, op: Op, a: Field, b: Field)
    requires Symmetric(op)
    ensures Apply(fp, op, a, b) == Apply(fp, op, b, a)
  {
  }

  lemma {:induction false} TurnedFilter(fp: Rounded, e: Expr, left: set<ColId>, rows: seq<Named>)
    requires e.Binary? && Compares(e.op) && (Aligned(e, left) || Symmetric(e.op))
    ensures Filtered(fp, [AsExpr(Turned(e, left))], rows) == Filtered(fp, [e], rows)
  {
    hide AllHold, Holds, AsExpr, Turned;
    if rows == [] {
    } else {
      TurnedFilter(fp, e, left, rows[1..]);
      TurnedHolds(fp, e, left, EnvOf(rows[0]));
      OneHolds(fp, AsExpr(Turned(e, left)), EnvOf(rows[0]));
      OneHolds(fp, e, EnvOf(rows[0]));
    }
  }
}
