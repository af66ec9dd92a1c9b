/** The join operators agree on equalities. */
module Joins {
  import opened Base
  import opened Exprs
  import opened JoinSpec
  import opened MergeSpec
  import HashJoin
  import NestedLoopJoin
  import SortMergeJoin

  lemma {:induction false} EqRow(l: Keyed, rs: seq<Keyed>)
    requires |l.key| == 1 && Sized(1, rs)
    ensures LeftRow(NestedLoopJoin.Comparing(Eq), l, rs) == LeftRow(SameKey, l, rs)
  {
    if rs == [] {
    } else {
      EqRow(l, rs[1..]);
      assert l.key == rs[0].key <==> l.key[0] == rs[0].key[0];
    }
  }

  lemma {:induction false} EqNested(ls: seq<Keyed>, rs: seq<Keyed>)
    requires Sized(1, ls) && Sized(1, rs)
    ensures Nested(NestedLoopJoin.Comparing(Eq), ls, rs) == Nested(SameKey, ls, rs)
  {
    if ls == [] {
    } else {
      EqNested(ls[1..], rs);
      EqRow(ls[0], rs);
    }
  }

  /** What each operator yields over the same inputs and keys, as its `Rest` says when it is opened. */
  lemma OperatorsAgree(leftExpr: Row -> Field, rightExpr: Row -> Field, ascending: bool, lefts: seq<Row>,
      rights: seq<Row>)
    ensures var ls, rs := HashJoin.KeyBy(leftExpr, lefts), HashJoin.KeyBy(rightExpr, rights);
      && Sized(1, ls) && Sized(1, rs)
      && ls == SortMergeJoin.KeyAll([(leftExpr, ascending)], lefts)
      && rs == SortMergeJoin.KeyAll([(rightExpr, ascending)], rights)
      && multiset(ByRight(SameKey, ls, rs)) == multiset(Nested(NestedLoopJoin.Comparing(Eq), ls, rs))
      && multiset(ByRight(SameKey, ls, rs))
         == multiset(Merge([ascending], SortKeyed([ascending], ls), SortKeyed([ascending], rs)))
  {
    var ls, rs := HashJoin.KeyBy(leftExpr, lefts), HashJoin.KeyBy(rightExpr, rights);
    OneKey(leftExpr, ascending, lefts);
    OneKey(rightExpr, ascending, rights);
    SidesAgree(SameKey, ls, rs);
    EqNested(ls, rs);
    SameFlagsJoin([ascending], ls, rs);
  }

  lemma OneKey(expr: Row -> Field, ascending: bool, rows: seq<Row>)
    ensures HashJoin.KeyBy(expr, rows) == SortMergeJoin.KeyAll([(expr, ascending)], rows)
  {
    forall i | 0 <= i < |rows| ensures [expr(rows[i])] == SortMergeJoin.KeyOf([(expr, ascending)], rows[i]) {
    }
  }
}
