/** The nested-loop join operator: for each left row, the right child from its start. */
module NestedLoopJoin {
  import opened Base
  import opened Exprs
  import opened JoinSpec
  import opened HashJoin

  function Comparing(op: Op): (m: Matcher) {
    (a: Key, b: Key) => |a| == 1 && |b| == 1 && CompareFields(op, a[0], b[0]) == Some(true)
  }

  /** One right row more for the current left row. */
  lemma LeftRowAt(op: Op, leftExpr: Row -> Field, rightExpr: Row -> Field, left: Row, rights: seq<Row>, i: nat)
    requires i <= |rights|
    ensures var l, rs := Keyed([leftExpr(left)], left), KeyBy(rightExpr, rights);
      var row := LeftRow(Comparing(op), l, rs[i..]);
      if i == |rights| then row == []
      else if CompareFields(op, leftExpr(left), rightExpr(rights[i])) == Some(true) then
        row == [left + rights[i]] + LeftRow(Comparing(op), l, rs[i + 1..])
      else
        row == LeftRow(Comparing(op), l, rs[i + 1..])
  {
    var rs := KeyBy(rightExpr, rights);
    if i < |rights| {
      assert rs[i..][0] == rs[i] && rs[i..][1..] == rs[i + 1..];
    }
  }

  class NestedLoopJoin {
    const op: Op
    const leftExpr: Row -> Field
    const rightExpr: Row -> Field
    /** The rows of each child, and how many of them it has handed out. */
    var lefts: seq<Row>
    var leftPos: nat
    var rights: seq<Row>
    var rightPos: nat
    var isOpen: bool
    var current: Option<Row>

    ghost predicate Valid()
      reads this
    {
      isOpen && leftPos <= |lefts| && rightPos <= |rights|
    }

    ghost function Rest(): (out: seq<Row>)
      requires Valid()
      reads this
    {
      var m, rs := Comparing(op), KeyBy(rightExpr, rights);
      if current.None? then []
      else
        LeftRow(m, Keyed([leftExpr(current.value)], current.value), rs[rightPos..])
        + Nested(m, KeyBy(leftExpr, lefts[leftPos..]), rs)
    }

    constructor (op: Op, leftExpr: Row -> Field, rightExpr: Row -> Field)
      ensures this.op == op && this.leftExpr == leftExpr && this.rightExpr == rightExpr && !isOpen
    {
      this.op, this.leftExpr, this.rightExpr := op, leftExpr, rightExpr;
      lefts, leftPos, rights, rightPos, isOpen, current := [], 0, [], 0, false, None;
    }

    /** The next row of the left child; the right child stands at its start. */
    method NextLeft()
      requires Valid() && rightPos == 0
      modifies this`current, this`leftPos
      ensures Valid()
      ensures Rest() == Nested(Comparing(op), KeyBy(leftExpr, lefts[old(leftPos)..]), KeyBy(rightExpr, rights))
      ensures |lefts| - leftPos + (if current.Some? then 1 else 0) == |lefts| - old(leftPos)
    {
      ghost var rs := KeyBy(rightExpr, rights);
      assert rs[0..] == rs;
      if leftPos < |lefts| {
        current := Some(lefts[leftPos]);
        ghost var ls, l := lefts[leftPos..], lefts[leftPos];
        leftPos := leftPos + 1;
        assert KeyBy(leftExpr, ls)[0] == Keyed([leftExpr(l)], l);
        assert KeyBy(leftExpr, ls)[1..] == KeyBy(leftExpr, lefts[leftPos..]);
      } else {
        current := None;
      }
    }

    method Open(leftRows: seq<Row>, rightRows: seq<Row>)
      requires !isOpen
      modifies this
      ensures Valid() && lefts == leftRows && rights == rightRows
      ensures Rest() == Nested(Comparing(op), KeyBy(leftExpr, leftRows), KeyBy(rightExpr, rightRows))
    {
      lefts, leftPos, rights, rightPos, isOpen := leftRows, 0, rightRows, 0, true;
      NextLeft();
      assert lefts[0..] == lefts;
    }

    method Next() returns (row: Option<Row>)
      requires Valid()
      modifies this`current, this`leftPos, this`rightPos
      ensures Valid()
      ensures row == if old(Rest()) == [] then None else Some(old(Rest())[0])
      ensures Rest() == if old(Rest()) == [] then [] else old(Rest())[1..]
    {
      hide LeftRow, Nested, KeyBy, CompareFields, Comparing;
      while current.Some?
        invariant Valid() && Rest() == old(Rest())
        decreases |lefts| - leftPos + (if current.Some? then 1 else 0), |rights| - rightPos
      {
        var left := current.value;
        LeftRowAt(op, leftExpr, rightExpr, left, rights, rightPos);
        if rightPos < |rights| {
          var right := rights[rightPos];
          rightPos := rightPos + 1;
          if CompareFields(op, leftExpr(left), rightExpr(right)) == Some(true) {
            row := Some(left + right);
            return;
          }
        } else {
          rightPos := 0;
          NextLeft();
        }
      }
      row := None;
    }

    method Rewind()
      requires Valid()
      modifies this`current, this`leftPos, this`rightPos
      ensures Valid()
      ensures Rest() == Nested(Comparing(op), KeyBy(leftExpr, lefts), KeyBy(rightExpr, rights))
    {
      leftPos, rightPos := 0, 0;
      NextLeft();
      assert lefts[0..] == lefts;
    }
  }
}
