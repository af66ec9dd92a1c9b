/** The hash join operator: buckets of left rows, probed by one right row after the other. */
module HashJoin {
  import opened Base
  import opened JoinSpec

  function KeyBy(expr: Row -> Field, rows: seq<Row>): (s: seq<Keyed>)
    ensures |s| == |rows|
  {
    seq(|rows|, i requires 0 <= i < |rows| => Keyed([expr(rows[i])], rows[i]))
  }

  /** The left rows with key `k`, in order. */
  function Bucket(ls: seq<Keyed>, k: Key): (rows: seq<Row>) {
    if ls == [] then [] else Bucket(ls[..|ls| - 1], k) + if ls[|ls| - 1].key == k then [ls[|ls| - 1].row] else []
  }

  lemma {:induction false} RightRowCat(m: Matcher, a: seq<Keyed>, b: seq<Keyed>, r: Keyed)
    ensures RightRow(m, a + b, r) == RightRow(m, a, r) + RightRow(m, b, r)
  {
    hide Pair;
    if a == [] {
      assert a + b == b;
    } else {
      RightRowCat(m, a[1..], b, r);
      assert (a + b)[1..] == a[1..] + b;
    }
  }

  /** A right row is joined with the bucket of its key. */
  lemma {:induction false} RightRowIsBucket(ls: seq<Keyed>, r: Keyed)
    ensures |RightRow(SameKey, ls, r)| == |Bucket(ls, r.key)|
    ensures forall i | 0 <= i < |Bucket(ls, r.key)| :: RightRow(SameKey, ls, r)[i] == Bucket(ls, r.key)[i] + r.row
  {
    if ls == [] {
    } else {
      var n := |ls| - 1;
      RightRowIsBucket(ls[..n], r);
      RightRowCat(SameKey, ls[..n], ls[n..], r);
      assert ls == ls[..n] + ls[n..] && ls[n..][1..] == [];
    }
  }

  /** Every bucket holds the left rows of its key, in order; keys without rows have none. */
  ghost predicate Buckets(m: map<Field, seq<Row>>, ls: seq<Keyed>) {
    forall f: Field :: Bucket(ls, [f]) == if f in m then m[f] else []
  }

  lemma BucketAdded(m: map<Field, seq<Row>>, ls: seq<Keyed>, key: Field, t: Row)
    requires Buckets(m, ls)
    ensures Buckets(m[key := (if key in m then m[key] else []) + [t]], ls + [Keyed([key], t)])
  {
    var ls' := ls + [Keyed([key], t)];
    assert ls'[..|ls|] == ls;
    forall f: Field ensures Bucket(ls', [f]) == Bucket(ls, [f]) + if f == key then [t] else [] {
      assert [key] == [f] <==> [key][0] == [f][0];
    }
  }

  lemma NoBuckets(ls: seq<Keyed>)
    requires ls == []
    ensures Buckets(map[], ls)
  {
  }

  method Build(expr: Row -> Field, rows: seq<Row>) returns (m: map<Field, seq<Row>>)
    ensures Buckets(m, KeyBy(expr, rows))
  {
    hide Buckets, Bucket;
    m := map[];
    NoBuckets(KeyBy(expr, rows[..0]));
    for i := 0 to |rows|
      invariant Buckets(m, KeyBy(expr, rows[..i]))
    {
      var key := expr(rows[i]);
      BucketAdded(m, KeyBy(expr, rows[..i]), key, rows[i]);
      assert KeyBy(expr, rows[..i + 1]) == KeyBy(expr, rows[..i]) + [Keyed([key], rows[i])];
      m := m[key := (if key in m then m[key] else []) + [rows[i]]];
    }
    assert rows[..|rows|] == rows;
  }

  class HashEqJoin {
    const leftExpr: Row -> Field
    const rightExpr: Row -> Field
    /** The rows of the right child, and how many of them it has handed out. */
    var rights: seq<Row>
    var rightPos: nat
    var isOpen: bool
    var joinMap: map<Field, seq<Row>>
    var current: Option<Row>
    var currentIdx: nat

    ghost var lefts: seq<Keyed>

    ghost predicate Valid()
      reads this
    {
      && isOpen && Buckets(joinMap, lefts) && rightPos <= |rights|
      && (current.Some? ==> currentIdx <= |Bucket(lefts, [rightExpr(current.value)])|)
    }

    ghost function Rest(): (out: seq<Row>)
      requires Valid()
      reads this
    {
      if current.None? then []
      else
        var r := Keyed([rightExpr(current.value)], current.value);
        RightRowIsBucket(lefts, r);
        RightRow(SameKey, lefts, r)[currentIdx..] + ByRight(SameKey, lefts, KeyBy(rightExpr, rights[rightPos..]))
    }

    constructor (leftExpr: Row -> Field, rightExpr: Row -> Field)
      ensures this.leftExpr == leftExpr && this.rightExpr == rightExpr && !isOpen
    {
      this.leftExpr, this.rightExpr := leftExpr, rightExpr;
      rights, rightPos, isOpen, joinMap, current, currentIdx := [], 0, false, map[], None, 0;
      lefts := [];
    }

    /** The next row of the right child. */
    method Advance()
      requires isOpen && Buckets(joinMap, lefts) && rightPos <= |rights|
      modifies this`current, this`currentIdx, this`rightPos
      ensures Valid() && Rest() == ByRight(SameKey, lefts, KeyBy(rightExpr, rights[old(rightPos)..]))
      ensures |rights| - rightPos + (if current.Some? then 1 else 0) == |rights| - old(rightPos)
    {
      currentIdx := 0;
      if rightPos < |rights| {
        current := Some(rights[rightPos]);
        ghost var rs, r := rights[rightPos..], rights[rightPos];
        rightPos := rightPos + 1;
        assert KeyBy(rightExpr, rs)[0] == Keyed([rightExpr(r)], r);
        assert KeyBy(rightExpr, rs)[1..] == KeyBy(rightExpr, rights[rightPos..]);
      } else {
        current := None;
        assert KeyBy(rightExpr, rights[rightPos..]) == [];
      }
    }

    /** Build the buckets from the left child and fetch the first right row. */
    method Open(leftRows: seq<Row>, rightRows: seq<Row>)
      requires !isOpen
      modifies this
      ensures Valid() && lefts == KeyBy(leftExpr, leftRows) && rights == rightRows
      ensures Rest() == ByRight(SameKey, lefts, KeyBy(rightExpr, rightRows))
    {
      hide Buckets;
      var m := Build(leftExpr, leftRows);
      joinMap, lefts := m, KeyBy(leftExpr, leftRows);
      rights, rightPos, isOpen := rightRows, 0, true;
      Advance();
      assert rights[0..] == rightRows;
    }

    method Next() returns (row: Option<Row>)
      requires Valid()
      modifies this`current, this`currentIdx, this`rightPos
      ensures Valid()
      ensures row == if old(Rest()) == [] then None else Some(old(Rest())[0])
      ensures Rest() == if old(Rest()) == [] then [] else old(Rest())[1..]
    {
      hide Bucket, RightRow, ByRight, KeyBy;
      while current.Some?
        invariant Valid() && Rest() == old(Rest())
        decreases |rights| - rightPos, current.Some?
      {
        var right := current.value;
        var key := rightExpr(right);
        RightRowIsBucket(lefts, Keyed([key], right));
        if key in joinMap && currentIdx < |joinMap[key]| {
          row := Some(joinMap[key][currentIdx] + right);
          currentIdx := currentIdx + 1;
          return;
        }
        Advance();
      }
      row := None;
    }

    method Rewind()
      requires Valid()
      modifies this`current, this`currentIdx, this`rightPos
      ensures Valid() && Rest() == ByRight(SameKey, lefts, KeyBy(rightExpr, rights))
    {
      rightPos := 0;
      Advance();
      assert rights[0..] == rights;
    }
  }
}
