/** What joins of keyed rows yield, as lists and as bags. */
module JoinSpec {
  import opened Bags
  import opened Base

  /** A row together with the join key computed from it. */
  datatype Keyed = Keyed(key: Key, row: Row)

  type Matcher = (Key, Key) -> bool

  predicate SameKey(a: Key, b: Key) {
    a == b
  }

  function Pair(m: Matcher, l: Keyed, r: Keyed): (out: seq<Row>) {
    if m(l.key, r.key) then [l.row + r.row] else []
  }

  /** The matches of one left row, in the order of the right rows. */
  function LeftRow(m: Matcher, l: Keyed, rs: seq<Keyed>): (out: seq<Row>) {
    if rs == [] then [] else Pair(m, l, rs[0]) + LeftRow(m, l, rs[1..])
  }

  /** The matches of one right row, in the order of the left rows. */
  function RightRow(m: Matcher, ls: seq<Keyed>, r: Keyed): (out: seq<Row>) {
    if ls == [] then [] else Pair(m, ls[0], r) + RightRow(m, ls[1..], r)
  }

  /** The join, left rows outermost. */
  function Nested(m: Matcher, ls: seq<Keyed>, rs: seq<Keyed>): (out: seq<Row>) {
    if ls == [] then [] else LeftRow(m, ls[0], rs) + Nested(m, ls[1..], rs)
  }

  /** The join, right rows outermost. */
  function ByRight(m: Matcher, ls: seq<Keyed>, rs: seq<Keyed>): (out: seq<Row>) {
    if rs == [] then [] else RightRow(m, ls, rs[0]) + ByRight(m, ls, rs[1..])
  }

  // ------------------------------------------------------------------ concatenation

  lemma {:induction false} LeftRowCat(m: Matcher, l: Keyed, a: seq<Keyed>, b: seq<Keyed>)
    ensures LeftRow(m, l, a + b) == LeftRow(m, l, a) + LeftRow(m, l, b)
  {
    hide Pair;
    if a == [] {
      assert a + b == b;
    } else {
      LeftRowCat(m, l, a[1..], b);
      assert (a + b)[1..] == a[1..] + b;
    }
  }

  lemma {:induction false} NestedCat(m: Matcher, a: seq<Keyed>, b: seq<Keyed>, rs: seq<Keyed>)
    ensures Nested(m, a + b, rs) == Nested(m, a, rs) + Nested(m, b, rs)
  {
    hide LeftRow;
    if a == [] {
      assert a + b == b;
    } else {
      NestedCat(m, a[1..], b, rs);
      assert (a + b)[1..] == a[1..] + b;
    }
  }

  lemma {:induction false} ByRightCat(m: Matcher, ls: seq<Keyed>, a: seq<Keyed>, b: seq<Keyed>)
    ensures ByRight(m, ls, a + b) == ByRight(m, ls, a) + ByRight(m, ls, b)
  {
    hide RightRow;
    if a == [] {
      assert a + b == b;
    } else {
      ByRightCat(m, ls, a[1..], b);
      assert (a + b)[1..] == a[1..] + b;
    }
  }

  // ------------------------------------------------------------------ order of the rows does not matter

  /** Which side is outermost does not change the rows produced. */
  lemma {:induction false} SidesAgree(m: Matcher, ls: seq<Keyed>, rs: seq<Keyed>)
    ensures multiset(Nested(m, ls, rs)) == multiset(ByRight(m, ls, rs))
  {
    if ls == [] {
      NoLefts(m, rs);
    } else {
      SidesAgree(m, ls[1..], rs);
      OneMoreLeft(m, ls, rs);
    }
  }

  lemma {:induction false} NoLefts(m: Matcher, rs: seq<Keyed>)
    ensures ByRight(m, [], rs) == []
  {
    if rs == [] {
    } else {
      NoLefts(m, rs[1..]);
    }
  }

  lemma {:induction false} OneMoreLeft(m: Matcher, ls: seq<Keyed>, rs: seq<Keyed>)
    requires ls != []
    ensures multiset(ByRight(m, ls, rs)) == multiset(LeftRow(m, ls[0], rs)) + multiset(ByRight(m, ls[1..], rs))
  {
    if rs == [] {
    } else {
      OneMoreLeft(m, ls, rs[1..]);
      assert multiset(ByRight(m, ls, rs)) == multiset(Pair(m, ls[0], rs[0])) + multiset(RightRow(m, ls[1..], rs[0]))
        + multiset(ByRight(m, ls, rs[1..]));
    }
  }

  /** Nested over lefts is decided by how often each left row occurs. */
  lemma {:induction false} NestedTakeOut(m: Matcher, ls: seq<Keyed>, i: nat, rs: seq<Keyed>)
    requires i < |ls|
    ensures multiset(Nested(m, ls, rs)) ==
      multiset(LeftRow(m, ls[i], rs)) + multiset(Nested(m, ls[..i] + ls[i + 1..], rs))
  {
    NestedCat(m, ls[..i], ls[i..], rs);
    NestedCat(m, ls[..i], ls[i + 1..], rs);
    assert ls == ls[..i] + ls[i..] && ls[i..][1..] == ls[i + 1..];
  }

  lemma {:induction false} ByRightTakeOut(m: Matcher, ls: seq<Keyed>, rs: seq<Keyed>, i: nat)
    requires i < |rs|
    ensures multiset(ByRight(m, ls, rs)) ==
      multiset(RightRow(m, ls, rs[i])) + multiset(ByRight(m, ls, rs[..i] + rs[i + 1..]))
  {
    ByRightCat(m, ls, rs[..i], rs[i..]);
    ByRightCat(m, ls, rs[..i], rs[i + 1..]);
    assert rs == rs[..i] + rs[i..] && rs[i..][1..] == rs[i + 1..];
  }

  lemma {:induction false} LeftsPermuted(m: Matcher, a: seq<Keyed>, b: seq<Keyed>, rs: seq<Keyed>)
    requires multiset(a) == multiset(b)
    ensures multiset(Nested(m, a, rs)) == multiset(Nested(m, b, rs))
    decreases |a|
  {
    if a == [] {
      assert |multiset(b)| == |b|;
    } else {
      var i := IndexOf(b, a[0]);
      SameRest(a, b, i);
      LeftsPermuted(m, a[1..], b[..i] + b[i + 1..], rs);
      NestedTakeOut(m, b, i, rs);
    }
  }

  lemma {:induction false} RightsPermuted(m: Matcher, ls: seq<Keyed>, a: seq<Keyed>, b: seq<Keyed>)
    requires multiset(a) == multiset(b)
    ensures multiset(ByRight(m, ls, a)) == multiset(ByRight(m, ls, b))
    decreases |a|
  {
    if a == [] {
      assert |multiset(b)| == |b|;
    } else {
      var i := IndexOf(b, a[0]);
      SameRest(a, b, i);
      RightsPermuted(m, ls, a[1..], b[..i] + b[i + 1..]);
      ByRightTakeOut(m, ls, b, i);
    }
  }

  /** The rows a join produces depend on its inputs as bags only. */
  lemma JoinPermuted(m: Matcher, ls: seq<Keyed>, rs: seq<Keyed>, ls': seq<Keyed>, rs': seq<Keyed>)
    requires multiset(ls) == multiset(ls') && multiset(rs) == multiset(rs')
    ensures multiset(Nested(m, ls, rs)) == multiset(Nested(m, ls', rs'))
  {
    LeftsPermuted(m, ls, ls', rs);
    SidesAgree(m, ls', rs);
    RightsPermuted(m, ls', rs, rs');
    SidesAgree(m, ls', rs');
  }
}
