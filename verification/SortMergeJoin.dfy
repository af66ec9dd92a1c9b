/** The sort-merge join operator: six cursors over two sorted vectors. */
module SortMergeJoin {
  import opened Base
  import opened JoinSpec
  import opened MergeSpec

  /** One sort column: how to compute it from a row, and whether it is ascending. */
  type Column = (Row -> Field, bool)

  function KeyOf(cols: seq<Column>, row: Row): (k: Key)
    ensures |k| == |cols|
  {
    seq(|cols|, i requires 0 <= i < |cols| => cols[i].0(row))
  }

  function FlagsOf(cols: seq<Column>): (asc: Flags)
    ensures |asc| == |cols|
  {
    seq(|cols|, i requires 0 <= i < |cols| => cols[i].1)
  }

  function KeyAll(cols: seq<Column>, rows: seq<Row>): (s: seq<Keyed>)
    ensures |s| == |rows| && Sized(|cols|, s)
  {
    seq(|rows|, i requires 0 <= i < |rows| => Keyed(KeyOf(cols, rows[i]), rows[i]))
  }

  // ------------------------------------------------------------------ pairing up two runs

  lemma {:induction false} RowOf(l: Keyed, rs: seq<Keyed>)
    ensures |LeftRow(Any, l, rs)| == |rs|
    ensures forall j | 0 <= j < |rs| :: LeftRow(Any, l, rs)[j] == l.row + rs[j].row
  {
    if rs == [] {
    } else {
      RowOf(l, rs[1..]);
    }
  }

  lemma CrossStep(ls: seq<Keyed>, rs: seq<Keyed>, j: nat)
    requires ls != [] && j < |rs|
    ensures j < |Nested(Any, ls, rs)| && Nested(Any, ls, rs)[j] == ls[0].row + rs[j].row
    ensures j + 1 == |rs| ==> Nested(Any, ls, rs)[j + 1..] == Nested(Any, ls[1..], rs)
  {
    RowOf(ls[0], rs);
  }

  /** The end of the run of equal keys that starts at `first`. */
  method RunEnd(asc: Flags, s: seq<Keyed>, first: nat) returns (end: nat)
    requires Sized(|asc|, s) && first < |s|
    ensures end == first + RunLength(s[first].key, s[first..])
  {
    end := first;
    var going := true;
    while going && end < |s|
      invariant first <= end <= |s|
      invariant going ==> first + RunLength(s[first].key, s[first..]) == end + RunLength(s[first].key, s[end..])
      invariant !going ==> first + RunLength(s[first].key, s[first..]) == end
      decreases |s| - end, going
    {
      var o := CompareKeys(asc, s[first].key, s[end].key);
      if o == Equal {
        assert s[end..][1..] == s[end + 1..];
        end := end + 1;
      } else {
        going := false;
      }
    }
  }

  lemma RunBounds(s: seq<Keyed>, first: nat)
    requires first < |s|
    ensures var n := RunLength(s[first].key, s[first..]);
      1 <= n <= |s| - first && s[first..][..n] == s[first..first + n] && s[first..][n..] == s[first + n..]
  {
  }

  /** Skip from `l0` and `r0` to the next two runs of an equal key, or to the end of a side. */
  method ScanRuns(asc: Flags, ls: seq<Keyed>, rs: seq<Keyed>, l0: nat, r0: nat)
    returns (l: nat, r: nat, lEnd: nat, rEnd: nat)
    requires Sized(|asc|, ls) && Sized(|asc|, rs) && l0 <= |ls| && r0 <= |rs|
    ensures l <= |ls| && r <= |rs|
    ensures l < |ls| && r < |rs| ==>
      && l < lEnd <= |ls| && r < rEnd <= |rs|
      && Merge(asc, ls[l0..], rs[r0..]) == Nested(Any, ls[l..lEnd], rs[r..rEnd]) + Merge(asc, ls[lEnd..], rs[rEnd..])
    ensures l == |ls| || r == |rs| ==> (lEnd, rEnd) == (l0, r0) && Merge(asc, ls[l0..], rs[r0..]) == []
  {
    hide Nested, Merge, RunLength, FlagLe;
    l, r, lEnd, rEnd := l0, r0, l0, r0;
    while l < |ls| && r < |rs|
      invariant l <= |ls| && r <= |rs| && (lEnd, rEnd) == (l0, r0)
      invariant Merge(asc, ls[l0..], rs[r0..]) == Merge(asc, ls[l..], rs[r..])
    {
      var o := CompareKeys(asc, ls[l].key, rs[r].key);
      MergeAt(asc, ls, rs, l, r);
      match o {
        case Less => l := l + 1;
        case Greater => r := r + 1;
        case Equal =>
          lEnd := RunEnd(asc, ls, l);
          rEnd := RunEnd(asc, rs, r);
          return;
      }
    }
    MergeEnds(asc, ls[l..], rs[r..]);
  }

  lemma MergeEnds(asc: Flags, ls: seq<Keyed>, rs: seq<Keyed>)
    requires Sized(|asc|, ls) && Sized(|asc|, rs) && (ls == [] || rs == [])
    ensures Merge(asc, ls, rs) == []
  {
  }

  /** One step of the merge, in terms of positions. */
  lemma MergeAt(asc: Flags, ls: seq<Keyed>, rs: seq<Keyed>, l: nat, r: nat)
    requires Sized(|asc|, ls) && Sized(|asc|, rs) && l < |ls| && r < |rs|
    ensures 1 <= RunLength(ls[l].key, ls[l..]) <= |ls| - l && 1 <= RunLength(rs[r].key, rs[r..]) <= |rs| - r
    ensures var all := Merge(asc, ls[l..], rs[r..]);
      match Compare(asc, ls[l].key, rs[r].key)
      case Less => all == Merge(asc, ls[l + 1..], rs[r..])
      case Greater => all == Merge(asc, ls[l..], rs[r + 1..])
      case Equal =>
        var n, m := l + RunLength(ls[l].key, ls[l..]), r + RunLength(rs[r].key, rs[r..]);
        all == Nested(Any, ls[l..n], rs[r..m]) + Merge(asc, ls[n..], rs[m..])
  {
    assert ls[l..][1..] == ls[l + 1..] && rs[r..][1..] == rs[r + 1..];
    RunBounds(ls, l);
    RunBounds(rs, r);
  }

  /** The pairs of two runs still to come when the cursors stand at `l` and `r`. */
  function Due(ls: seq<Keyed>, rs: seq<Keyed>, l: nat, lEnd: nat, r0: nat, rEnd: nat, r: nat): (out: seq<Row>)
    requires l < lEnd <= |ls| && r0 <= r < rEnd <= |rs|
  {
    CrossStep(ls[l..lEnd], rs[r0..rEnd], r - r0);
    Nested(Any, ls[l..lEnd], rs[r0..rEnd])[r - r0..]
  }

  lemma NoPairs(ls: seq<Keyed>, rs: seq<Keyed>)
    requires ls == []
    ensures Nested(Any, ls, rs) == []
  {
  }

  /** Moving the cursors on by one pair takes one row off what is to come. */
  lemma CursorStep(ls: seq<Keyed>, rs: seq<Keyed>, l: nat, lEnd: nat, r0: nat, rEnd: nat, r: nat)
    requires l < lEnd <= |ls| && r0 <= r < rEnd <= |rs|
    ensures Due(ls, rs, l, lEnd, r0, rEnd, r) ==
      [ls[l].row + rs[r].row] +
      if r + 1 < rEnd then Due(ls, rs, l, lEnd, r0, rEnd, r + 1)
      else if l + 1 < lEnd then Due(ls, rs, l + 1, lEnd, r0, rEnd, r0)
      else []
  {
    var a, b, j := ls[l..lEnd], rs[r0..rEnd], r - r0;
    var out := Nested(Any, a, b);
    CrossStep(a, b, j);
    assert a[1..] == ls[l + 1..lEnd] && a[0] == ls[l] && b[j] == rs[r];
    hide Nested;
    if l + 1 == lEnd {
      NoPairs(a[1..], b);
    }
    assert out[j..] == [out[j]] + out[j + 1..];
    if j + 1 == |b| && l + 1 < lEnd {
      CrossStep(a[1..], b, 0);
    }
  }

  class SortMergeJoin {
    const leftExpr: seq<Column>
    const rightExpr: seq<Column>
    var willRewind: bool
    var isOpen: bool
    var left: seq<Keyed>
    var right: seq<Keyed>
    var lFirst: nat
    var lEnd: nat
    var lCursor: nat
    var rFirst: nat
    var rEnd: nat
    var rCursor: nat

    /** The sorted inputs, as they were read. */
    ghost var leftAll: seq<Keyed>
    ghost var rightAll: seq<Keyed>

    ghost predicate Shaped()
      reads this
    {
      && |leftExpr| == |rightExpr|
      && Sized(|leftExpr|, left) && Sized(|leftExpr|, right)
      && Sized(|leftExpr|, leftAll) && Sized(|leftExpr|, rightAll)
      && lEnd <= |left| && rEnd <= |right|
      && (willRewind ==> left == leftAll && right == rightAll)
    }

    /** A pair of the current two runs is due. */
    predicate Matching()
      reads this
    {
      lFirst <= lCursor < lEnd && rFirst <= rCursor < rEnd
    }

    ghost predicate Valid()
      reads this
    {
      Shaped() && isOpen
    }

    /** The rows still to come. */
    ghost function Rest(): (out: seq<Row>)
      requires Shaped()
      reads this
    {
      var later := Merge(FlagsOf(leftExpr), left[lEnd..], right[rEnd..]);
      if Matching() then
        Due(left, right, lCursor, lEnd, rFirst, rEnd, rCursor) + later
      else
        later
    }

    /** The two ranges are used up; without rewinding, everything before their ends is dropped. */
    method FinishRange()
      requires Valid() && !Matching()
      modifies this
      ensures Valid() && !Matching() && Rest() == old(Rest())
      ensures lFirst == lCursor == lEnd && rFirst == rCursor == rEnd
      ensures (leftAll, rightAll, willRewind) == old((leftAll, rightAll, willRewind))
    {
      hide Due, Merge;
      lFirst, lCursor := lEnd, lEnd;
      rFirst, rCursor := rEnd, rEnd;
      if !willRewind {
        left := left[lEnd..];
        lFirst, lEnd, lCursor := 0, 0, 0;
        right := right[rEnd..];
        rFirst, rEnd, rCursor := 0, 0, 0;
        assert left[0..] == left && right[0..] == right;
      }
    }

    /** Advance to the next two runs of an equal key. */
    method FindRange()
      requires Valid() && !Matching() && lFirst == lCursor == lEnd && rFirst == rCursor == rEnd
      modifies this
      ensures Valid() && Rest() == old(Rest())
      ensures lFirst <= |left| && rFirst <= |right| && (Matching() <==> lFirst < |left| && rFirst < |right|)
      ensures !Matching() ==> Rest() == []
      ensures (leftAll, rightAll, willRewind) == old((leftAll, rightAll, willRewind))
    {
      hide Nested, Merge;
      var l, r, le, re := ScanRuns(FlagsOf(leftExpr), left, right, lFirst, rFirst);
      if l < |left| && r < |right| {
        lCursor, rCursor := l, r;
      }
      lFirst, lEnd, rFirst, rEnd := l, le, r, re;
    }

    /** The next row, or nothing once every pair is out. */
    method Next() returns (row: Option<Row>)
      requires Valid()
      modifies this
      ensures Valid()
      ensures row == if old(Rest()) == [] then None else Some(old(Rest())[0])
      ensures Rest() == if old(Rest()) == [] then [] else old(Rest())[1..]
      ensures (leftAll, rightAll, willRewind) == old((leftAll, rightAll, willRewind))
    {
      while true
        invariant Valid() && Rest() == old(Rest())
        invariant (leftAll, rightAll, willRewind) == old((leftAll, rightAll, willRewind))
        decreases !Matching()
      {
        if Matching() {
          row := Emit();
          return;
        }
        FinishRange();
        FindRange();
        if lFirst == |left| || rFirst == |right| {
          return None;
        }
      }
    }

    /** The pair under the cursors. */
    method Emit() returns (row: Option<Row>)
      requires Valid() && Matching()
      modifies this
      ensures Valid() && old(Rest()) != [] && row == Some(old(Rest())[0]) && Rest() == old(Rest())[1..]
      ensures (leftAll, rightAll, willRewind) == old((leftAll, rightAll, willRewind))
    {
      hide Due, Merge;
      CursorStep(left, right, lCursor, lEnd, rFirst, rEnd, rCursor);
      row := Some(left[lCursor].row + right[rCursor].row);
      rCursor := rCursor + 1;
      if rCursor == rEnd {
        rCursor := rFirst;
        lCursor := lCursor + 1;
      }
    }

    /** Start over; the inputs are only complete if rewinding was asked for. */
    method Rewind()
      requires Valid()
      modifies this
      ensures Valid() && Rest() == Merge(FlagsOf(leftExpr), left, right)
      ensures willRewind ==> Rest() == Merge(FlagsOf(leftExpr), leftAll, rightAll)
      ensures (left, right, leftAll, rightAll, willRewind) == old((left, right, leftAll, rightAll, willRewind))
    {
      lFirst, lEnd, lCursor := 0, 0, 0;
      rFirst, rEnd, rCursor := 0, 0, 0;
      assert left[0..] == left && right[0..] == right;
    }

    constructor (leftExpr: seq<Column>, rightExpr: seq<Column>)
      requires |leftExpr| == |rightExpr|
      ensures this.leftExpr == leftExpr && this.rightExpr == rightExpr && Unread()
    {
      this.leftExpr, this.rightExpr := leftExpr, rightExpr;
      willRewind, isOpen := true, false;
      left, right, leftAll, rightAll := [], [], [], [];
      lFirst, lEnd, lCursor, rFirst, rEnd, rCursor := 0, 0, 0, 0, 0, 0;
    }

    ghost predicate Unread()
      reads this
    {
      && |leftExpr| == |rightExpr| && !isOpen && left == right == leftAll == rightAll == []
      && lFirst == lEnd == lCursor == 0 && rFirst == rEnd == rCursor == 0
    }

    /** Read and sort both children. */
    method Open(leftRows: seq<Row>, rightRows: seq<Row>)
      requires Unread() || Valid()
      modifies this
      ensures Valid() && (old(isOpen) ==> Rest() == old(if isOpen then Rest() else []))
      ensures !old(isOpen) ==>
        && leftAll == SortKeyed(FlagsOf(leftExpr), KeyAll(leftExpr, leftRows))
        && rightAll == SortKeyed(FlagsOf(rightExpr), KeyAll(rightExpr, rightRows))
        && Rest() == Merge(FlagsOf(leftExpr), leftAll, rightAll)
      ensures willRewind == old(willRewind)
    {
      if !isOpen {
        var ls := ReadSorted(leftExpr, leftRows);
        var rs := ReadSorted(rightExpr, rightRows);
        left, right, isOpen := ls, rs, true;
        leftAll, rightAll := ls, rs;
        assert left[0..] == left && right[0..] == right;
      }
    }

    method Configure(rewinds: bool)
      requires Unread()
      modifies this`willRewind
      ensures Unread() && willRewind == rewinds
    {
      willRewind := rewinds;
    }

    /** Every row still to come. */
    method Drain() returns (out: seq<Row>)
      requires Valid()
      modifies this
      ensures Valid() && out == old(Rest()) && Rest() == []
      ensures (leftAll, rightAll, willRewind) == old((leftAll, rightAll, willRewind))
    {
      hide Rest, Shaped;
      out := [];
      var row := Next();
      while row.Some?
        invariant Valid() && (leftAll, rightAll, willRewind) == old((leftAll, rightAll, willRewind))
        invariant out + (if row.Some? then [row.value] else []) + Rest() == old(Rest())
        invariant row.None? ==> Rest() == []
        decreases |Rest()|, row.Some?
      {
        out := out + [row.value];
        row := Next();
      }
    }
  }

  method ReadSorted(cols: seq<Column>, rows: seq<Row>) returns (s: seq<Keyed>)
    ensures s == SortKeyed(FlagsOf(cols), KeyAll(cols, rows))
  {
    var data: seq<Keyed> := [];
    for i := 0 to |rows|
      invariant data == KeyAll(cols, rows[..i])
    {
      var key: Key := [];
      for j := 0 to |cols|
        invariant key == KeyOf(cols, rows[i])[..j]
      {
        key := key + [cols[j].0(rows[i])];
      }
      assert key == KeyOf(cols, rows[i]) && rows[..i + 1] == rows[..i] + [rows[i]];
      data := data + [Keyed(key, rows[i])];
    }
    assert rows[..|rows|] == rows;
    s := SortKeyed(FlagsOf(cols), data);
  }

  /** The operator, or an error when the two keys differ in length or are empty. */
  method New(leftExpr: seq<Column>, rightExpr: seq<Column>) returns (join: SortMergeJoin?)
    ensures join == null <==> |leftExpr| != |rightExpr| || leftExpr == []
    ensures join != null ==> fresh(join) && join.Unread() && join.leftExpr == leftExpr && join.rightExpr == rightExpr
  {
    if |leftExpr| != |rightExpr| || leftExpr == [] {
      return null;
    }
    join := new SortMergeJoin(leftExpr, rightExpr);
  }

  /**
   * A whole execution, consuming or rewindable. With the same flags on both sides it yields every
   * pair of rows with equal keys, in the order of the sorted left input; a rewind replays it.
   */
  method Execute(leftExpr: seq<Column>, rightExpr: seq<Column>, rewinds: bool, leftRows: seq<Row>, rightRows: seq<Row>)
    returns (out: seq<Row>, again: seq<Row>)
    requires |leftExpr| == |rightExpr| && leftExpr != []
    ensures FlagsOf(leftExpr) == FlagsOf(rightExpr) ==>
      && out == Nested(SameKey, SortKeyed(FlagsOf(leftExpr), KeyAll(leftExpr, leftRows)),
                                SortKeyed(FlagsOf(rightExpr), KeyAll(rightExpr, rightRows)))
      && multiset(out) == multiset(Nested(SameKey, KeyAll(leftExpr, leftRows), KeyAll(rightExpr, rightRows)))
    ensures rewinds ==> again == out
  {
    var join := New(leftExpr, rightExpr);
    join.Configure(rewinds);
    join.Open(leftRows, rightRows);
    out := join.Drain();
    join.Rewind();
    again := join.Drain();
    if FlagsOf(leftExpr) == FlagsOf(rightExpr) {
      SameFlagsJoin(FlagsOf(leftExpr), KeyAll(leftExpr, leftRows), KeyAll(rightExpr, rightRows));
    }
  }
}
