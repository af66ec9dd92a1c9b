/** What a sort-merge join computes, and for which flags. */
module MergeSpec {
  import opened Base
  import opened JoinSpec

  /** For each key column, whether it is sorted in ascending order. */
  type Flags = seq<bool>

  datatype Ordering = Less | Equal | Greater

  // ------------------------------------------------------------------ the key order

  predicate FlagLe(asc: Flags, a: Key, b: Key)
    requires |a| == |b| == |asc|
  {
    if asc == [] then true
    else if a[0] == b[0] then FlagLe(asc[1..], a[1..], b[1..])
    else if asc[0] then FieldLe(a[0], b[0])
    else FieldLe(b[0], a[0])
  }

  function Compare(asc: Flags, a: Key, b: Key): (o: Ordering)
    requires |a| == |b| == |asc|
  {
    if a == b then Equal else if FlagLe(asc, a, b) then Less else Greater
  }

  /** Column by column, up to the first that differs. */
  method CompareKeys(asc: Flags, a: Key, b: Key) returns (o: Ordering)
    requires |a| == |b| == |asc|
    ensures o == Compare(asc, a, b)
  {
    var i := 0;
    while i < |asc|
      invariant 0 <= i <= |asc| && a[..i] == b[..i]
      invariant FlagLe(asc, a, b) == FlagLe(asc[i..], a[i..], b[i..])
    {
      var res := if asc[i] then CompareFields(a[i], b[i]) else CompareFields(b[i], a[i]);
      if res != Equal {
        FieldPair(a[i], b[i]);
        return res;
      }
      assert a[..i + 1] == a[..i] + [a[i]] && b[..i + 1] == b[..i] + [b[i]];
      assert asc[i..][1..] == asc[i + 1..] && a[i..][1..] == a[i + 1..] && b[i..][1..] == b[i + 1..];
      i := i + 1;
    }
    assert a == a[..i] && b == b[..i];
    return Equal;
  }

  function CompareFields(a: Field, b: Field): (o: Ordering) {
    if a == b then Equal else if FieldLe(a, b) then Less else Greater
  }

  lemma {:induction false} FlagPair(asc: Flags, a: Key, b: Key)
    requires |a| == |b| == |asc|
    ensures FlagLe(asc, a, b) || FlagLe(asc, b, a)
    ensures FlagLe(asc, a, b) && FlagLe(asc, b, a) ==> a == b
  {
    if asc == [] {
    } else {
      FieldPair(a[0], b[0]);
      if a[0] == b[0] {
        FlagPair(asc[1..], a[1..], b[1..]);
        assert a == [a[0]] + a[1..] && b == [b[0]] + b[1..];
      }
    }
  }

  lemma {:induction false} FlagTransitive(asc: Flags, a: Key, b: Key, c: Key)
    requires |a| == |b| == |c| == |asc|
    requires FlagLe(asc, a, b) && FlagLe(asc, b, c)
    ensures FlagLe(asc, a, c)
  {
    if asc == [] {
    } else {
      FieldTotal();
      if a[0] == b[0] == c[0] {
        FlagTransitive(asc[1..], a[1..], b[1..], c[1..]);
      }
    }
  }

  // ------------------------------------------------------------------ the sort

  ghost predicate Sized(n: nat, s: seq<Keyed>) {
    forall i | 0 <= i < |s| :: |s[i].key| == n
  }

  ghost predicate SortedBy(asc: Flags, s: seq<Keyed>)
    requires Sized(|asc|, s)
  {
    forall i, j | 0 <= i < j < |s| :: FlagLe(asc, s[i].key, s[j].key)
  }

  lemma LastTaken<T>(s: seq<T>)
    requires s != []
    ensures multiset(s) == multiset(s[..|s| - 1]) + multiset{s[|s| - 1]}
  {
    assert s == s[..|s| - 1] + [s[|s| - 1]];
  }

  /** Behind every row that is not larger. */
  function PlaceKeyed(asc: Flags, s: seq<Keyed>, x: Keyed): (r: seq<Keyed>)
    requires Sized(|asc|, s) && |x.key| == |asc|
    ensures multiset(r) == multiset(s) + multiset{x} && |r| == |s| + 1
    ensures Sized(|asc|, r)
  {
    if s == [] then [x]
    else
      var n := |s| - 1;
      LastTaken(s);
      if FlagLe(asc, s[n].key, x.key) then s + [x] else PlaceKeyed(asc, s[..n], x) + [s[n]]
  }

  /** The stable sort of the rows by their keys. */
  function SortKeyed(asc: Flags, s: seq<Keyed>): (r: seq<Keyed>)
    requires Sized(|asc|, s)
    ensures multiset(r) == multiset(s) && |r| == |s| && Sized(|asc|, r)
  {
    if s == [] then []
    else
      var n := |s| - 1;
      assert s == s[..n] + [s[n]];
      PlaceKeyed(asc, SortKeyed(asc, s[..n]), s[n])
  }

  lemma SortedSnoc(asc: Flags, s: seq<Keyed>, x: Keyed)
    requires Sized(|asc|, s) && |x.key| == |asc| && SortedBy(asc, s)
    requires forall i | 0 <= i < |s| :: FlagLe(asc, s[i].key, x.key)
    ensures SortedBy(asc, s + [x])
  {
    hide FlagLe;
  }

  lemma {:induction false} PlaceKeyedSorted(asc: Flags, s: seq<Keyed>, x: Keyed)
    requires Sized(|asc|, s) && |x.key| == |asc| && SortedBy(asc, s)
    ensures SortedBy(asc, PlaceKeyed(asc, s, x))
  {
    hide FlagLe;
    if s == [] {
    } else {
      var n := |s| - 1;
      if FlagLe(asc, s[n].key, x.key) {
        forall i | 0 <= i < n ensures FlagLe(asc, s[i].key, x.key) {
          FlagTransitive(asc, s[i].key, s[n].key, x.key);
        }
        SortedSnoc(asc, s, x);
      } else {
        PlaceKeyedSorted(asc, s[..n], x);
        FlagPair(asc, s[n].key, x.key);
        var r := PlaceKeyed(asc, s[..n], x);
        forall i | 0 <= i < |r| ensures FlagLe(asc, r[i].key, s[n].key) {
          assert r[i] in multiset(r);
        }
        SortedSnoc(asc, r, s[n]);
      }
    }
  }

  lemma {:induction false} SortKeyedSorted(asc: Flags, s: seq<Keyed>)
    requires Sized(|asc|, s)
    ensures SortedBy(asc, SortKeyed(asc, s))
  {
    hide FlagLe, PlaceKeyed;
    if s == [] {
    } else {
      var n := |s| - 1;
      SortKeyedSorted(asc, s[..n]);
      PlaceKeyedSorted(asc, SortKeyed(asc, s[..n]), s[n]);
    }
  }

  /** The rows with key `k`, in order. */
  function OfKey(k: Key, s: seq<Keyed>): (r: seq<Keyed>) {
    if s == [] then []
    else OfKey(k, s[..|s| - 1]) + if s[|s| - 1].key == k then [s[|s| - 1]] else []
  }

  lemma {:induction false} PlaceKeyedStable(asc: Flags, s: seq<Keyed>, x: Keyed, k: Key)
    requires Sized(|asc|, s) && |x.key| == |asc|
    ensures OfKey(k, PlaceKeyed(asc, s, x)) == OfKey(k, s + [x])
  {
    assert (s + [x])[..|s|] == s;
    if s == [] {
    } else {
      var n := |s| - 1;
      if !FlagLe(asc, s[n].key, x.key) {
        FlagReflexive(asc, x.key);
        var r := PlaceKeyed(asc, s[..n], x);
        PlaceKeyedStable(asc, s[..n], x, k);
        assert (r + [s[n]])[..|r|] == r && (s[..n] + [x])[..n] == s[..n];
      }
    }
  }

  lemma {:induction false} FlagReflexive(asc: Flags, a: Key)
    requires |a| == |asc|
    ensures FlagLe(asc, a, a)
  {
    if asc == [] {
    } else {
      FlagReflexive(asc[1..], a[1..]);
    }
  }

  /** Rows with equal keys keep their order. */
  lemma {:induction false} SortKeyedStable(asc: Flags, s: seq<Keyed>, k: Key)
    requires Sized(|asc|, s)
    ensures OfKey(k, SortKeyed(asc, s)) == OfKey(k, s)
  {
    if s == [] {
    } else {
      var n := |s| - 1;
      SortKeyedStable(asc, s[..n], k);
      PlaceKeyedStable(asc, SortKeyed(asc, s[..n]), s[n], k);
      var r := SortKeyed(asc, s[..n]);
      assert (r + [s[n]])[..|r|] == r;
    }
  }

  // ------------------------------------------------------------------ the merge

  predicate Any(a: Key, b: Key) {
    true
  }

  /** The number of leading rows with key `k`. */
  function RunLength(k: Key, s: seq<Keyed>): (n: nat)
    ensures n <= |s| && (forall i | 0 <= i < n :: s[i].key == k) && (n < |s| ==> s[n].key != k)
  {
    if s == [] || s[0].key != k then 0 else 1 + RunLength(k, s[1..])
  }

  /** Advance the smaller side; pair up the two runs of an equal key. */
  function Merge(asc: Flags, ls: seq<Keyed>, rs: seq<Keyed>): (out: seq<Row>)
    requires Sized(|asc|, ls) && Sized(|asc|, rs)
    decreases |ls| + |rs|
  {
    if ls == [] || rs == [] then []
    else match Compare(asc, ls[0].key, rs[0].key)
      case Less => Merge(asc, ls[1..], rs)
      case Greater => Merge(asc, ls, rs[1..])
      case Equal =>
        var n, m := RunLength(ls[0].key, ls), RunLength(rs[0].key, rs);
        Nested(Any, ls[..n], rs[..m]) + Merge(asc, ls[n..], rs[m..])
  }

  // ------------------------------------------------------------------ the merge is the join

  lemma {:induction false} NoMatch(l: Keyed, rs: seq<Keyed>)
    requires forall i | 0 <= i < |rs| :: rs[i].key != l.key
    ensures LeftRow(SameKey, l, rs) == []
  {
    if rs == [] {
    } else {
      NoMatch(l, rs[1..]);
    }
  }

  lemma {:induction false} AllMatch(l: Keyed, rs: seq<Keyed>)
    requires forall i | 0 <= i < |rs| :: rs[i].key == l.key
    ensures LeftRow(SameKey, l, rs) == LeftRow(Any, l, rs)
  {
    if rs == [] {
    } else {
      AllMatch(l, rs[1..]);
    }
  }

  /** Right rows that match no left row may be skipped. */
  lemma {:induction false} SkipRights(ls: seq<Keyed>, a: seq<Keyed>, b: seq<Keyed>)
    requires forall i, j | 0 <= i < |ls| && 0 <= j < |a| :: a[j].key != ls[i].key
    ensures Nested(SameKey, ls, a + b) == Nested(SameKey, ls, b)
  {
    hide LeftRow;
    if ls == [] {
    } else {
      SkipRow(ls[0], a, b);
      SkipRights(ls[1..], a, b);
    }
  }

  lemma SkipRow(l: Keyed, a: seq<Keyed>, b: seq<Keyed>)
    requires forall j | 0 <= j < |a| :: a[j].key != l.key
    ensures LeftRow(SameKey, l, a + b) == LeftRow(SameKey, l, b)
  {
    NoMatch(l, a);
    LeftRowCat(SameKey, l, a, b);
  }

  lemma RunRow(l: Keyed, a: seq<Keyed>, b: seq<Keyed>)
    requires (forall j | 0 <= j < |a| :: a[j].key == l.key) && (forall j | 0 <= j < |b| :: b[j].key != l.key)
    ensures LeftRow(SameKey, l, a + b) == LeftRow(Any, l, a)
  {
    LeftRowCat(SameKey, l, a, b);
    AllMatch(l, a);
    NoMatch(l, b);
  }

  lemma {:induction false} RunJoined(k: Key, ls: seq<Keyed>, a: seq<Keyed>, b: seq<Keyed>)
    requires forall i | 0 <= i < |ls| :: ls[i].key == k
    requires (forall j | 0 <= j < |a| :: a[j].key == k) && (forall j | 0 <= j < |b| :: b[j].key != k)
    ensures Nested(SameKey, ls, a + b) == Nested(Any, ls, a)
  {
    hide LeftRow;
    if ls == [] {
    } else {
      RunRow(ls[0], a, b);
      RunJoined(k, ls[1..], a, b);
    }
  }

  lemma {:induction false} PastRun(asc: Flags, s: seq<Keyed>)
    requires s != [] && Sized(|asc|, s) && SortedBy(asc, s)
    ensures forall i | RunLength(s[0].key, s) <= i < |s| :: s[i].key != s[0].key
  {
    var n := RunLength(s[0].key, s);
    if n < |s| {
      FlagPair(asc, s[0].key, s[n].key);
      assert FlagLe(asc, s[0].key, s[n].key);
    }
  }

  lemma {:induction false} BeforeAll(asc: Flags, x: Keyed, s: seq<Keyed>)
    requires s != [] && Sized(|asc|, s) && SortedBy(asc, s) && |x.key| == |asc|
    requires FlagLe(asc, x.key, s[0].key) && x.key != s[0].key
    ensures forall i | 0 <= i < |s| :: s[i].key != x.key
  {
    FlagPair(asc, x.key, s[0].key);
  }

  lemma LeftFirst(asc: Flags, ls: seq<Keyed>, rs: seq<Keyed>)
    requires Sized(|asc|, ls) && Sized(|asc|, rs) && SortedBy(asc, rs)
    requires ls != [] && rs != [] && Compare(asc, ls[0].key, rs[0].key) == Less
    ensures Nested(SameKey, ls, rs) == Nested(SameKey, ls[1..], rs)
  {
    hide LeftRow, FlagLe;
    BeforeAll(asc, ls[0], rs);
    NoMatch(ls[0], rs);
  }

  lemma RightFirst(asc: Flags, ls: seq<Keyed>, rs: seq<Keyed>)
    requires Sized(|asc|, ls) && Sized(|asc|, rs) && SortedBy(asc, ls)
    requires ls != [] && rs != [] && Compare(asc, ls[0].key, rs[0].key) == Greater
    ensures Nested(SameKey, ls, rs) == Nested(SameKey, ls, rs[1..])
  {
    hide Nested, FlagLe;
    FlagPair(asc, ls[0].key, rs[0].key);
    BeforeAll(asc, rs[0], ls);
    SkipRights(ls, rs[..1], rs[1..]);
    assert rs == rs[..1] + rs[1..];
  }

  /** Merging two inputs sorted the same way yields the join, in the order of the left input. */
  lemma {:induction false} MergeIsNested(asc: Flags, ls: seq<Keyed>, rs: seq<Keyed>)
    requires Sized(|asc|, ls) && Sized(|asc|, rs) && SortedBy(asc, ls) && SortedBy(asc, rs)
    ensures Merge(asc, ls, rs) == Nested(SameKey, ls, rs)
    decreases |ls| + |rs|
  {
    hide LeftRow, FlagLe;
    if ls == [] {
    } else if rs == [] {
      NoRights(ls);
    } else {
      match Compare(asc, ls[0].key, rs[0].key)
      case Less =>
        LeftFirst(asc, ls, rs);
        MergeIsNested(asc, ls[1..], rs);
      case Greater =>
        RightFirst(asc, ls, rs);
        MergeIsNested(asc, ls, rs[1..]);
      case Equal =>
        RunsNested(asc, ls, rs);
        MergeIsNested(asc, ls[RunLength(ls[0].key, ls)..], rs[RunLength(rs[0].key, rs)..]);
    }
  }

  lemma {:induction false} NoRights(ls: seq<Keyed>)
    ensures Nested(SameKey, ls, []) == []
  {
    if ls == [] {
    } else {
      NoRights(ls[1..]);
    }
  }

  lemma RunsNested(asc: Flags, ls: seq<Keyed>, rs: seq<Keyed>)
    requires Sized(|asc|, ls) && Sized(|asc|, rs) && SortedBy(asc, ls) && SortedBy(asc, rs)
    requires ls != [] && rs != [] && ls[0].key == rs[0].key
    ensures var n, m := RunLength(ls[0].key, ls), RunLength(rs[0].key, rs);
      Nested(SameKey, ls, rs) == Nested(Any, ls[..n], rs[..m]) + Nested(SameKey, ls[n..], rs[m..])
  {
    var k := ls[0].key;
    var n, m := RunLength(k, ls), RunLength(k, rs);
    PastRun(asc, ls);
    PastRun(asc, rs);
    assert ls == ls[..n] + ls[n..] && rs == rs[..m] + rs[m..];
    NestedCat(SameKey, ls[..n], ls[n..], rs);
    RunJoined(k, ls[..n], rs[..m], rs[m..]);
    SkipRights(ls[n..], rs[..m], rs[m..]);
  }

  // ------------------------------------------------------------------ flags

  /** Sorting each input by its own flags and merging by the left ones yields exactly the matching pairs. */
  ghost predicate MergeJoins(ascL: Flags, ascR: Flags, ls: seq<Keyed>, rs: seq<Keyed>)
    requires |ascL| == |ascR| && Sized(|ascL|, ls) && Sized(|ascR|, rs)
  {
    multiset(Merge(ascL, SortKeyed(ascL, ls), SortKeyed(ascR, rs))) == multiset(Nested(SameKey, ls, rs))
  }

  lemma SameFlagsJoin(asc: Flags, ls: seq<Keyed>, rs: seq<Keyed>)
    requires Sized(|asc|, ls) && Sized(|asc|, rs)
    ensures MergeJoins(asc, asc, ls, rs)
    ensures Merge(asc, SortKeyed(asc, ls), SortKeyed(asc, rs)) == Nested(SameKey, SortKeyed(asc, ls), SortKeyed(asc, rs))
  {
    SortKeyedSorted(asc, ls);
    SortKeyedSorted(asc, rs);
    MergeIsNested(asc, SortKeyed(asc, ls), SortKeyed(asc, rs));
    JoinPermuted(SameKey, SortKeyed(asc, ls), SortKeyed(asc, rs), ls, rs);
  }

  /** Keys that differ in one column compare as that column does. */
  lemma {:induction false} OneColumn(asc: Flags, a: Key, b: Key, i: nat)
    requires |a| == |b| == |asc| && i < |asc| && a[i] != b[i] && a[..i] == b[..i]
    ensures FlagLe(asc, a, b) == if asc[i] then FieldLe(a[i], b[i]) else FieldLe(b[i], a[i])
  {
    if i == 0 {
    } else {
      assert a[0] == a[..i][0] && b[0] == b[..i][0];
      assert a[1..][..i - 1] == a[..i][1..] && b[1..][..i - 1] == b[..i][1..];
      OneColumn(asc[1..], a[1..], b[1..], i - 1);
    }
  }

  lemma TwoSorted(asc: Flags, a: Keyed, b: Keyed)
    requires |a.key| == |b.key| == |asc| && FlagLe(asc, a.key, b.key)
    ensures SortKeyed(asc, [a]) == [a] && SortKeyed(asc, [a, b]) == [a, b]
  {
    hide FlagLe;
    assert [a, b][..1] == [a] && [a][..0] == [];
  }

  lemma OneMatch(l: Keyed, a: Keyed, b: Keyed)
    requires l.key == b.key != a.key
    ensures Nested(SameKey, [l], [a, b]) == [l.row + b.row]
  {
    assert [l][1..] == [] && [a, b][1..] == [b] && [b][1..] == [];
    assert LeftRow(SameKey, l, [b]) == [l.row + b.row];
    assert LeftRow(SameKey, l, [a, b]) == [l.row + b.row];
  }

  /** One left row and two right rows that a merge by different flags gets wrong. */
  lemma OtherFlagsFail(ascL: Flags, ascR: Flags, i: nat) returns (ls: seq<Keyed>, rs: seq<Keyed>)
    requires |ascL| == |ascR| && i < |ascL| && ascL[i] != ascR[i]
    ensures Sized(|ascL|, ls) && Sized(|ascR|, rs) && !MergeJoins(ascL, ascR, ls, rs)
  {
    hide FlagLe, SortKeyed, Nested;
    var zeros: Key := seq(|ascL|, _ => Int(0));
    var x := zeros[i := Int(1)];
    var y := zeros[i := Int(if ascL[i] then 2 else 0)];
    assert x[..i] == y[..i];
    OneColumn(ascL, x, y, i);
    OneColumn(ascR, y, x, i);
    assert x[i] != y[i];
    var l, a, b := Keyed(x, []), Keyed(y, []), Keyed(x, []);
    ls, rs := [l], [a, b];
    TwoSorted(ascL, l, a);
    TwoSorted(ascR, a, b);
    assert Merge(ascL, [l], [a, b]) == [] by {
      assert [l][1..] == [];
    }
    OneMatch(l, a, b);
  }

  /** The merge joins every pair of inputs correctly if and only if both sides are sorted by the same flags. */
  lemma FlagsIff(ascL: Flags, ascR: Flags)
    requires |ascL| == |ascR|
    ensures (forall ls, rs | Sized(|ascL|, ls) && Sized(|ascR|, rs) :: MergeJoins(ascL, ascR, ls, rs)) <==> ascL == ascR
  {
    if ascL == ascR {
      forall ls, rs | Sized(|ascL|, ls) && Sized(|ascR|, rs) ensures MergeJoins(ascL, ascR, ls, rs) {
        SameFlagsJoin(ascL, ls, rs);
      }
    } else {
      var i :| 0 <= i < |ascL| && ascL[i] != ascR[i];
      var ls, rs := OtherFlagsFail(ascL, ascR, i);
    }
  }
}
