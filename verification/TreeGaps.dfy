/** An emptied leaf hides a key. */
module TreeGaps {
  import opened Base
  import opened TreeModel
  import opened TreeChain
  import opened TreeSearch
  import opened TreeRuns
  import opened TreeTies

  /** Six entries of one key, in the order of the index. */
  ghost predicate Six(c: Format, k: Key, es: seq<Entry>) {
    && |es| == 6 && Sorted(c, es) && (forall i | 0 <= i < 6 :: es[i].key == k)
    && forall i, j | 0 <= i < j < 6 :: es[i] != es[j]
  }

  lemma OneMoreOf(es: seq<Entry>, n: nat)
    requires n < |es|
    ensures InsertsOf(es[..n + 1]) == InsertsOf(es[..n]) + [Ins(es[n].key, es[n].rid)] && es[..n + 1] == es[..n] + [es[n]]
    ensures Entry(es[n].key, es[n].rid) == es[n]
  {
  }

  lemma PlacedLast(c: Format, k: Key, es: seq<Entry>, i: nat, n: nat)
    requires Six(c, k, es) && i <= n < 6
    ensures Place(c, es[i..n], es[n]) == es[i..n + 1]
  {
    PlacedAll(c, es[i..n], es[n]);
    assert es[i..n] + [es[n]] == es[i..n + 1];
  }

  lemma {:induction false} FirstThree(c: Format, k: Key, es: seq<Entry>, n: nat)
    requires c.Valid() && Three(c) && Six(c, k, es) && n <= 3
    ensures Run(c, InsertsOf(es[..n])) == State(Leaf(1, es[..n]), 0, [1], 2)
  {
    hide Step, Place, Three, InsertsOf, Ideal, Sorted;
    if n == 0 {
      assert es[..0] == [] && InsertsOf([]) == [] by { NoInserts(es); }
    } else {
      FirstThree(c, k, es, n - 1);
      OneMoreOf(es, n - 1);
      RunStep(c, InsertsOf(es[..n - 1]), Ins(es[n - 1].key, es[n - 1].rid));
      RootLeaf(c, es[..n - 1], es[n - 1].key, es[n - 1].rid);
      PlacedLast(c, k, es, 0, n - 1);
      assert es[0..n - 1] == es[..n - 1] && es[0..n] == es[..n];
    }
  }

  lemma NoInserts(es: seq<Entry>)
    ensures es[..0] == [] && InsertsOf([]) == []
  {
  }

  lemma FirstFour(c: Format, k: Key, es: seq<Entry>)
    requires c.Valid() && Three(c) && Six(c, k, es)
    ensures Run(c, InsertsOf(es[..4])) == Two(es[..2], k, es[2..4])
  {
    hide Run, InsertsOf, Ideal;
    FirstThree(c, k, es, 3);
    OneMoreOf(es, 3);
    RunStep(c, InsertsOf(es[..3]), Ins(es[3].key, es[3].rid));
    Halved(c, 1, es[..3], es[3], 2);
    PlacedLast(c, k, es, 0, 3);
    assert es[0..3] == es[..3] && es[0..4] == es[..4];
    var all := es[..4];
    assert all[..2] == es[..2] && all[2..] == es[2..4] && all[2].key == k;
  }

  lemma FirstFive(c: Format, k: Key, es: seq<Entry>)
    requires c.Valid() && Three(c) && Six(c, k, es)
    ensures Run(c, InsertsOf(es[..5])) == Two(es[..2], k, es[2..5])
  {
    hide Run, InsertsOf, Ideal, Put, Two;
    FirstFour(c, k, es);
    OneMoreOf(es, 4);
    RunStep(c, InsertsOf(es[..4]), Ins(k, es[4].rid));
    RightOfTwo(c, es[..2], k, es[2..4], k, es[4].rid);
    PlacedLast(c, k, es, 2, 4);
  }

  /** Three leaves under one root, all separated by the same key. */
  ghost function Wide(k: Key, a: seq<Entry>, b: seq<Entry>, d: seq<Entry>): (s: State) {
    State(Inner(3, More(Leaf(1, a), k, More(Leaf(2, b), k, Last(Leaf(4, d))))), 1, [1, 2, 4], 5)
  }

  lemma RightSplits(c: Format, left: seq<Entry>, k: Key, full: seq<Entry>, r: Rid)
    requires c.Valid() && Three(c) && |full| == 3
    ensures var all := Place(c, full, Entry(k, r));
      all[2].key == k ==> Put(c, Two(left, k, full), k, r) == Wide(k, left, all[..2], all[2..])
  {
    var all := Place(c, full, Entry(k, r));
    if all[2].key == k {
      var l, ks := Leaf(2, full), More(Leaf(1, left), k, Last(Leaf(2, full)));
      var l', x := Leaf(2, all[..2]), Leaf(4, all[2..]);
      Halved(c, 2, full, Entry(k, r), 4);
      assert InsertChild(c, Last(l), k, r, 4) == Insert(c, l, k, r, 4);
      assert InsertChild(c, ks, k, r, 4) == (Split(l', k, x), 5);
      assert ReachedKids(c, Last(l), k) == l;
      assert c.le(k, k) && ReachedKids(c, ks, k) == l;
      assert SetChild(c, Last(l), k, l') == Last(l');
      TiedSep(c, Leaf(1, left), k, l', x, 5);
      assert After([2], 2, 4) == [2, 4] && After([1, 2], 2, 4) == [1, 2, 4];
    }
  }

  lemma AllSix(c: Format, k: Key, es: seq<Entry>)
    requires c.Valid() && Three(c) && Six(c, k, es)
    ensures Run(c, InsertsOf(es)) == Wide(k, es[..2], es[2..4], es[4..])
  {
    hide Run, InsertsOf, Ideal, Put, Two, Wide;
    FirstFive(c, k, es);
    OneMoreOf(es, 5);
    assert es[..6] == es;
    RunStep(c, InsertsOf(es[..5]), Ins(k, es[5].rid));
    PlacedLast(c, k, es, 2, 5);
    RightSplits(c, es[..2], k, es[2..5], es[5].rid);
    var all := es[2..6];
    assert all[..2] == es[2..4] && all[2..] == es[4..];
  }

  // ------------------------------------------------------------------ two deletes

  lemma WideRows(c: Format, k: Key, a: seq<Entry>, b: seq<Entry>, d: seq<Entry>)
    requires c.Valid()
    ensures ChainRows(Wide(k, a, b, d)) == [a, b, d]
    ensures Where([1, 2, 4], Reached(c, Wide(k, a, b, d).root, k).id) == 2
  {
    var s := Wide(k, a, b, d);
    var x, y, z := Leaf(1, a), Leaf(2, b), Leaf(4, d);
    assert LeavesKids(Last(z)) == [z] && LeavesKids(More(y, k, Last(z))) == [y] + [z];
    assert LeavesKids(s.root.kids) == [x] + [y, z];
    var ls := [x, y, z];
    assert Leaves(s.root) == ls;
    assert ls[1..] == [y, z] && [y, z][1..] == [z];
    assert Lookup([z], 4) == d && Lookup([y, z], 4) == d && Lookup(ls, 4) == d;
    assert Lookup([y, z], 2) == b && Lookup(ls, 2) == b && Lookup(ls, 1) == a;
    assert ReachedKids(c, Last(z), k) == z && ReachedKids(c, More(y, k, Last(z)), k) == z;
    assert c.le(k, k) && ReachedKids(c, s.root.kids, k) == z;
    assert Reached(c, s.root, k) == z;
    assert [1, 2, 4][1..] == [2, 4] && [2, 4][1..] == [4];
    assert Where([4], 4) == 0 && Where([2, 4], 4) == 1;
    var rows := ChainRows(s);
    assert rows[0] == a && rows[1] == b && rows[2] == d;
  }

  /** A delete from the middle of the run. */
  lemma MiddleDelete(c: Format, k: Key, a: seq<Entry>, b: seq<Entry>, d: seq<Entry>, r: Rid)
    requires c.Valid() && LastIs(a, k) && LastIs(b, k) && Entry(k, r) !in a && Entry(k, r) in b
    ensures Take(c, Wide(k, a, b, d), k, r) == Wide(k, a, RemoveOne(b, Entry(k, r)), d)
  {
    hide ChainRows, Reached, RemoveOne;
    WideRows(c, k, a, b, d);
    var s, e, rows := Wide(k, a, b, d), Entry(k, r), [a, b, d];
    assert WalkLeft(rows, 1, k) == 0 && WalkLeft(rows, 2, k) == 0;
    assert FindRow(rows, 1, e) == Some(1) && FindRow(rows, 0, e) == Some(1);
    assert Target(c, s, k, r) == Some(1);
    DropMiddle(k, a, b, d, e);
  }

  lemma DropMiddle(k: Key, a: seq<Entry>, b: seq<Entry>, d: seq<Entry>, e: Entry)
    ensures Drop(Wide(k, a, b, d).root, 2, e) == Wide(k, a, RemoveOne(b, e), d).root
  {
    var x, y, z := Leaf(1, a), Leaf(2, b), Leaf(4, d);
    assert DropKids(Last(z), 2, e) == Last(z);
    var rest := More(y, k, Last(z));
    assert DropKids(rest, 2, e) == More(Leaf(2, RemoveOne(b, e)), k, Last(z));
    assert DropKids(More(x, k, rest), 2, e) == More(x, k, DropKids(rest, 2, e));
  }

  ghost function GapRun(es: seq<Entry>): (ops: seq<Op>)
    requires |es| == 6
  {
    InsertsOf(es) + [Del(es[2].key, es[2].rid)] + [Del(es[3].key, es[3].rid)]
  }

  lemma FirstGone(c: Format, k: Key, a: seq<Entry>, x: Entry, y: Entry, d: seq<Entry>)
    requires c.Valid() && LastIs(a, k) && x.key == y.key == k && x !in a
    ensures Take(c, Wide(k, a, [x, y], d), k, x.rid) == Wide(k, a, [y], d)
  {
    hide Wide, Take;
    assert Entry(k, x.rid) == x && [x, y][0] == x && [x, y][1..] == [y];
    MiddleDelete(c, k, a, [x, y], d, x.rid);
  }

  lemma SecondGone(c: Format, k: Key, a: seq<Entry>, y: Entry, d: seq<Entry>)
    requires c.Valid() && LastIs(a, k) && y.key == k && y !in a
    ensures Take(c, Wide(k, a, [y], d), k, y.rid) == Wide(k, a, [], d)
  {
    hide Wide, Take;
    assert Entry(k, y.rid) == y && [y][0] == y && [y][1..] == [];
    MiddleDelete(c, k, a, [y], d, y.rid);
  }

  lemma GapState(c: Format, k: Key, es: seq<Entry>)
    requires c.Valid() && Three(c) && Six(c, k, es)
    ensures Run(c, GapRun(es)) == Wide(k, es[..2], [], es[4..])
  {
    hide Run, InsertsOf, Ideal, Wide, Take, Three, Sorted;
    AllSix(c, k, es);
    var a, d, ops, x, y := es[..2], es[4..], InsertsOf(es), es[2], es[3];
    assert es[2..4] == [x, y];
    RunStep(c, ops, Del(k, x.rid));
    FirstGone(c, k, a, x, y, d);
    RunStep(c, ops + [Del(k, x.rid)], Del(k, y.rid));
    SecondGone(c, k, a, y, d);
  }

  lemma {:induction false} AllLive(es: seq<Entry>, e: Entry)
    requires e in es
    ensures e in Ideal(InsertsOf(es))
  {
    var n := |es| - 1;
    OneMoreOf(es, n);
    assert es[..n + 1] == es;
    IdealStep(InsertsOf(es[..n]), Ins(es[n].key, es[n].rid));
    if e != es[n] {
      AllLive(es[..n], e);
    }
  }

  lemma GapLive(es: seq<Entry>)
    requires |es| == 6 && forall i, j | 0 <= i < j < 6 :: es[i] != es[j]
    ensures es[0] in Ideal(GapRun(es))
  {
    hide Ideal;
    AllLive(es, es[0]);
    IdealStep(InsertsOf(es), Del(es[2].key, es[2].rid));
    IdealStep(InsertsOf(es) + [Del(es[2].key, es[2].rid)], Del(es[3].key, es[3].rid));
    assert Entry(es[2].key, es[2].rid) == es[2] && Entry(es[3].key, es[3].rid) == es[3];
  }

  /** Duplicates over three leaves: once the middle leaf is empty, a search misses those on its left. */
  lemma HiddenKey(c: Format, k: Key, es: seq<Entry>)
    requires c.Valid() && Three(c) && Six(c, k, es)
    ensures es[0] in Ideal(GapRun(es))
    ensures Search(c, Run(c, GapRun(es)), k) == [es[4].rid, es[5].rid]
  {
    hide Run, Ideal, ChainRows, Reached, GapRun;
    GapLive(es);
    GapState(c, k, es);
    var a, d := es[..2], es[4..];
    WideRows(c, k, a, [], d);
    var rows := [a, [], d];
    assert WalkLeft(rows, 2, k) == 2;
    assert d[1..] == [es[5]] && [es[5]][1..] == [];
    assert Hits([es[5]], k) == [es[5].rid];
    assert Hits(d, k) == [es[4].rid] + [es[5].rid];
    assert ScanRight(rows, 2, k) == Hits(d, k);
  }

  ghost function SlotEntry(k: Key, i: int): (e: Entry) {
    Entry(k, Rid(0, None, Some(i)))
  }

  /** Such an index exists, with the order of the index keys and record ids themselves. */
  lemma HiddenKeyExample()
    ensures exists c: Format, ops: seq<Op>, e: Entry ::
      && c.Valid() && c.le == KeyLe && c.ridLe == RidLe
      && e in Ideal(ops) && e.rid !in Search(c, Run(c, ops), e.key)
  {
    hide Run, Ideal, Search;
    var c := Example();
    var k := [Int(0)];
    var es := seq(6, i requires 0 <= i < 6 => SlotEntry(k, i));
    SlotsSix(c, k, es);
    HiddenKey(c, k, es);
    assert es[0] in Ideal(GapRun(es)) && es[0].rid !in Search(c, Run(c, GapRun(es)), es[0].key);
  }

  lemma SlotsSix(c: Format, k: Key, es: seq<Entry>)
    requires c.ridLe == RidLe && |es| == 6 && forall i | 0 <= i < 6 :: es[i] == SlotEntry(k, i)
    ensures Six(c, k, es)
  {
    forall i, j | 0 <= i < j < 6 ensures c.EntryLe(es[i], es[j]) {
      SlotsRise(i, j);
    }
  }

  lemma SlotsRise(i: int, j: int)
    requires i <= j
    ensures RidLe(Rid(0, None, Some(i)), Rid(0, None, Some(j)))
  {
    var x, y := [0, 0, 0, 1, i], [0, 0, 0, 1, j];
    assert RidInts(Rid(0, None, Some(i))) == x && RidInts(Rid(0, None, Some(j))) == y;
    assert x[4..] == [i] && y[4..] == [j] && LexLe(IntLe, x[4..], y[4..]);
    forall n | 0 <= n < 4 && LexLe(IntLe, x[n + 1..], y[n + 1..]) ensures LexLe(IntLe, x[n..], y[n..]) {
      assert x[n..][1..] == x[n + 1..] && y[n..][1..] == y[n + 1..];
    }
    assert LexLe(IntLe, x[3..], y[3..]) && LexLe(IntLe, x[2..], y[2..]) && LexLe(IntLe, x[1..], y[1..]);
    assert x[0..] == x && y[0..] == y;
  }
}
