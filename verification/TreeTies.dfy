/** Tied separators lose a key. */
module TreeTies {
  import opened Base
  import opened TreeModel
  import opened TreeChain
  import opened TreeSearch
  import opened TreeRuns

  /** Pages that hold three entries, whatever they are. */
  ghost predicate Three(c: Format) {
    c.room == 3 && (forall e :: c.leafSize(e) == 1) && (forall k, p :: c.sepSize(k, p) == 1)
  }

  lemma {:induction false} Bytes(c: Format, es: seq<Entry>)
    requires Three(c)
    ensures LeafBytes(c, es) == |es|
  {
    if es == [] {
    } else {
      Bytes(c, es[1..]);
    }
  }

  /** An insert into a leaf that is not full. */
  lemma IntoLeaf(c: Format, id: PageId, es: seq<Entry>, e: Entry, next: PageId)
    requires Three(c) && |es| < 3
    ensures GrowLeaf(c, id, es, e, next) == Whole(Leaf(id, Place(c, es, e)))
  {
    Bytes(c, es);
  }

  /** An insert into a full leaf. */
  lemma Halved(c: Format, id: PageId, es: seq<Entry>, e: Entry, next: PageId)
    requires Three(c) && |es| == 3
    ensures var all := Place(c, es, e);
      GrowLeaf(c, id, es, e, next) == Split(Leaf(id, all[..2]), all[2].key, Leaf(next, all[2..]))
  {
    Bytes(c, es);
  }

  lemma {:induction false} PlacedAll(c: Format, es: seq<Entry>, e: Entry)
    requires forall i | 0 <= i < |es| :: c.EntryLe(es[i], e)
    ensures Place(c, es, e) == es + [e]
  {
    if es == [] {
    } else {
      PlacedAll(c, es[1..], e);
      assert es == [es[0]] + es[1..];
    }
  }

  // ------------------------------------------------------------------ the run

  ghost function Copies(k: Key, r: Rid, n: nat): (es: seq<Entry>) {
    seq(n, _ => Entry(k, r))
  }

  ghost function Inserts(k: Key, r: Rid, n: nat): (ops: seq<Op>) {
    seq(n, _ => Ins(k, r))
  }

  lemma OneMore(k: Key, r: Rid, n: nat)
    ensures Copies(k, r, 0) == [] && Copies(k, r, n + 1) == Copies(k, r, n) + [Entry(k, r)]
    ensures Inserts(k, r, 0) == [] && Inserts(k, r, n + 1) == Inserts(k, r, n) + [Ins(k, r)]
  {
  }

  /** Four copies of `k`, one larger key, then two smaller ones. */
  ghost function TiedRun(j: Key, k: Key, z: Key, r: Rid): (ops: seq<Op>) {
    Inserts(k, r, 4) + [Ins(z, r)] + [Ins(j, r)] + [Ins(j, r)]
  }

  lemma RunStep(c: Format, ops: seq<Op>, op: Op)
    ensures Run(c, ops + [op]) == Step(c, Run(c, ops), op)
  {
    assert (ops + [op])[..|ops|] == ops;
  }

  lemma IdealStep(ops: seq<Op>, op: Op)
    ensures Ideal(ops + [op])
      == if op.Ins? then Ideal(ops) + multiset{Entry(op.key, op.rid)} else Ideal(ops) - multiset{Entry(op.key, op.rid)}
  {
    assert (ops + [op])[..|ops|] == ops;
  }

  /** An insert into a root leaf that is not full. */
  lemma RootLeaf(c: Format, es: seq<Entry>, k: Key, r: Rid)
    requires Three(c) && |es| < 3
    ensures Step(c, State(Leaf(1, es), 0, [1], 2), Ins(k, r)) == State(Leaf(1, Place(c, es, Entry(k, r))), 0, [1], 2)
  {
    hide Place, GrowLeaf;
    IntoLeaf(c, 1, es, Entry(k, r), 2);
  }

  lemma {:induction false} UpToThree(c: Format, k: Key, r: Rid, n: nat)
    requires c.Valid() && Three(c) && n <= 3
    ensures Run(c, Inserts(k, r, n)) == State(Leaf(1, Copies(k, r, n)), 0, [1], 2)
  {
    hide Step, Place, Three, Inserts, Ideal;
    OneMore(k, r, if n == 0 then 0 else n - 1);
    if n == 0 {
    } else {
      var es := Copies(k, r, n - 1);
      UpToThree(c, k, r, n - 1);
      RunStep(c, Inserts(k, r, n - 1), Ins(k, r));
      RootLeaf(c, es, k, r);
      PlacedAll(c, es, Entry(k, r));
    }
  }

  /** A root over two leaves, the page that lists them and the chain in agreement. */
  ghost function Two(left: seq<Entry>, k: Key, right: seq<Entry>): (s: State) {
    State(Inner(3, More(Leaf(1, left), k, Last(Leaf(2, right)))), 1, [1, 2], 4)
  }

  lemma Fourth(c: Format, k: Key, r: Rid)
    requires c.Valid() && Three(c)
    ensures Run(c, Inserts(k, r, 4)) == Two(Copies(k, r, 2), k, Copies(k, r, 2))
  {
    hide Run, Inserts, Ideal;
    UpToThree(c, k, r, 3);
    OneMore(k, r, 3);
    RunStep(c, Inserts(k, r, 3), Ins(k, r));
    Halved(c, 1, Copies(k, r, 3), Entry(k, r), 2);
    PlacedAll(c, Copies(k, r, 3), Entry(k, r));
    var all := Copies(k, r, 3) + [Entry(k, r)];
    assert all[..2] == Copies(k, r, 2) && all[2..] == Copies(k, r, 2);
  }

  /** Inserting into the right leaf, which has room. */
  lemma RightOfTwo(c: Format, left: seq<Entry>, k: Key, right: seq<Entry>, z: Key, r: Rid)
    requires c.le(k, z) && Three(c) && |right| < 3
    ensures Put(c, Two(left, k, right), z, r) == Two(left, k, Place(c, right, Entry(z, r)))
  {
    var ks, l := More(Leaf(1, left), k, Last(Leaf(2, right))), Leaf(2, right);
    IntoLeaf(c, 2, right, Entry(z, r), 4);
    assert InsertChild(c, Last(l), z, r, 4) == Insert(c, l, z, r, 4);
    assert InsertChild(c, ks, z, r, 4) == (Whole(Leaf(2, Place(c, right, Entry(z, r)))), 4);
    assert ReachedKids(c, Last(l), z) == l;
    assert Reached(c, Inner(3, ks), z) == l;
    var l' := Leaf(2, Place(c, right, Entry(z, r)));
    assert SetChild(c, Last(l), z, l') == Last(l');
    assert Insert(c, Inner(3, ks), z, r, 4) == (Whole(Inner(3, More(Leaf(1, left), k, Last(l')))), 4);
  }

  /** Inserting into the left leaf. */
  lemma LeftOfTwo(c: Format, left: seq<Entry>, k: Key, right: seq<Entry>, j: Key, r: Rid)
    requires !c.le(k, j)
    ensures var g := GrowLeaf(c, 1, left, Entry(j, r), 4); var ks := Two(left, k, right).root.kids;
      && InsertChild(c, ks, j, r, 4) == (g, if g.Split? then 5 else 4)
      && Reached(c, Inner(3, ks), j) == Leaf(1, left)
      && forall t :: SetChild(c, ks, j, t) == More(t, k, Last(Leaf(2, right)))
  {
    var l := Leaf(1, left);
    assert Reached(c, l, j) == l;
    assert ReachedKids(c, More(l, k, Last(Leaf(2, right))), j) == l;
  }

  lemma LargerKey(c: Format, k: Key, z: Key, r: Rid)
    requires c.Valid() && Three(c) && c.Lt(k, z)
    ensures Put(c, Two(Copies(k, r, 2), k, Copies(k, r, 2)), z, r) == Two(Copies(k, r, 2), k, Copies(k, r, 2) + [Entry(z, r)])
  {
    RightOfTwo(c, Copies(k, r, 2), k, Copies(k, r, 2), z, r);
    PlacedAll(c, Copies(k, r, 2), Entry(z, r));
  }

  lemma SmallerKey(c: Format, j: Key, k: Key, es: seq<Entry>, r: Rid)
    requires c.Valid() && Three(c) && c.Lt(j, k)
    ensures Put(c, Two(Copies(k, r, 2), k, es), j, r) == Two([Entry(j, r)] + Copies(k, r, 2), k, es)
  {
    LeftOfTwo(c, Copies(k, r, 2), k, es, j, r);
    IntoLeaf(c, 1, Copies(k, r, 2), Entry(j, r), 4);
  }

  lemma TiedSep(c: Format, l: Tree, k: Key, m: Tree, x: Tree, next: PageId)
    requires c.Valid() && Three(c)
    ensures GrowInner(c, 3, More(l, k, Last(m)), k, x, next) == Whole(Inner(3, More(l, k, More(m, k, Last(x)))))
  {
    assert InnerBytes(c, Some(k), Last(m)) == 1;
    assert AddSep(c, Last(m), k, x) == More(m, k, Last(x));
  }

  /** The left leaf splits at `k`, and its new separator ends up behind the older `k`. */
  lemma TiedSplit(c: Format, j: Key, k: Key, es: seq<Entry>, r: Rid)
    requires c.Valid() && Three(c) && c.Lt(j, k)
    ensures Put(c, Two([Entry(j, r)] + Copies(k, r, 2), k, es), j, r) ==
      State(Inner(3, More(Leaf(1, Copies(j, r, 2)), k, More(Leaf(2, es), k, Last(Leaf(4, Copies(k, r, 2)))))), 1, [1, 4, 2], 5)
  {
    var full, e := [Entry(j, r)] + Copies(k, r, 2), Entry(j, r);
    Halved(c, 1, full, e, 4);
    assert full[1..] == Copies(k, r, 2);
    var all := Place(c, full, e);
    assert all == [e, e] + Copies(k, r, 2);
    assert all[..2] == Copies(j, r, 2) && all[2..] == Copies(k, r, 2);
    LeftOfTwo(c, full, k, es, j, r);
    var l, x := Leaf(1, Copies(j, r, 2)), Leaf(4, Copies(k, r, 2));
    TiedSep(c, l, k, Leaf(2, es), x, 5);
    assert After([1, 2], 1, 4) == [1, 4, 2];
  }

  lemma TiedState(c: Format, j: Key, k: Key, z: Key, r: Rid)
    requires c.Valid() && Three(c) && c.Lt(j, k) && c.Lt(k, z)
    ensures Run(c, TiedRun(j, k, z, r)) ==
      State(Inner(3, More(Leaf(1, Copies(j, r, 2)), k,
        More(Leaf(2, Copies(k, r, 2) + [Entry(z, r)]), k, Last(Leaf(4, Copies(k, r, 2)))))), 1, [1, 4, 2], 5)
  {
    var ops := Inserts(k, r, 4);
    Fourth(c, k, r);
    RunStep(c, ops, Ins(z, r));
    LargerKey(c, k, z, r);
    RunStep(c, ops + [Ins(z, r)], Ins(j, r));
    SmallerKey(c, j, k, Copies(k, r, 2) + [Entry(z, r)], r);
    RunStep(c, ops + [Ins(z, r)] + [Ins(j, r)], Ins(j, r));
    TiedSplit(c, j, k, Copies(k, r, 2) + [Entry(z, r)], r);
  }

  lemma TiedLive(j: Key, k: Key, z: Key, r: Rid)
    ensures Entry(z, r) in Ideal(TiedRun(j, k, z, r))
  {
    var ops := Inserts(k, r, 4);
    IdealStep(ops, Ins(z, r));
    IdealStep(ops + [Ins(z, r)], Ins(j, r));
    IdealStep(ops + [Ins(z, r)] + [Ins(j, r)], Ins(j, r));
  }

  /**
   * A live key that a search does not find: the descent follows the last tied separator to a leaf
   * left of the key's own leaf in the chain, and neither walk reaches it.
   */
  lemma LostKey(c: Format, j: Key, k: Key, z: Key, r: Rid)
    requires c.Valid() && Three(c) && c.Lt(j, k) && c.Lt(k, z)
    ensures Entry(z, r) in Ideal(TiedRun(j, k, z, r))
    ensures Search(c, Run(c, TiedRun(j, k, z, r)), z) == []
  {
    TiedLive(j, k, z, r);
    TiedState(c, j, k, z, r);
    var s := Run(c, TiedRun(j, k, z, r));
    var a, b, d := Leaf(1, Copies(j, r, 2)), Leaf(2, Copies(k, r, 2) + [Entry(z, r)]), Leaf(4, Copies(k, r, 2));
    TiedLeaves(c, a, k, b, d, z);
    assert Where([4, 2], 4) == 0 && Where([1, 4, 2], 4) == 1;
    Lookups(a, b, d);
    var rows := ChainRows(s);
    assert rows[1] == d.entries && rows[0] == a.entries;
    HitsIff(d.entries, z);
  }

  lemma TiedLeaves(c: Format, a: Tree, k: Key, b: Tree, d: Tree, z: Key)
    requires a.Leaf? && b.Leaf? && d.Leaf? && c.le(k, z)
    ensures Leaves(Inner(3, More(a, k, More(b, k, Last(d))))) == [a, b, d]
    ensures Reached(c, Inner(3, More(a, k, More(b, k, Last(d)))), z) == d
  {
    var bd := More(b, k, Last(d));
    assert LeavesKids(Last(d)) == [d] && LeavesKids(bd) == [b] + [d] && LeavesKids(More(a, k, bd)) == [a] + [b, d];
    assert ReachedKids(c, Last(d), z) == d && ReachedKids(c, bd, z) == d && ReachedKids(c, More(a, k, bd), z) == d;
  }

  lemma Lookups(a: Tree, b: Tree, d: Tree)
    requires a.Leaf? && b.Leaf? && d.Leaf? && a.id == 1 && b.id == 2 && d.id == 4
    ensures Lookup([a, b, d], 1) == a.entries && Lookup([a, b, d], 4) == d.entries
  {
    assert [a, b, d][1..] == [b, d] && [b, d][1..] == [d];
    assert Lookup([d], 4) == d.entries && Lookup([b, d], 4) == d.entries;
  }

  lemma Example() returns (c: Format)
    ensures c.Valid() && Three(c) && c.le == KeyLe && c.ridLe == RidLe
    ensures c.Lt([Int(0)], [Int(1)]) && c.Lt([Int(1)], [Int(2)])
  {
    c := Format(KeyLe, RidLe, 3, (e: Entry) => 1, (k: Option<Key>, p: PageId) => 1);
    KeyTotal();
    RidTotal();
  }

  /** Such an index exists, with the order of the index keys themselves. */
  lemma LostKeyExample()
    ensures exists c: Format, ops: seq<Op>, e: Entry ::
      && c.Valid() && c.le == KeyLe && (forall op | op in ops :: op.Ins?)
      && e in Ideal(ops) && Search(c, Run(c, ops), e.key) == []
  {
    var c := Example();
    var j, k, z, r := [Int(0)], [Int(1)], [Int(2)], Rid(0, None, None);
    hide Run, Ideal, Search;
    LostKey(c, j, k, z, r);
    var ops, e := TiedRun(j, k, z, r), Entry(z, r);
    assert forall op | op in ops :: op.Ins?;
    assert e in Ideal(ops) && Search(c, Run(c, ops), e.key) == [];
  }
}
