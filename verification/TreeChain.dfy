/** When tree and leaf chain agree. */
module TreeChain {
  import opened Base
  import opened TreeModel
  import opened TreeOrder

  ghost function Ids(ls: seq<Tree>): (ids: seq<PageId>)
    ensures |ids| == |ls|
  {
    seq(|ls|, i requires 0 <= i < |ls| => ls[i].id)
  }

  ghost function GrownLeaves(g: Grown): (ls: seq<Tree>) {
    match g
    case Whole(t) => Leaves(t)
    case Split(l, _, r) => Leaves(l) + Leaves(r)
  }

  /** The leaf that `k` leads to. */
  function Reached(c: Format, t: Tree, k: Key): (l: Tree)
    ensures l.Leaf?
    decreases t, 1
  {
    match t
    case Leaf(_, _) => t
    case Inner(_, ks) => ReachedKids(c, ks, k)
  }

  function ReachedKids(c: Format, ks: Kids, k: Key): (l: Tree)
    ensures l.Leaf?
    decreases ks, 0
  {
    if ks.More? && c.le(ks.sep, k) then ReachedKids(c, ks.rest, k) else Reached(c, ks.kid, k)
  }

  /** Its position among the leaves. */
  ghost function Land(c: Format, t: Tree, k: Key): (n: nat)
    decreases t, 1
  {
    match t
    case Leaf(_, _) => 0
    case Inner(_, ks) => LandKids(c, ks, k)
  }

  ghost function LandKids(c: Format, ks: Kids, k: Key): (n: nat)
    decreases ks, 0
  {
    if ks.More? && c.le(ks.sep, k) then |Leaves(ks.kid)| + LandKids(c, ks.rest, k) else Land(c, ks.kid, k)
  }

  lemma {:induction false} LandReached(c: Format, t: Tree, k: Key)
    ensures Land(c, t, k) < |Leaves(t)| && Leaves(t)[Land(c, t, k)] == Reached(c, t, k)
    decreases t, 1
  {
    if t.Inner? {
      LandReachedKids(c, t.kids, k);
    }
  }

  lemma {:induction false} LandReachedKids(c: Format, ks: Kids, k: Key)
    ensures LandKids(c, ks, k) < |LeavesKids(ks)| && LeavesKids(ks)[LandKids(c, ks, k)] == ReachedKids(c, ks, k)
    decreases ks, 0
  {
    LandReached(c, ks.kid, k);
    if ks.More? {
      LandReachedKids(c, ks.rest, k);
    }
  }

  /** What an insert makes of the leaf it reaches: one leaf, or two after a split. */
  ghost function Parts(c: Format, l: Tree, k: Key, r: Rid, next: PageId): (ls: seq<Tree>)
    requires l.Leaf?
    ensures 1 <= |ls| <= 2
  {
    GrownLeaves(GrowLeaf(c, l.id, l.entries, Entry(k, r), next))
  }

  ghost function Splice(ls: seq<Tree>, i: nat, parts: seq<Tree>): (r: seq<Tree>)
    requires i < |ls|
    ensures |r| == |ls| - 1 + |parts|
  {
    ls[..i] + parts + ls[i + 1..]
  }

  /** The leaves as the chain orders them after the insert. */
  ghost function Chained(c: Format, t: Tree, k: Key, r: Rid, next: PageId): (ls: seq<Tree>) {
    LandReached(c, t, k);
    Splice(Leaves(t), Land(c, t, k), Parts(c, Reached(c, t, k), k, r, next))
  }

  ghost function ChainedKids(c: Format, ks: Kids, k: Key, r: Rid, next: PageId): (ls: seq<Tree>) {
    LandReachedKids(c, ks, k);
    Splice(LeavesKids(ks), LandKids(c, ks, k), Parts(c, ReachedKids(c, ks, k), k, r, next))
  }

  /** The leaves as the separators order them after the insert into the children `ks`. */
  ghost function SortedKids(c: Format, ks: Kids, k: Key, g: Grown): (ls: seq<Tree>) {
    match g
    case Whole(kid) => LeavesKids(SetChild(c, ks, k, kid))
    case Split(l, s, x) => LeavesKids(AddSep(c, SetChild(c, ks, k, l), s, x))
  }

  lemma ChainedHere(c: Format, ks: Kids, k: Key, r: Rid, next: PageId)
    requires ks.More? && !c.le(ks.sep, k)
    ensures ChainedKids(c, ks, k, r, next) == Chained(c, ks.kid, k, r, next) + LeavesKids(ks.rest)
  {
    LandReached(c, ks.kid, k);
    var i, here, rest := Land(c, ks.kid, k), Leaves(ks.kid), LeavesKids(ks.rest);
    assert (here + rest)[..i] == here[..i] && (here + rest)[i + 1..] == here[i + 1..] + rest;
  }

  lemma ChainedLater(c: Format, ks: Kids, k: Key, r: Rid, next: PageId)
    requires ks.More? && c.le(ks.sep, k)
    ensures ChainedKids(c, ks, k, r, next) == Leaves(ks.kid) + ChainedKids(c, ks.rest, k, r, next)
  {
    LandReachedKids(c, ks.rest, k);
    var i, here, rest := LandKids(c, ks.rest, k), Leaves(ks.kid), LeavesKids(ks.rest);
    assert (here + rest)[..|here| + i] == here + rest[..i];
    assert (here + rest)[|here| + i + 1..] == rest[i + 1..];
  }

  // ------------------------------------------------------------------ lower bounds of separators

  ghost predicate SepsFrom(c: Format, lo: Option<Key>, ks: Kids) {
    ks.More? ==> AtLeast(c, lo, ks.sep) && SepsFrom(c, lo, ks.rest)
  }

  lemma {:induction false} SepsAbove(c: Format, ks: Kids, lo: Option<Key>, floor: Option<Key>, hi: Option<Key>)
    requires c.Valid() && OrderedKids(c, false, ks, lo, hi)
    requires floor.None? || (lo.Some? && c.le(floor.value, lo.value))
    ensures SepsFrom(c, floor, ks)
  {
    if ks.More? {
      SepsAbove(c, ks.rest, Some(ks.sep), floor, hi);
    }
  }

  lemma {:induction false} SetChildSeps(c: Format, ks: Kids, k: Key, t: Tree, lo: Option<Key>)
    requires SepsFrom(c, lo, ks)
    ensures SepsFrom(c, lo, SetChild(c, ks, k, t))
  {
    if ks.More? {
      SetChildSeps(c, ks.rest, k, t, lo);
    }
  }

  lemma {:induction false} AddSepSeps(c: Format, ks: Kids, s: Key, x: Tree, lo: Option<Key>)
    requires SepsFrom(c, lo, ks) && AtLeast(c, lo, s)
    ensures SepsFrom(c, lo, AddSep(c, ks, s, x))
  {
    if ks.More? {
      AddSepSeps(c, ks.rest, s, x, lo);
    }
  }

  lemma {:induction false} CutSeps(c: Format, ks: Kids, n: nat, lo: Option<Key>)
    requires SepsFrom(c, lo, ks) && 1 <= n < Count(ks)
    ensures AtLeast(c, lo, Cut(ks, n).1)
  {
    if n > 1 {
      CutSeps(c, ks.rest, n - 1, lo);
    }
  }

  /** A separator handed up is never below the lower fence. */
  lemma {:induction false} SepAbove(c: Format, t: Tree, k: Key, r: Rid, next: PageId, lo: Option<Key>, hi: Option<Key>)
    requires c.Valid() && Ordered(c, false, t, lo, hi) && AtLeast(c, lo, k)
    ensures var g := Insert(c, t, k, r, next).0; g.Split? ==> AtLeast(c, lo, g.sep)
    decreases t, 1
  {
    match t
    case Leaf(_, es) =>
      PlaceMembers(c, es, Entry(k, r));
      var all := Place(c, es, Entry(k, r));
      assert all[|all| / 2] in all;
    case Inner(_, ks) =>
      SepAboveKids(c, ks, k, r, next, lo, hi);
      var g := InsertChild(c, ks, k, r, next).0;
      if g.Split? {
        SepsAbove(c, ks, lo, lo, hi);
        SetChildSeps(c, ks, k, g.left, lo);
        AddSepSeps(c, SetChild(c, ks, k, g.left), g.sep, g.right, lo);
        var all := AddSep(c, SetChild(c, ks, k, g.left), g.sep, g.right);
        CutSeps(c, all, Count(all) / 2, lo);
      }
  }

  lemma {:induction false} SepAboveKids(c: Format, ks: Kids, k: Key, r: Rid, next: PageId, lo: Option<Key>,
      hi: Option<Key>)
    requires c.Valid() && OrderedKids(c, false, ks, lo, hi) && AtLeast(c, lo, k)
    ensures var g := InsertChild(c, ks, k, r, next).0; g.Split? ==> AtLeast(c, lo, g.sep)
    decreases ks, 0
  {
    if ks.Last? {
      SepAbove(c, ks.kid, k, r, next, lo, hi);
    } else if c.le(ks.sep, k) {
      SepAboveKids(c, ks.rest, k, r, next, Some(ks.sep), hi);
    } else {
      SepAbove(c, ks.kid, k, r, next, lo, Some(ks.sep));
    }
  }

  // ------------------------------------------------------------------ agreement

  lemma {:induction false} CutLeaves(ks: Kids, n: nat)
    requires 1 <= n < Count(ks)
    ensures LeavesKids(Cut(ks, n).0) + LeavesKids(Cut(ks, n).2) == LeavesKids(ks)
  {
    if n > 1 {
      CutLeaves(ks.rest, n - 1);
      var (l, _, r) := Cut(ks.rest, n - 1);
      assert (Leaves(ks.kid) + LeavesKids(l)) + LeavesKids(r) == Leaves(ks.kid) + (LeavesKids(l) + LeavesKids(r));
    }
  }

  /** An inner split does not move leaves: only the place of the new child matters. */
  lemma InnerLeaves(c: Format, id: PageId, ks: Kids, k: Key, r: Rid, next: PageId)
    ensures GrownLeaves(Insert(c, Inner(id, ks), k, r, next).0)
         == SortedKids(c, ks, k, InsertChild(c, ks, k, r, next).0)
  {
    var g := InsertChild(c, ks, k, r, next).0;
    if g.Split? {
      var all := AddSep(c, SetChild(c, ks, k, g.left), g.sep, g.right);
      CutLeaves(all, Count(all) / 2);
    }
  }

  lemma LastHere(c: Format, kid: Tree, k: Key, g: Grown)
    ensures SortedKids(c, Last(kid), k, g) == GrownLeaves(g)
  {
    if g.Split? {
      assert AddSep(c, SetChild(c, Last(kid), k, g.left), g.sep, g.right) == More(g.left, g.sep, Last(g.right));
      assert LeavesKids(Last(g.right)) == Leaves(g.right);
    }
  }

  lemma SplitHere(c: Format, ks: Kids, k: Key, l: Tree, s: Key, x: Tree)
    requires ks.More? && !c.le(ks.sep, k) && !c.le(ks.sep, s)
    ensures LeavesKids(AddSep(c, SetChild(c, ks, k, l), s, x)) == Leaves(l) + Leaves(x) + LeavesKids(ks.rest)
  {
    assert AddSep(c, SetChild(c, ks, k, l), s, x) == More(l, s, More(x, ks.sep, ks.rest));
  }

  /** Clear inserts put the new leaf in the tree where the chain has it. */
  lemma {:induction false} ClearChained(c: Format, t: Tree, k: Key, r: Rid, next: PageId, lo: Option<Key>,
      hi: Option<Key>)
    requires c.Valid() && Ordered(c, false, t, lo, hi) && AtLeast(c, lo, k) && Clear(c, t, k, r, next)
    ensures GrownLeaves(Insert(c, t, k, r, next).0) == Chained(c, t, k, r, next)
    decreases t, 1
  {
    match t
    case Leaf(_, _) =>
    case Inner(id, ks) =>
      ClearChainedKids(c, ks, k, r, next, lo, hi);
      InnerLeaves(c, id, ks, k, r, next);
  }

  lemma {:induction false} ClearChainedKids(c: Format, ks: Kids, k: Key, r: Rid, next: PageId, lo: Option<Key>,
      hi: Option<Key>)
    requires c.Valid() && OrderedKids(c, false, ks, lo, hi) && AtLeast(c, lo, k) && ClearKids(c, ks, k, r, next)
    ensures SortedKids(c, ks, k, InsertChild(c, ks, k, r, next).0) == ChainedKids(c, ks, k, r, next)
    decreases ks, 0
  {
    if ks.Last? {
      ClearChained(c, ks.kid, k, r, next, lo, hi);
      LastHere(c, ks.kid, k, Insert(c, ks.kid, k, r, next).0);
    } else if c.le(ks.sep, k) {
      ClearChainedKids(c, ks.rest, k, r, next, Some(ks.sep), hi);
      SepAboveKids(c, ks.rest, k, r, next, Some(ks.sep), hi);
      ChainedLater(c, ks, k, r, next);
    } else {
      ClearChained(c, ks.kid, k, r, next, lo, Some(ks.sep));
      ChainedHere(c, ks, k, r, next);
      var g := Insert(c, ks.kid, k, r, next).0;
      if g.Split? {
        SplitHere(c, ks, k, g.left, g.sep, g.right);
      }
    }
  }

  // ------------------------------------------------------------------ disagreement

  lemma {:induction false} LeafPages(t: Tree)
    ensures |Leaves(t)| >= 1
    ensures forall l | l in Leaves(t) :: l.id in Pages(t)
    decreases t, 1
  {
    if t.Inner? {
      LeafPagesKids(t.kids);
    }
  }

  lemma {:induction false} LeafPagesKids(ks: Kids)
    ensures |LeavesKids(ks)| >= 1
    ensures forall l | l in LeavesKids(ks) :: l.id in PagesKids(ks)
    decreases ks, 0
  {
    LeafPages(ks.kid);
    if ks.More? {
      LeafPagesKids(ks.rest);
    }
  }

  lemma ChainedPages(c: Format, t: Tree, k: Key, r: Rid, next: PageId)
    ensures forall l | l in Chained(c, t, k, r, next) :: l.id in Pages(t) || l.id == next
  {
    LeafPages(t);
    LandReached(c, t, k);
    forall l | l in Chained(c, t, k, r, next) ensures l.id in Pages(t) || l.id == next {
      if l !in Leaves(t) {
        assert Reached(c, t, k) in Leaves(t);
        assert l in Parts(c, Reached(c, t, k), k, r, next);
      }
    }
  }

  lemma {:induction false} SetChildCount(c: Format, ks: Kids, k: Key, t: Tree)
    ensures |LeavesKids(SetChild(c, ks, k, t))| == |LeavesKids(ks)| - |Leaves(Child(c, ks, k))| + |Leaves(t)|
  {
    if ks.More? {
      SetChildCount(c, ks.rest, k, t);
    }
  }

  lemma {:induction false} AddSepCount(c: Format, ks: Kids, s: Key, x: Tree)
    ensures |LeavesKids(AddSep(c, ks, s, x))| == |LeavesKids(ks)| + |Leaves(x)|
  {
    if ks.More? {
      AddSepCount(c, ks.rest, s, x);
    }
  }

  /** Either order has the same number of leaves. */
  lemma {:induction false} InsertCount(c: Format, t: Tree, k: Key, r: Rid, next: PageId)
    ensures |GrownLeaves(Insert(c, t, k, r, next).0)| == |Chained(c, t, k, r, next)|
    decreases t, 1
  {
    match t
    case Leaf(_, _) =>
    case Inner(id, ks) =>
      InsertCountKids(c, ks, k, r, next);
      InnerLeaves(c, id, ks, k, r, next);
      var g := InsertChild(c, ks, k, r, next).0;
      match g {
        case Whole(kid) => SetChildCount(c, ks, k, kid);
        case Split(l, s, x) =>
          SetChildCount(c, ks, k, l);
          AddSepCount(c, SetChild(c, ks, k, l), s, x);
      }
  }

  lemma {:induction false} InsertCountKids(c: Format, ks: Kids, k: Key, r: Rid, next: PageId)
    ensures |GrownLeaves(InsertChild(c, ks, k, r, next).0)| - |Leaves(Child(c, ks, k))|
         == |ChainedKids(c, ks, k, r, next)| - |LeavesKids(ks)|
    decreases ks, 0
  {
    if ks.More? && c.le(ks.sep, k) {
      InsertCountKids(c, ks.rest, k, r, next);
    } else {
      InsertCount(c, ks.kid, k, r, next);
    }
  }

  lemma FirstLeaf(c: Format, ks: Kids, s: Key, x: Tree)
    ensures |LeavesKids(ks)| >= 1 && |LeavesKids(AddSep(c, ks, s, x))| >= 1
    ensures LeavesKids(AddSep(c, ks, s, x))[0] == LeavesKids(ks)[0]
    ensures LeavesKids(ks)[0].id in PagesKids(ks)
  {
    LeafPages(ks.kid);
    assert Leaves(ks.kid)[0] in Leaves(ks.kid);
    LeafPagesKids(ks);
  }

  /** A child that ties with the separator after it is sorted behind leaves that the chain has after it. */
  lemma TiedMoves(c: Format, ks: Kids, k: Key, r: Rid, next: PageId)
    requires ks.More? && !c.le(ks.sep, k)
    requires DistinctKids(ks) && forall p | p in PagesKids(ks) :: p < next
    requires var g := Insert(c, ks.kid, k, r, next).0; g.Split? && c.le(ks.sep, g.sep)
    ensures Ids(SortedKids(c, ks, k, InsertChild(c, ks, k, r, next).0)) != Ids(ChainedKids(c, ks, k, r, next))
  {
    var g := Insert(c, ks.kid, k, r, next).0;
    var n := |Leaves(g.left)|;
    var moved := SortedKids(c, ks, k, g);
    assert moved == Leaves(g.left) + LeavesKids(AddSep(c, ks.rest, g.sep, g.right));
    FirstLeaf(c, ks.rest, g.sep, g.right);
    assert moved[n].id in PagesKids(ks.rest) && moved[n].id in PagesKids(ks);
    ChainedHere(c, ks, k, r, next);
    InsertCount(c, ks.kid, k, r, next);
    LeafPages(g.right);
    var chained := ChainedKids(c, ks, k, r, next);
    assert chained[n] == Chained(c, ks.kid, k, r, next)[n];
    ChainedPages(c, ks.kid, k, r, next);
    assert chained[n] in Chained(c, ks.kid, k, r, next);
    assert chained[n].id != moved[n].id;
    assert Ids(moved)[n] != Ids(chained)[n];
  }

  lemma IdsPrefix(a: seq<Tree>, b: seq<Tree>, x: seq<Tree>, y: seq<Tree>)
    requires |a| == |b| && Ids(a) != Ids(b)
    ensures Ids(a + x) != Ids(b + y)
  {
    var i :| 0 <= i < |a| && Ids(a)[i] != Ids(b)[i];
    assert Ids(a + x)[i] == Ids(a)[i] && Ids(b + y)[i] == Ids(b)[i];
  }

  lemma IdsSuffix(x: seq<Tree>, a: seq<Tree>, b: seq<Tree>)
    requires Ids(a) != Ids(b)
    ensures Ids(x + a) != Ids(x + b)
  {
    if |a| == |b| {
      var i :| 0 <= i < |a| && Ids(a)[i] != Ids(b)[i];
      assert Ids(x + a)[|x| + i] == Ids(a)[i] && Ids(x + b)[|x| + i] == Ids(b)[i];
    } else {
      assert |Ids(x + a)| != |Ids(x + b)|;
    }
  }

  lemma {:induction false} TiedDisagrees(c: Format, t: Tree, k: Key, r: Rid, next: PageId, lo: Option<Key>,
      hi: Option<Key>)
    requires c.Valid() && Ordered(c, false, t, lo, hi) && AtLeast(c, lo, k)
    requires Distinct(t) && forall p | p in Pages(t) :: p < next
    requires !Clear(c, t, k, r, next)
    ensures Ids(GrownLeaves(Insert(c, t, k, r, next).0)) != Ids(Chained(c, t, k, r, next))
    decreases t, 1
  {
    assert PagesKids(t.kids) <= Pages(t);
    TiedDisagreesKids(c, t.kids, k, r, next, lo, hi);
    InnerLeaves(c, t.id, t.kids, k, r, next);
  }

  lemma {:induction false} TiedDisagreesKids(c: Format, ks: Kids, k: Key, r: Rid, next: PageId, lo: Option<Key>,
      hi: Option<Key>)
    requires c.Valid() && OrderedKids(c, false, ks, lo, hi) && AtLeast(c, lo, k)
    requires DistinctKids(ks) && forall p | p in PagesKids(ks) :: p < next
    requires !ClearKids(c, ks, k, r, next)
    ensures Ids(SortedKids(c, ks, k, InsertChild(c, ks, k, r, next).0)) != Ids(ChainedKids(c, ks, k, r, next))
    decreases ks, 0
  {
    assert Pages(ks.kid) <= PagesKids(ks);
    if ks.Last? {
      TiedDisagrees(c, ks.kid, k, r, next, lo, hi);
      LastHere(c, ks.kid, k, Insert(c, ks.kid, k, r, next).0);
    } else if c.le(ks.sep, k) {
      assert PagesKids(ks.rest) <= PagesKids(ks);
      TiedDisagreesKids(c, ks.rest, k, r, next, Some(ks.sep), hi);
      SepAboveKids(c, ks.rest, k, r, next, Some(ks.sep), hi);
      ChainedLater(c, ks, k, r, next);
      IdsSuffix(Leaves(ks.kid), SortedKids(c, ks.rest, k, InsertChild(c, ks.rest, k, r, next).0), ChainedKids(c, ks.rest, k, r, next));
    } else {
      var g := Insert(c, ks.kid, k, r, next).0;
      if g.Split? && c.le(ks.sep, g.sep) {
        TiedMoves(c, ks, k, r, next);
      } else {
        TiedDisagrees(c, ks.kid, k, r, next, lo, Some(ks.sep));
        InsertCount(c, ks.kid, k, r, next);
        ChainedHere(c, ks, k, r, next);
        IdsPrefix(GrownLeaves(g), Chained(c, ks.kid, k, r, next), LeavesKids(ks.rest), LeavesKids(ks.rest));
        if g.Split? {
          SplitHere(c, ks, k, g.left, g.sep, g.right);
        }
      }
    }
  }

  /** The separators and the chain order the leaves alike after an insert exactly when it was clear. */
  lemma ChainAgreesIff(c: Format, t: Tree, k: Key, r: Rid, next: PageId)
    requires c.Valid() && Ordered(c, false, t, None, None)
    requires Distinct(t) && forall p | p in Pages(t) :: p < next
    ensures Ids(GrownLeaves(Insert(c, t, k, r, next).0)) == Ids(Chained(c, t, k, r, next)) <==> Clear(c, t, k, r, next)
  {
    if Clear(c, t, k, r, next) {
      ClearChained(c, t, k, r, next, None, None);
    } else {
      TiedDisagrees(c, t, k, r, next, None, None);
    }
  }
}
