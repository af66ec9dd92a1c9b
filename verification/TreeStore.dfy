/** A tree and its leaf chain laid out in pages. */
module TreeStore {
  import opened Base
  import opened TreeModel
  import opened TreeInserts
  import opened TreeChain
  import opened TreeRuns
  import opened NodePages
  import opened PageOps
  import opened PageSplits

  type Store = map<PageId, Page>

  // ------------------------------------------------------------------ nodes

  /** Every node of `t` is stored in its page. */
  ghost predicate Stored(c: Format, store: Store, t: Tree)
    decreases t, 1
  {
    t.id in store &&
    match t
    case Leaf(id, es) => LeafPage(c, store[id], es)
    case Inner(id, ks) => InnerPage(c, store[id], ks) && StoredKids(c, store, ks)
  }

  ghost predicate StoredKids(c: Format, store: Store, ks: Kids)
    decreases ks, 0
  {
    Stored(c, store, ks.kid) && (ks.More? ==> StoredKids(c, store, ks.rest))
  }

  /** The page still holds the same node; only a leaf's siblings may differ. */
  ghost predicate SameNode(c: Format, p: Page, q: Page) {
    && (forall es | LeafPage(c, p, es) :: LeafPage(c, q, es))
    && (forall ks | InnerPage(c, p, ks) :: InnerPage(c, q, ks))
  }

  /** Nodes outside `except` are untouched, and no page is lost. */
  ghost predicate Untouched(c: Format, s: Store, s': Store, except: set<PageId>) {
    && s.Keys <= s'.Keys
    && forall id | id in s && id !in except :: SameNode(c, s[id], s'[id])
  }

  lemma {:induction false} StoredFrame(c: Format, s: Store, s': Store, except: set<PageId>, t: Tree)
    requires Stored(c, s, t) && Untouched(c, s, s', except) && Pages(t) !! except
    ensures Stored(c, s', t)
    decreases t, 1
  {
    assert SameNode(c, s[t.id], s'[t.id]);
    if t.Inner? {
      assert PagesKids(t.kids) <= Pages(t);
      StoredFrameKids(c, s, s', except, t.kids);
    }
  }

  lemma {:induction false} StoredFrameKids(c: Format, s: Store, s': Store, except: set<PageId>, ks: Kids)
    requires StoredKids(c, s, ks) && Untouched(c, s, s', except) && PagesKids(ks) !! except
    ensures StoredKids(c, s', ks)
    decreases ks, 0
  {
    assert Pages(ks.kid) <= PagesKids(ks);
    StoredFrame(c, s, s', except, ks.kid);
    if ks.More? {
      assert PagesKids(ks.rest) <= PagesKids(ks);
      StoredFrameKids(c, s, s', except, ks.rest);
    }
  }

  lemma {:induction false} StoredChild(c: Format, s: Store, ks: Kids, k: Key)
    requires StoredKids(c, s, ks)
    ensures Stored(c, s, Child(c, ks, k))
  {
    if ks.More? {
      StoredChild(c, s, ks.rest, k);
    }
  }

  lemma {:induction false} StoredSetChild(c: Format, s: Store, s': Store, ks: Kids, k: Key, t: Tree)
    requires StoredKids(c, s, ks) && DistinctKids(ks) && Stored(c, s', t)
    requires Untouched(c, s, s', Pages(Child(c, ks, k)))
    ensures StoredKids(c, s', SetChild(c, ks, k, t))
    decreases ks
  {
    if ks.More? {
      var except := Pages(Child(c, ks, k));
      if c.le(ks.sep, k) {
        ChildPages(c, ks.rest, k);
        StoredFrame(c, s, s', except, ks.kid);
        StoredSetChild(c, s, s', ks.rest, k, t);
      } else {
        StoredFrameKids(c, s, s', except, ks.rest);
      }
    }
  }

  lemma {:induction false} StoredAddSep(c: Format, store: Store, ks: Kids, s: Key, x: Tree)
    requires StoredKids(c, store, ks) && Stored(c, store, x)
    ensures StoredKids(c, store, AddSep(c, ks, s, x))
  {
    if ks.More? {
      StoredAddSep(c, store, ks.rest, s, x);
    }
  }

  lemma {:induction false} StoredCut(c: Format, store: Store, ks: Kids, n: nat)
    requires StoredKids(c, store, ks) && 1 <= n < Count(ks)
    ensures StoredKids(c, store, Cut(ks, n).0) && StoredKids(c, store, Cut(ks, n).2)
  {
    if n > 1 {
      StoredCut(c, store, ks.rest, n - 1);
    }
  }

  ghost predicate GrownStored(c: Format, store: Store, g: Grown) {
    match g
    case Whole(t) => Stored(c, store, t)
    case Split(l, _, r) => Stored(c, store, l) && Stored(c, store, r)
  }

  /** An insert never renumbers the node it starts from. */
  lemma {:induction false} InsertId(c: Format, t: Tree, k: Key, r: Rid, next: PageId)
    ensures var g := Insert(c, t, k, r, next).0; (if g.Whole? then g.tree else g.left).id == t.id
    decreases t, 1
  {
  }

  lemma {:induction false} InsertChildId(c: Format, ks: Kids, k: Key, r: Rid, next: PageId)
    ensures InsertChild(c, ks, k, r, next) == Insert(c, Child(c, ks, k), k, r, next)
    decreases ks
  {
    if ks.More? {
      InsertChildId(c, ks.rest, k, r, next);
    }
  }

  lemma {:induction false} SetChildPairs(c: Format, key: Option<Key>, ks: Kids, k: Key, t: Tree)
    requires t.id == Child(c, ks, k).id
    ensures Pairs(key, SetChild(c, ks, k, t)) == Pairs(key, ks)
    ensures SepsSorted(c, key, ks) ==> SepsSorted(c, key, SetChild(c, ks, k, t))
    ensures InnerBytes(c, key, SetChild(c, ks, k, t)) == InnerBytes(c, key, ks)
    decreases ks
  {
    if ks.More? && c.le(ks.sep, k) {
      SetChildPairs(c, Some(ks.sep), ks.rest, k, t);
    }
  }

  /** Replacing a child by one with the same number leaves the parent's page as it is. */
  lemma SetChildPage(c: Format, p: Page, ks: Kids, k: Key, t: Tree)
    requires InnerPage(c, p, ks) && t.id == Child(c, ks, k).id
    ensures InnerPage(c, p, SetChild(c, ks, k, t))
  {
    SetChildPairs(c, None, ks, k, t);
    var raw :| InnerHolds(c, p, raw, ks);
    assert InnerHolds(c, p, raw, SetChild(c, ks, k, t));
  }

  // ------------------------------------------------------------------ leaves of the tree, as a set

  ghost function LeafSet(t: Tree): (ps: set<PageId>)
    decreases t, 1
  {
    if t.Leaf? then {t.id} else LeafSetKids(t.kids)
  }

  ghost function LeafSetKids(ks: Kids): (ps: set<PageId>)
    decreases ks, 0
  {
    if ks.Last? then LeafSet(ks.kid) else LeafSet(ks.kid) + LeafSetKids(ks.rest)
  }

  ghost function GrownLeafSet(g: Grown): (ps: set<PageId>) {
    if g.Whole? then LeafSet(g.tree) else LeafSet(g.left) + LeafSet(g.right)
  }

  lemma {:induction false} ChildLeafSet(c: Format, ks: Kids, k: Key)
    ensures LeafSet(Child(c, ks, k)) <= LeafSetKids(ks)
    ensures ReachedKids(c, ks, k) == Reached(c, Child(c, ks, k), k)
  {
    if ks.More? {
      ChildLeafSet(c, ks.rest, k);
    }
  }

  lemma {:induction false} SetChildLeafSet(c: Format, ks: Kids, k: Key, t: Tree)
    ensures LeafSetKids(SetChild(c, ks, k, t)) + LeafSet(Child(c, ks, k)) == LeafSetKids(ks) + LeafSet(t)
    ensures LeafSet(t) <= LeafSetKids(SetChild(c, ks, k, t))
  {
    if ks.More? {
      SetChildLeafSet(c, ks.rest, k, t);
    }
  }

  lemma {:induction false} AddSepLeafSet(c: Format, ks: Kids, s: Key, x: Tree)
    ensures LeafSetKids(AddSep(c, ks, s, x)) == LeafSetKids(ks) + LeafSet(x)
  {
    if ks.More? {
      AddSepLeafSet(c, ks.rest, s, x);
    }
  }

  lemma {:induction false} CutLeafSet(ks: Kids, n: nat)
    requires 1 <= n < Count(ks)
    ensures LeafSetKids(Cut(ks, n).0) + LeafSetKids(Cut(ks, n).2) == LeafSetKids(ks)
  {
    if n > 1 {
      CutLeafSet(ks.rest, n - 1);
    }
  }

  ghost predicate LeafSplits(c: Format, t: Tree, k: Key, r: Rid, next: PageId) {
    var l := Reached(c, t, k);
    GrowLeaf(c, l.id, l.entries, Entry(k, r), next).Split?
  }

  /** An insert adds at most one leaf, the page it numbers `next`. */
  lemma {:induction false} InsertLeafSet(c: Format, t: Tree, k: Key, r: Rid, next: PageId)
    ensures GrownLeafSet(Insert(c, t, k, r, next).0) == LeafSet(t) + if LeafSplits(c, t, k, r, next) then {next} else {}
    decreases t
  {
    if t.Inner? {
      var ks, kid := t.kids, Child(c, t.kids, k);
      ChildSmaller(c, ks, k);
      InsertLeafSet(c, kid, k, r, next);
      InsertChildId(c, ks, k, r, next);
      ChildLeafSet(c, ks, k);
      match Insert(c, kid, k, r, next).0 {
        case Whole(kid') => SetChildLeafSet(c, ks, k, kid');
        case Split(l, s, x) =>
          SetChildLeafSet(c, ks, k, l);
          var ks1 := SetChild(c, ks, k, l);
          AddSepLeafSet(c, ks1, s, x);
          CutLeafSet(AddSep(c, ks1, s, x), Count(AddSep(c, ks1, s, x)) / 2);
      }
    }
  }

  lemma {:induction false} ChildSmaller(c: Format, ks: Kids, k: Key)
    ensures Child(c, ks, k) < ks
    decreases ks
  {
    if ks.More? {
      ChildSmaller(c, ks.rest, k);
    }
  }

  lemma {:induction false} ReachedInSet(c: Format, t: Tree, k: Key)
    ensures Reached(c, t, k).id in LeafSet(t)
    decreases t
  {
    if t.Inner? {
      ChildSmaller(c, t.kids, k);
      ChildLeafSet(c, t.kids, k);
      ReachedInSet(c, Child(c, t.kids, k), k);
    }
  }

  // ------------------------------------------------------------------ the chain

  ghost function Prev(chain: seq<PageId>, i: nat): (p: Option<PageId>)
    requires i < |chain|
  {
    if i == 0 then None else Some(chain[i - 1])
  }

  ghost function Next(chain: seq<PageId>, i: nat): (p: Option<PageId>)
    requires i < |chain|
  {
    if i + 1 < |chain| then Some(chain[i + 1]) else None
  }

  /** No page occurs twice, and each one's sibling pointers name its neighbours. */
  ghost predicate Threaded(store: Store, chain: seq<PageId>) {
    && (forall i, j | 0 <= i < j < |chain| :: chain[i] != chain[j])
    && (forall i | 0 <= i < |chain| :: chain[i] in store && Linked(store[chain[i]], Prev(chain, i), Next(chain, i)))
  }

  ghost function Thread(chain: seq<PageId>, i: nat, n: PageId): (now: seq<PageId>)
    requires i < |chain|
  {
    chain[..i + 1] + [n] + chain[i + 1..]
  }

  /** Only the new page and its two neighbours see a new sibling. */
  lemma ThreadedAt(chain: seq<PageId>, i: nat, n: PageId, j: nat)
    requires i < |chain| && j <= |chain|
    ensures var now := Thread(chain, i, n);
      (now[j], Prev(now, j), Next(now, j)) ==
        if j < i then (chain[j], Prev(chain, j), Next(chain, j))
        else if j == i then (chain[i], Prev(chain, i), Some(n))
        else if j == i + 1 then (n, Some(chain[i]), Next(chain, i))
        else if j == i + 2 then (chain[i + 1], Some(n), Next(chain, i + 1))
        else (chain[j - 1], Prev(chain, j - 1), Next(chain, j - 1))
  {
  }

  lemma ThreadDistinct(chain: seq<PageId>, i: nat, n: PageId)
    requires i < |chain| && n !in chain && forall a, b | 0 <= a < b < |chain| :: chain[a] != chain[b]
    ensures var now := Thread(chain, i, n); forall a, b | 0 <= a < b < |now| :: now[a] != now[b]
  {
  }

  /** Threading page `n` in after position `i` re-links it, its left and its right neighbour. */
  lemma ThreadAfter(s: Store, s': Store, chain: seq<PageId>, i: nat, n: PageId)
    requires Threaded(s, chain) && i < |chain| && n !in chain
    requires n in s' && Linked(s'[n], Some(chain[i]), Next(chain, i))
    requires chain[i] in s' && Linked(s'[chain[i]], Prev(chain, i), Some(n))
    requires i + 1 < |chain| ==> chain[i + 1] in s' && Linked(s'[chain[i + 1]], Some(n), Next(chain, i + 1))
    requires forall j | 0 <= j < |chain| && j != i && j != i + 1 :: chain[j] in s' && s'[chain[j]] == s[chain[j]]
    ensures Threaded(s', Thread(chain, i, n))
  {
    ThreadDistinct(chain, i, n);
    var now := Thread(chain, i, n);
    forall j | 0 <= j < |now| ensures now[j] in s' && Linked(s'[now[j]], Prev(now, j), Next(now, j)) {
      ThreadedAt(chain, i, n, j);
    }
  }

  // ------------------------------------------------------------------ reading leaves through the chain

  lemma {:induction false} LookupCat(a: seq<Tree>, b: seq<Tree>, id: PageId)
    requires forall l | l in a :: l.Leaf?
    ensures Lookup(a + b, id) == if exists l :: l in a && l.id == id then Lookup(a, id) else Lookup(b, id)
  {
    if a == [] {
      assert a + b == b;
    } else {
      assert (a + b)[1..] == a[1..] + b;
      assert a[0] in a;
      LookupCat(a[1..], b, id);
      assert forall l :: l in a <==> l == a[0] || l in a[1..];
    }
  }

  lemma {:induction false} AllLeaves(t: Tree)
    ensures forall l | l in Leaves(t) :: l.Leaf? && l.id in LeafSet(t)
    ensures LeafSet(t) <= Pages(t)
    decreases t, 1
  {
    if t.Inner? {
      AllLeavesKids(t.kids);
    }
  }

  lemma {:induction false} AllLeavesKids(ks: Kids)
    ensures forall l | l in LeavesKids(ks) :: l.Leaf? && l.id in LeafSetKids(ks)
    ensures LeafSetKids(ks) <= PagesKids(ks)
    decreases ks, 0
  {
    AllLeaves(ks.kid);
    if ks.More? {
      AllLeavesKids(ks.rest);
    }
  }

  /** A stored leaf's page holds the entries the tree has under that number. */
  lemma {:induction false} LeafStored(c: Format, s: Store, t: Tree, id: PageId)
    requires Stored(c, s, t) && Distinct(t) && id in LeafSet(t)
    ensures id in s && LeafPage(c, s[id], Lookup(Leaves(t), id))
    ensures exists l :: l in Leaves(t) && l.id == id
    decreases t, 1
  {
    if t.Leaf? {
      assert t in [t];
    } else {
      LeafStoredKids(c, s, t.kids, id);
    }
  }

  lemma {:induction false} LeafStoredKids(c: Format, s: Store, ks: Kids, id: PageId)
    requires StoredKids(c, s, ks) && DistinctKids(ks) && id in LeafSetKids(ks)
    ensures id in s && LeafPage(c, s[id], Lookup(LeavesKids(ks), id))
    ensures exists l :: l in LeavesKids(ks) && l.id == id
    decreases ks, 0
  {
    if ks.Last? {
      LeafStored(c, s, ks.kid, id);
    } else {
      AllLeaves(ks.kid);
      AllLeavesKids(ks.rest);
      LookupCat(Leaves(ks.kid), LeavesKids(ks.rest), id);
      if id in LeafSet(ks.kid) {
        LeafStored(c, s, ks.kid, id);
        var l :| l in Leaves(ks.kid) && l.id == id;
        assert l in LeavesKids(ks);
      } else {
        LeafStoredKids(c, s, ks.rest, id);
        var l :| l in LeavesKids(ks.rest) && l.id == id;
        assert l in LeavesKids(ks);
      }
    }
  }

  // ------------------------------------------------------------------ one page changed

  lemma LeafReplaced(c: Format, s: Store, s': Store, chain: seq<PageId>, i: nat)
    requires Threaded(s, chain) && i < |chain| && s'.Keys == s.Keys
    requires forall p | p in s && p != chain[i] :: s'[p] == s[p]
    requires Linked(s'[chain[i]], Prev(chain, i), Next(chain, i))
    ensures Threaded(s', chain) && Untouched(c, s, s', {chain[i]})
  {
  }

  lemma InnerNotLinked(p: Page, raw: seq<Pair>, l: Option<PageId>, r: Option<PageId>)
    ensures InnerIs(p, raw) ==> !Linked(p, l, r)
  {
    if InnerIs(p, raw) {
      assert p[0] in multiset(p);
    }
  }

  lemma RelinkedSame(c: Format, p: Page, q: Page, l: Option<PageId>, r: Option<PageId>)
    requires Linked(p, l, r) && forall es | LeafBody(p, es) :: LeafBody(q, es)
    ensures SameNode(c, p, q)
  {
    forall ks ensures !InnerPage(c, p, ks) {
      forall raw ensures !InnerHolds(c, p, raw, ks) {
        InnerNotLinked(p, raw, l, r);
      }
    }
  }

  /** The pages after a leaf split. */
  ghost function SplitStore(s: Store, chain: seq<PageId>, i: nat, n: PageId, left: Page, right: Page,
      relinked: Page): (s': Store)
    requires i < |chain|
  {
    var s1 := s[n := right][chain[i] := left];
    if i + 1 < |chain| then s1[chain[i + 1] := relinked] else s1
  }

  lemma LeafSplitStored(c: Format, s: Store, chain: seq<PageId>, i: nat, n: PageId, left: Page, right: Page,
      relinked: Page)
    requires Threaded(s, chain) && i < |chain| && n !in s
    requires Linked(left, Prev(chain, i), Some(n)) && Linked(right, Some(chain[i]), Next(chain, i))
    requires i + 1 < |chain| ==> Linked(relinked, Some(n), Next(chain, i + 1)) && SameNode(c, s[chain[i + 1]], relinked)
    ensures var s' := SplitStore(s, chain, i, n, left, right, relinked);
      && Threaded(s', Thread(chain, i, n)) && Untouched(c, s, s', {chain[i]})
      && s'[chain[i]] == left && s'[n] == right
  {
    assert n !in chain;
    var s' := SplitStore(s, chain, i, n, left, right, relinked);
    ThreadAfter(s, s', chain, i, n);
    forall id | id in s && id != chain[i] ensures SameNode(c, s[id], s'[id]) {
    }
  }

  lemma InnerOffChain(c: Format, s: Store, chain: seq<PageId>, id: PageId, ks: Kids)
    requires Threaded(s, chain) && id in s && InnerPage(c, s[id], ks)
    ensures id !in chain
  {
    var raw :| InnerHolds(c, s[id], raw, ks);
    forall i | 0 <= i < |chain| ensures chain[i] != id {
      InnerNotLinked(s[id], raw, Prev(chain, i), Next(chain, i));
    }
  }

  /** Writing pages that are not in the chain leaves it threaded. */
  lemma ThreadedFrame(s: Store, s': Store, chain: seq<PageId>)
    requires Threaded(s, chain)
    requires forall id | id in chain :: id in s' && s'[id] == s[id]
    ensures Threaded(s', chain)
  {
  }

  /** Rewriting an inner page, and adding fresh pages, disturbs no other node and no link. */
  lemma InnerWritten(c: Format, s: Store, s': Store, chain: seq<PageId>, id: PageId)
    requires Threaded(s, chain) && id !in chain
    requires s.Keys <= s'.Keys && forall p | p in s && p != id :: s'[p] == s[p]
    ensures Threaded(s', chain) && Untouched(c, s, s', {id})
  {
    ThreadedFrame(s, s', chain);
    forall p | p in s && p !in {id} ensures SameNode(c, s[p], s'[p]) {
      assert s'[p] == s[p];
    }
  }

  /** Page numbers handed out so far lie below `next`. */
  ghost predicate Below(s: Store, next: PageId) {
    forall p | p in s :: p < next
  }

  /** The pages after an inner page was rewritten, and possibly split to page `next`. */
  function InnerStore(s: Store, id: PageId, left: Page, next: PageId, upper: Option<Page>): (s': Store) {
    if upper.Some? then s[id := left][next := upper.value] else s[id := left]
  }

  lemma InnerStoreKeeps(c: Format, s: Store, chain: seq<PageId>, id: PageId, left: Page, next: PageId,
      upper: Option<Page>)
    requires Threaded(s, chain) && id !in chain && id in s && Below(s, next)
    ensures var s' := InnerStore(s, id, left, next, upper);
      && Threaded(s', chain) && Untouched(c, s, s', {id})
      && Below(s', if upper.Some? then next + 1 else next)
      && id in s' && s'[id] == left && (upper.Some? ==> next in s' && s'[next] == upper.value)
  {
    var s' := InnerStore(s, id, left, next, upper);
    assert s.Keys <= s'.Keys && forall p | p in s && p != id :: s'[p] == s[p];
    InnerWritten(c, s, s', chain, id);
  }

  /** The pages of a grown inner node, its children aside. */
  ghost predicate InnerGrown(c: Format, s: Store, g: Grown) {
    match g
    case Whole(t) => t.Inner? && t.id in s && InnerPage(c, s[t.id], t.kids)
    case Split(l, _, r) =>
      && l.Inner? && r.Inner? && l.id in s && r.id in s
      && InnerPage(c, s[l.id], l.kids) && InnerPage(c, s[r.id], r.kids)
  }

  lemma InnerGrownIs(c: Format, s: Store, id: PageId, ks: Kids, sep: Key, x: Tree, next: PageId, left: Page,
      upper: Option<(Key, Page)>)
    requires id in s && s[id] == left && (upper.Some? ==> next in s && s[next] == upper.value.1)
    requires upper.None? <==> InnerBytes(c, None, ks) + c.sepSize(Some(sep), x.id) <= c.room
    requires upper.None? ==> InnerPage(c, left, AddSep(c, ks, sep, x))
    requires upper.Some? ==>
      var all := AddSep(c, ks, sep, x); var (l, mid, r) := Cut(all, Count(all) / 2);
      upper.value.0 == mid && InnerPage(c, left, l) && InnerPage(c, upper.value.1, r)
    ensures var g := GrowInner(c, id, ks, sep, x, next);
      InnerGrown(c, s, g) && (g.Split? <==> upper.Some?) && (g.Split? ==> g.sep == upper.value.0 && g.right.id == next)
  {
  }

  // ------------------------------------------------------------------ does an insert fit its pages

  ghost predicate NodeFits(c: Format, t: Tree) {
    match t
    case Leaf(_, es) => LeafBytes(c, es) <= c.room
    case Inner(_, ks) => InnerBytes(c, None, ks) <= c.room
  }

  ghost predicate GrownFits(c: Format, g: Grown) {
    match g
    case Whole(t) => NodeFits(c, t)
    case Split(l, _, r) => NodeFits(c, l) && NodeFits(c, r)
  }

  /** Every page that an insert below `t` splits has halves that fit. */
  ghost predicate SplitsFit(c: Format, t: Tree, k: Key, r: Rid, next: PageId)
    decreases t, 1
  {
    GrownFits(c, Insert(c, t, k, r, next).0) && (t.Inner? ==> ChildFits(c, t.kids, k, r, next))
  }

  ghost predicate ChildFits(c: Format, ks: Kids, k: Key, r: Rid, next: PageId)
    decreases ks, 0
  {
    match ks
    case Last(kid) => SplitsFit(c, kid, k, r, next)
    case More(kid, sep, rest) =>
      if c.le(sep, k) then ChildFits(c, rest, k, r, next) else SplitsFit(c, kid, k, r, next)
  }

  lemma {:induction false} ChildFitsIs(c: Format, ks: Kids, k: Key, r: Rid, next: PageId)
    ensures ChildFits(c, ks, k, r, next) == SplitsFit(c, Child(c, ks, k), k, r, next)
  {
    if ks.More? && c.le(ks.sep, k) {
      ChildFitsIs(c, ks.rest, k, r, next);
    }
  }

  ghost predicate RootFits(c: Format, g: Grown) {
    g.Split? ==> InnerBytes(c, None, More(g.left, g.sep, Last(g.right))) <= c.room
  }

  /** The halves of every split fit their pages, and so does a new root. */
  ghost predicate InsertFits(c: Format, s: State, k: Key, r: Rid) {
    SplitsFit(c, s.root, k, r, s.next) && RootFits(c, Insert(c, s.root, k, r, s.next).0)
  }

  // ------------------------------------------------------------------ an inner page written

  /** Add separator `s` and page `child` to inner page `id`, splitting it to page `next` when it is full. */
  method WriteInner(c: Format, pages: Store, next: PageId, id: PageId, s: Key, child: PageId,
      ghost chain: seq<PageId>, ghost ks: Kids, ghost x: Tree)
    returns (now: Store, sep: Option<Key>)
    requires c.Valid() && Threaded(pages, chain) && Below(pages, next)
    requires id in pages && InnerPage(c, pages[id], ks) && child == x.id
    ensures Threaded(now, chain) && Untouched(c, pages, now, {id})
    ensures Below(now, if sep.Some? then next + 1 else next)
    ensures var g := GrowInner(c, id, ks, s, x, next);
      (g.Split? <==> sep.Some?) && (g.Split? ==> g.sep == sep.value && g.right.id == next)
    ensures var g := GrowInner(c, id, ks, s, x, next); GrownFits(c, g) ==> InnerGrown(c, now, g)
  {
    InnerOffChain(c, pages, chain, id, ks);
    var left, upper := GrowInnerPage(c, pages[id], s, child, ks, x);
    var page := if upper.Some? then Some(upper.value.1) else None;
    InnerStoreKeeps(c, pages, chain, id, left, next, page);
    now := InnerStore(pages, id, left, next, page);
    sep := if upper.Some? then Some(upper.value.0) else None;
    InnerGrowsBy(c, id, ks, s, x, next);
    hide AddSep, Cut, InnerBytes, InnerRefilled, SepsSorted, InnerPage, GrowInner;
    if GrownFits(c, GrowInner(c, id, ks, s, x, next)) {
      InnerHalves(c, id, ks, s, x, next, left, upper);
      InnerGrownIs(c, now, id, ks, s, x, next, left, upper);
    }
  }

  lemma InnerGrowsBy(c: Format, id: PageId, ks: Kids, s: Key, x: Tree, next: PageId)
    ensures var g := GrowInner(c, id, ks, s, x, next); var all := AddSep(c, ks, s, x);
      if g.Split? then g.sep == Cut(all, Count(all) / 2).1 && g.right.id == next else true
    ensures GrowInner(c, id, ks, s, x, next).Split? <==> InnerBytes(c, None, ks) + c.sepSize(Some(s), x.id) > c.room
  {
  }

  /** Halves that fit are kept whole. */
  lemma InnerHalves(c: Format, id: PageId, ks: Kids, s: Key, x: Tree, next: PageId, left: Page,
      upper: Option<(Key, Page)>)
    requires c.Valid() && GrownFits(c, GrowInner(c, id, ks, s, x, next))
    requires upper.None? <==> InnerBytes(c, None, ks) + c.sepSize(Some(s), x.id) <= c.room
    requires upper.Some? ==>
      var all := AddSep(c, ks, s, x); var (l, _, r) := Cut(all, Count(all) / 2);
      && SepsSorted(c, None, l) && SepsSorted(c, None, r)
      && InnerIs(left, InnerRefilled(c, Pairs(None, l)))
      && InnerIs(upper.value.1, InnerRefilled(c, Pairs(None, r)))
    ensures upper.Some? ==>
      var all := AddSep(c, ks, s, x); var (l, _, r) := Cut(all, Count(all) / 2);
      InnerPage(c, left, l) && InnerPage(c, upper.value.1, r)
  {
    hide InnerRefilled, InnerPage, InnerBytes, SepsSorted;
    if upper.Some? {
      var all := AddSep(c, ks, s, x);
      var (l, _, r) := Cut(all, Count(all) / 2);
      Rebuilt(c, left, l);
      Rebuilt(c, upper.value.1, r);
    }
  }

  lemma {:induction false} StoredPages(c: Format, s: Store, t: Tree)
    requires Stored(c, s, t)
    ensures Pages(t) <= s.Keys
    decreases t, 1
  {
    if t.Inner? {
      StoredPagesKids(c, s, t.kids);
    }
  }

  lemma {:induction false} StoredPagesKids(c: Format, s: Store, ks: Kids)
    requires StoredKids(c, s, ks)
    ensures PagesKids(ks) <= s.Keys
    decreases ks, 0
  {
    StoredPages(c, s, ks.kid);
    if ks.More? {
      StoredPagesKids(c, s, ks.rest);
    }
  }

  lemma Loosened(c: Format, s: Store, s': Store, except: set<PageId>, wider: set<PageId>)
    requires Untouched(c, s, s', except) && except <= wider
    ensures Untouched(c, s, s', wider)
  {
  }

  lemma Chained2(c: Format, s: Store, s1: Store, s2: Store, except: set<PageId>)
    requires Untouched(c, s, s1, except) && Untouched(c, s1, s2, except)
    ensures Untouched(c, s, s2, except)
  {
    forall id | id in s && id !in except ensures SameNode(c, s[id], s2[id]) {
      assert SameNode(c, s[id], s1[id]) && SameNode(c, s1[id], s2[id]);
    }
  }

  /** The children of an inner node after its page, and at most one fresh page, were rewritten. */
  lemma GrownInnerStored(c: Format, s: Store, s': Store, id: PageId, ks: Kids, sep: Key, x: Tree, next: PageId)
    requires StoredKids(c, s, ks) && Stored(c, s, x)
    requires Untouched(c, s, s', {id}) && id !in PagesKids(ks) + Pages(x)
    requires InnerGrown(c, s', GrowInner(c, id, ks, sep, x, next))
    ensures GrownStored(c, s', GrowInner(c, id, ks, sep, x, next))
  {
    hide Untouched, AddSep, PagesKids, Pages, Stored, StoredKids, InnerGrown, GrowInner;
    StoredFrameKids(c, s, s', {id}, ks);
    StoredFrame(c, s, s', {id}, x);
    StoredAddSep(c, s', ks, sep, x);
    InnerGrownStored(c, s', id, ks, sep, x, next);
  }

  lemma InnerGrownStored(c: Format, s: Store, id: PageId, ks: Kids, sep: Key, x: Tree, next: PageId)
    requires StoredKids(c, s, AddSep(c, ks, sep, x)) && InnerGrown(c, s, GrowInner(c, id, ks, sep, x, next))
    ensures GrownStored(c, s, GrowInner(c, id, ks, sep, x, next))
  {
    hide AddSep, InnerPage, StoredKids;
    var all := AddSep(c, ks, sep, x);
    StoredCut(c, s, all, Count(all) / 2);
  }

  /** A parent's own page is as before when only its child was rewritten. */
  lemma ParentKept(c: Format, s: Store, s': Store, id: PageId, ks: Kids, k: Key, kid: Tree)
    requires Stored(c, s, Inner(id, ks)) && Distinct(Inner(id, ks))
    requires Untouched(c, s, s', Pages(Child(c, ks, k))) && kid.id == Child(c, ks, k).id
    ensures id in s' && InnerPage(c, s'[id], SetChild(c, ks, k, kid))
    ensures Untouched(c, s, s', Pages(Inner(id, ks)))
  {
    ChildPages(c, ks, k);
    assert SameNode(c, s[id], s'[id]);
    SetChildPage(c, s'[id], ks, k, kid);
    Loosened(c, s, s', Pages(Child(c, ks, k)), Pages(Inner(id, ks)));
  }

  /** A parent whose child was rewritten in place: the parent's own page still fits. */
  lemma ChildRewritten(c: Format, s: Store, s': Store, id: PageId, ks: Kids, k: Key, kid: Tree)
    requires Stored(c, s, Inner(id, ks)) && Distinct(Inner(id, ks))
    requires Untouched(c, s, s', Pages(Child(c, ks, k)))
    requires Stored(c, s', kid) && kid.id == Child(c, ks, k).id
    ensures Stored(c, s', Inner(id, SetChild(c, ks, k, kid)))
  {
    ParentKept(c, s, s', id, ks, k, kid);
    StoredSetChild(c, s, s', ks, k, kid);
  }

  /** A parent whose child split: its page, and at most one new page, take up the new separator. */
  lemma ChildSplit(c: Format, s: Store, s1: Store, s2: Store, id: PageId, ks: Kids, k: Key, l: Tree, sep: Key, x: Tree,
      next: PageId, next1: PageId)
    requires Stored(c, s, Inner(id, ks)) && Distinct(Inner(id, ks)) && Below(s, next)
    requires Pages(l) + Pages(x) == Pages(Child(c, ks, k)) + Fresh(next, next1) && GrownDistinct(Split(l, sep, x))
    requires Untouched(c, s, s1, Pages(Inner(id, ks))) && Untouched(c, s1, s2, {id})
    requires Stored(c, s1, Inner(id, SetChild(c, ks, k, l))) && Stored(c, s1, x)
    requires InnerGrown(c, s2, GrowInner(c, id, SetChild(c, ks, k, l), sep, x, next1))
    ensures GrownStored(c, s2, GrowInner(c, id, SetChild(c, ks, k, l), sep, x, next1))
  {
    StoredPages(c, s, Inner(id, ks));
    ChildPages(c, ks, k);
    SetChildPages(c, ks, k, l);
    GrownInnerStored(c, s1, s2, id, SetChild(c, ks, k, l), sep, x, next1);
  }

  // ------------------------------------------------------------------ one entry taken out

  /** Page `q` is leaf page `p` with one `e` taken out. */
  ghost predicate EntryOut(c: Format, p: Page, q: Page, e: Entry) {
    forall es | LeafPage(c, p, es) :: LeafPage(c, q, RemoveOne(es, e))
  }

  lemma {:induction false} RemoveBytes(c: Format, es: seq<Entry>, e: Entry)
    ensures LeafBytes(c, RemoveOne(es, e)) <= LeafBytes(c, es)
  {
    if es != [] && es[0] != e {
      RemoveBytes(c, es[1..], e);
    }
  }

  /** Freeing the slot of `e` takes it out and leaves the siblings alone. */
  lemma SlotFreed(c: Format, p: Page, slot: nat, e: Entry, l: Option<PageId>, r: Option<PageId>)
    requires slot < |p| && p[slot] == Some(LeafEntry(e)) && Linked(p, l, r)
    ensures Linked(p[slot := None], l, r) && EntryOut(c, p, p[slot := None], e)
  {
    var q := p[slot := None];
    FreedCounts(p, slot, e);
    forall es | LeafPage(c, p, es) ensures LeafPage(c, q, RemoveOne(es, e)) {
      RemoveSorted(c, es, e);
      RemoveBytes(c, es, e);
      FreedBody(p, q, es, e);
    }
  }

  lemma FreedCounts(p: Page, slot: nat, e: Entry)
    requires slot < |p| && p[slot] == Some(LeafEntry(e))
    ensures forall x: Option<NodeEntry> | x.Some? ::
      multiset(p)[x] == multiset(p[slot := None])[x] + if x == Some(LeafEntry(e)) then 1 else 0
  {
    assert multiset(p[slot := None]) == multiset(p) - multiset{p[slot]} + multiset{None};
    assert p[slot] in multiset(p);
  }

  lemma FreedBody(p: Page, q: Page, es: seq<Entry>, e: Entry)
    requires forall x: Option<NodeEntry> | x.Some? ::
      multiset(p)[x] == multiset(q)[x] + if x == Some(LeafEntry(e)) then 1 else 0
    requires LeafBody(p, es)
    ensures LeafBody(q, RemoveOne(es, e))
  {
    var rest := RemoveOne(es, e);
    assert multiset(rest) == multiset(es) - multiset{e};
    forall x: Option<NodeEntry> | x.Some? && !x.value.Meta?
      ensures multiset(q)[x] == if x.value.LeafEntry? then multiset(rest)[x.value.entry] else 0
    {
      assert multiset(p)[x] == if x.value.LeafEntry? then multiset(es)[x.value.entry] else 0;
    }
  }

  lemma {:induction false} DropLeafSet(t: Tree, id: PageId, e: Entry)
    ensures LeafSet(Drop(t, id, e)) == LeafSet(t)
    decreases t, 1
  {
    if t.Inner? {
      DropLeafSetKids(t.kids, id, e);
    }
  }

  lemma {:induction false} DropLeafSetKids(ks: Kids, id: PageId, e: Entry)
    ensures LeafSetKids(DropKids(ks, id, e)) == LeafSetKids(ks)
    decreases ks, 0
  {
    DropLeafSet(ks.kid, id, e);
    if ks.More? {
      DropLeafSetKids(ks.rest, id, e);
    }
  }

  lemma {:induction false} DropPairs(c: Format, key: Option<Key>, ks: Kids, id: PageId, e: Entry)
    ensures Pairs(key, DropKids(ks, id, e)) == Pairs(key, ks)
    ensures SepsSorted(c, key, ks) ==> SepsSorted(c, key, DropKids(ks, id, e))
    ensures InnerBytes(c, key, DropKids(ks, id, e)) == InnerBytes(c, key, ks)
    decreases ks
  {
    if ks.More? {
      DropPairs(c, Some(ks.sep), ks.rest, id, e);
    }
  }

  lemma DropInnerPage(c: Format, p: Page, ks: Kids, id: PageId, e: Entry)
    requires InnerPage(c, p, ks)
    ensures InnerPage(c, p, DropKids(ks, id, e))
  {
    DropPairs(c, None, ks, id, e);
    var raw :| InnerHolds(c, p, raw, ks);
    assert InnerHolds(c, p, raw, DropKids(ks, id, e));
  }

  lemma {:induction false} DropStored(c: Format, s: Store, s': Store, t: Tree, id: PageId, e: Entry)
    requires Stored(c, s, t) && id in s && s'.Keys == s.Keys && EntryOut(c, s[id], s'[id], e)
    requires forall p | p in s && p != id :: s'[p] == s[p]
    requires forall ks :: !InnerPage(c, s[id], ks)
    ensures Stored(c, s', Drop(t, id, e))
    decreases t, 1
  {
    if t.Inner? {
      DropStoredKids(c, s, s', t.kids, id, e);
      DropInnerPage(c, s[t.id], t.kids, id, e);
    }
  }

  lemma {:induction false} DropStoredKids(c: Format, s: Store, s': Store, ks: Kids, id: PageId, e: Entry)
    requires StoredKids(c, s, ks) && id in s && s'.Keys == s.Keys && EntryOut(c, s[id], s'[id], e)
    requires forall p | p in s && p != id :: s'[p] == s[p]
    requires forall ks :: !InnerPage(c, s[id], ks)
    ensures StoredKids(c, s', DropKids(ks, id, e))
    decreases ks, 0
  {
    DropStored(c, s, s', ks.kid, id, e);
    if ks.More? {
      DropStoredKids(c, s, s', ks.rest, id, e);
    }
  }

  // ------------------------------------------------------------------ the whole index

  /** The tree in its pages: uniform depth, no page used twice, and the chain threads exactly its leaves. */
  ghost predicate Held(c: Format, s: Store, chain: seq<PageId>, t: Tree, depth: nat, next: PageId) {
    && Shape(t, depth)
    && Distinct(t) && (forall p | p in Pages(t) :: 1 <= p)
    && Stored(c, s, t) && Below(s, next)
    && Threaded(s, chain)
    && (forall id :: id in chain <==> id in LeafSet(t))
  }

  lemma AfterMembers(chain: seq<PageId>, id: PageId, x: PageId)
    requires id in chain
    ensures forall p :: p in After(chain, id, x) <==> p in chain || p == x
  {
    var i := Where(chain, id);
    AfterAt(chain, i, x);
    assert chain == chain[..i + 1] + chain[i + 1..];
  }

  /** The same of what an insert hands up, before the root is settled. */
  ghost predicate GrownHeld(c: Format, s: Store, chain: seq<PageId>, g: Grown, depth: nat, next: PageId) {
    && GrownShape(g, depth)
    && GrownDistinct(g) && (forall p | p in GrownPages(g) :: 1 <= p)
    && GrownStored(c, s, g) && Below(s, next)
    && Threaded(s, chain)
    && (forall id :: id in chain <==> id in GrownLeafSet(g))
  }

  ghost function ChainAfter(c: Format, chain: seq<PageId>, t: Tree, k: Key, r: Rid, next: PageId): (now: seq<PageId>) {
    if LeafSplits(c, t, k, r, next) then After(chain, Reached(c, t, k).id, next) else chain
  }

  /** An insert whose pages are in place keeps the shape, the page numbers and the chain in order. */
  lemma InsertHeld(c: Format, s: Store, s': Store, chain: seq<PageId>, t: Tree, depth: nat, k: Key, r: Rid,
      next: PageId)
    requires Held(c, s, chain, t, depth, next)
    requires var (g, next') := Insert(c, t, k, r, next); GrownStored(c, s', g) && Below(s', next')
    requires Threaded(s', ChainAfter(c, chain, t, k, r, next))
    ensures var (g, next') := Insert(c, t, k, r, next);
      GrownHeld(c, s', ChainAfter(c, chain, t, k, r, next), g, depth, next')
  {
    hide LeafPage, InnerPage, Linked, LeafSplits, Insert, Shape, Distinct, Reached, Threaded;
    StoredPages(c, s, t);
    InsertShape(c, t, k, r, next, depth);
    InsertPages(c, t, k, r, next);
    InsertLeafSet(c, t, k, r, next);
    ReachedInSet(c, t, k);
    AfterMembers(chain, Reached(c, t, k).id, next);
    assert t.id in Pages(t);
  }

  /** The new root's page disturbs nothing below it. */
  lemma RootStored(c: Format, s: Store, l: Tree, sep: Key, r: Tree, next: PageId, top: Page)
    requires Stored(c, s, l) && Stored(c, s, r) && Below(s, next) && InnerPage(c, top, More(l, sep, Last(r)))
    ensures Stored(c, s[next := top], Inner(next, More(l, sep, Last(r))))
  {
    var s' := s[next := top];
    assert Untouched(c, s, s', {}) by {
      assert s.Keys <= s'.Keys;
      forall id | id in s ensures SameNode(c, s[id], s'[id]) {
        assert s'[id] == s[id];
      }
    }
    StoredFrame(c, s, s', {}, l);
    StoredFrame(c, s, s', {}, r);
    assert StoredKids(c, s', Last(r));
    assert StoredKids(c, s', More(l, sep, Last(r)));
  }

  lemma RootPages(c: Format, s: Store, l: Tree, sep: Key, r: Tree, next: PageId)
    requires Stored(c, s, l) && Stored(c, s, r) && Below(s, next)
    requires GrownDistinct(Split(l, sep, r)) && forall p | p in Pages(l) + Pages(r) :: 1 <= p
    ensures var t := Inner(next, More(l, sep, Last(r))); Distinct(t) && forall p | p in Pages(t) :: 1 <= p
  {
    StoredPages(c, s, l);
    StoredPages(c, s, r);
    assert l.id in Pages(l);
    var ks := More(l, sep, Last(r));
    assert PagesKids(Last(r)) == Pages(r) && PagesKids(ks) == Pages(l) + Pages(r);
    assert DistinctKids(Last(r)) && DistinctKids(ks);
  }

  lemma RootHeld(c: Format, s: Store, chain: seq<PageId>, l: Tree, sep: Key, r: Tree, depth: nat, next: PageId,
      top: Page)
    requires GrownHeld(c, s, chain, Split(l, sep, r), depth, next)
    requires InnerPage(c, top, More(l, sep, Last(r)))
    ensures Held(c, s[next := top], chain, Inner(next, More(l, sep, Last(r))), depth + 1, next + 1)
  {
    hide LeafPage, InnerPage, Linked, Stored, Pages, Distinct;
    RootStored(c, s, l, sep, r, next, top);
    RootPages(c, s, l, sep, r, next);
    ThreadedFrame(s, s[next := top], chain);
    var ks := More(l, sep, Last(r));
    assert ShapeKids(Last(r), depth) && ShapeKids(ks, depth);
    assert LeafSetKids(Last(r)) == LeafSet(r) && LeafSetKids(ks) == LeafSet(l) + LeafSet(r);
  }

  /** The state once a split root got its two halves as children. */
  ghost function Rooted(g: Grown, depth: nat, chain: seq<PageId>, next: PageId): (s: State) {
    match g
    case Whole(t) => State(t, depth, chain, next)
    case Split(l, sep, r) => State(Inner(next, More(l, sep, Last(r))), depth + 1, chain, next + 1)
  }

  lemma PutIs(c: Format, s: State, k: Key, r: Rid)
    ensures var (g, next) := Insert(c, s.root, k, r, s.next);
      Put(c, s, k, r) == Rooted(g, s.depth, ChainAfter(c, s.chain, s.root, k, r, s.next), next)
  {
  }

  lemma WholeHeld(c: Format, s: Store, chain: seq<PageId>, t: Tree, depth: nat, next: PageId)
    requires GrownHeld(c, s, chain, Whole(t), depth, next)
    ensures Held(c, s, chain, t, depth, next)
  {
  }

  lemma LinkedNotInner(c: Format, p: Page, l: Option<PageId>, r: Option<PageId>, ks: Kids)
    requires Linked(p, l, r)
    ensures !InnerPage(c, p, ks)
  {
    forall raw ensures !InnerHolds(c, p, raw, ks) {
      InnerNotLinked(p, raw, l, r);
    }
  }

  /** Taking an entry out of the leaf at chain position `i`. */
  lemma EntryOutHeld(c: Format, s: Store, chain: seq<PageId>, t: Tree, depth: nat, next: PageId, i: nat, page: Page,
      e: Entry)
    requires Held(c, s, chain, t, depth, next) && i < |chain|
    requires Linked(page, Prev(chain, i), Next(chain, i)) && EntryOut(c, s[chain[i]], page, e)
    ensures Held(c, s[chain[i] := page], chain, Drop(t, chain[i], e), depth, next)
  {
    hide LeafPage, InnerPage, Linked, EntryOut;
    var id := chain[i];
    var s' := s[id := page];
    forall ks ensures !InnerPage(c, s[id], ks) {
      LinkedNotInner(c, s[id], Prev(chain, i), Next(chain, i), ks);
    }
    DropStored(c, s, s', t, id, e);
    DropLeafSet(t, id, e);
    DropShape(t, id, e, depth);
    LeafReplaced(c, s, s', chain, i);
  }

  // ------------------------------------------------------------------ pages that hold the result of an insert

  lemma StoredFits(c: Format, s: Store, g: Grown)
    requires GrownStored(c, s, g)
    ensures GrownFits(c, g)
  {
  }

  lemma {:induction false} ChildStored(c: Format, s: Store, ks: Kids, k: Key, kid: Tree)
    requires StoredKids(c, s, SetChild(c, ks, k, kid))
    ensures Stored(c, s, kid)
  {
    if ks.More? && c.le(ks.sep, k) {
      ChildStored(c, s, ks.rest, k, kid);
    }
  }

  lemma {:induction false} SepStored(c: Format, s: Store, ks: Kids, sep: Key, x: Tree)
    requires StoredKids(c, s, AddSep(c, ks, sep, x))
    ensures StoredKids(c, s, ks) && Stored(c, s, x)
  {
    if ks.More? && c.le(ks.sep, sep) {
      SepStored(c, s, ks.rest, sep, x);
    }
  }

  lemma {:induction false} HalvesStored(c: Format, s: Store, ks: Kids, n: nat)
    requires 1 <= n < Count(ks) && StoredKids(c, s, Cut(ks, n).0) && StoredKids(c, s, Cut(ks, n).2)
    ensures StoredKids(c, s, ks)
    decreases ks
  {
    if n > 1 {
      HalvesStored(c, s, ks.rest, n - 1);
    }
  }

  lemma GrownKidsStored(c: Format, s: Store, id: PageId, ks: Kids, sep: Key, x: Tree, next: PageId)
    requires GrownStored(c, s, GrowInner(c, id, ks, sep, x, next))
    ensures StoredKids(c, s, ks) && Stored(c, s, x)
  {
    hide AddSep, InnerPage;
    var all := AddSep(c, ks, sep, x);
    if GrowInner(c, id, ks, sep, x, next).Split? {
      HalvesStored(c, s, all, Count(all) / 2);
    }
    SepStored(c, s, ks, sep, x);
  }

  /** Pages can hold the result of an insert only if the halves of every split fit. */
  lemma {:induction false} OnlyFits(c: Format, s: Store, t: Tree, k: Key, r: Rid, next: PageId)
    requires GrownStored(c, s, Insert(c, t, k, r, next).0)
    ensures SplitsFit(c, t, k, r, next)
    decreases t, 1
  {
    StoredFits(c, s, Insert(c, t, k, r, next).0);
    if t.Inner? {
      var (g, n) := InsertChild(c, t.kids, k, r, next);
      if g.Split? {
        GrownKidsStored(c, s, t.id, SetChild(c, t.kids, k, g.left), g.sep, g.right, n);
      }
      ChildStored(c, s, t.kids, k, if g.Whole? then g.tree else g.left);
      OnlyChildFits(c, s, t.kids, k, r, next);
    }
  }

  lemma {:induction false} OnlyChildFits(c: Format, s: Store, ks: Kids, k: Key, r: Rid, next: PageId)
    requires GrownStored(c, s, InsertChild(c, ks, k, r, next).0)
    ensures ChildFits(c, ks, k, r, next)
    decreases ks, 0
  {
    if ks.More? && c.le(ks.sep, k) {
      OnlyChildFits(c, s, ks.rest, k, r, next);
    } else {
      OnlyFits(c, s, ks.kid, k, r, next);
    }
  }

  lemma HeldFits(c: Format, s: Store, chain: seq<PageId>, state: State, k: Key, r: Rid)
    requires var after := Put(c, state, k, r); Held(c, s, chain, after.root, after.depth, after.next)
    ensures InsertFits(c, state, k, r)
  {
    var g := Insert(c, state.root, k, r, state.next).0;
    if g.Split? {
      var ks := More(g.left, g.sep, Last(g.right));
      assert StoredKids(c, s, ks) && StoredKids(c, s, Last(g.right));
    }
    OnlyFits(c, s, state.root, k, r, state.next);
  }

  // ------------------------------------------------------------------ sizes for which every insert fits

  /** Where sizes and room are related by `Roomy`, every insert fits. */
  lemma {:induction false} RoomyFits(c: Format, s: Store, t: Tree, k: Key, r: Rid, next: PageId)
    requires Roomy(c) && Stored(c, s, t)
    ensures SplitsFit(c, t, k, r, next)
    decreases t, 1
  {
    RoomyGrown(c, s, t, k, r, next);
    if t.Inner? {
      RoomyChildFits(c, s, t.kids, k, r, next);
    }
  }

  lemma RoomyGrown(c: Format, s: Store, t: Tree, k: Key, r: Rid, next: PageId)
    requires Roomy(c) && Stored(c, s, t)
    ensures GrownFits(c, Insert(c, t, k, r, next).0)
  {
    hide Roomy;
    match t
    case Leaf(id, es) => RoomyLeaf(c, id, es, Entry(k, r), next);
    case Inner(id, ks) =>
      InsertChildId(c, ks, k, r, next);
      InsertId(c, Child(c, ks, k), k, r, next);
      var (g, n) := InsertChild(c, ks, k, r, next);
      SetChildPairs(c, None, ks, k, if g.Whole? then g.tree else g.left);
      if g.Split? {
        RoomyInner(c, id, SetChild(c, ks, k, g.left), g.sep, g.right, n);
      }
  }

  lemma {:induction false} RoomyChildFits(c: Format, s: Store, ks: Kids, k: Key, r: Rid, next: PageId)
    requires Roomy(c) && StoredKids(c, s, ks)
    ensures ChildFits(c, ks, k, r, next)
    decreases ks, 0
  {
    if ks.More? && c.le(ks.sep, k) {
      RoomyChildFits(c, s, ks.rest, k, r, next);
    } else {
      RoomyFits(c, s, ks.kid, k, r, next);
    }
  }

  lemma RoomyLeaf(c: Format, id: PageId, es: seq<Entry>, e: Entry, next: PageId)
    requires Roomy(c) && LeafBytes(c, es) <= c.room
    ensures GrownFits(c, GrowLeaf(c, id, es, e, next))
  {
    LeafSplitFits(c, es, e);
    PlaceBytes(c, es, e);
  }

  lemma PlaceBytes(c: Format, es: seq<Entry>, e: Entry)
    ensures LeafBytes(c, Place(c, es, e)) == LeafBytes(c, es) + c.leafSize(e)
  {
    LeafBytesSum(c, es);
    LeafBytesSum(c, Place(c, es, e));
    assert multiset(Place(c, es, e)) == multiset([e] + es);
    SumPermuted(c.leafSize, Place(c, es, e), [e] + es);
    assert ([e] + es)[1..] == es;
  }

  lemma RoomyInner(c: Format, id: PageId, ks: Kids, s: Key, x: Tree, next: PageId)
    requires Roomy(c) && InnerBytes(c, None, ks) <= c.room
    ensures GrownFits(c, GrowInner(c, id, ks, s, x, next))
  {
    InnerSplitFits(c, ks, s, x);
    AddSepBytes(c, ks, s, x);
  }

  /** Where sizes and room are related by `Roomy`, an insert into an index held in pages fits. */
  lemma RoomyInsert(c: Format, s: Store, chain: seq<PageId>, state: State, k: Key, r: Rid)
    requires Roomy(c) && Held(c, s, chain, state.root, state.depth, state.next)
    ensures InsertFits(c, state, k, r)
  {
    RoomyFits(c, s, state.root, k, r, state.next);
    var g := Insert(c, state.root, k, r, state.next).0;
    if g.Split? {
      RootRoomy(c, g.left, g.sep, g.right);
    }
  }
}
