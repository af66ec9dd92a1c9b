/** The B+Tree index over pages. */
module TreeIndex {
  import opened Base
  import opened TreeModel
  import opened TreeInserts
  import opened TreeChain
  import opened TreeSearch
  import opened TreeRuns
  import opened NodePages
  import opened PageOps
  import opened PageSplits
  import opened TreeStore

  lemma ScanStart(rows: Rows, land: nat, k: Key)
    requires land < |rows|
    ensures SearchRows(rows, land, k) == [] + ScanRight(rows, WalkLeft(rows, land, k), k)
  {
  }

  lemma ScanStep(rows: Rows, i: nat, k: Key, before: seq<Rid>)
    requires i < |rows|
    ensures before + ScanRight(rows, i, k) == before + Hits(rows[i], k)
      + if LastIs(rows[i], k) && i + 1 < |rows| then ScanRight(rows, i + 1, k) else []
  {
  }

  /** The record ids stored under `k` among `entries`. */
  method Collect(entries: seq<Entry>, k: Key) returns (rids: seq<Rid>)
    ensures rids == Hits(entries, k)
  {
    rids := [];
    var i := 0;
    while i < |entries|
      invariant 0 <= i <= |entries|
      invariant rids + Hits(entries[i..], k) == Hits(entries, k)
    {
      if entries[i].key == k {
        rids := rids + [entries[i].rid];
      }
      i := i + 1;
    }
  }

  class Index {
    const c: Format
    /** Page 0, the header: the number of the root page. */
    var root: PageId
    var pages: Store
    var next: PageId

    ghost var tree: Tree
    ghost var depth: nat
    ghost var chain: seq<PageId>

    /** The index as a value. */
    ghost function Model(): (s: State)
      reads this
    {
      State(tree, depth, chain, next)
    }

    ghost predicate Valid()
      reads this
    {
      && root == tree.id
      && Held(c, pages, chain, tree, depth, next)
    }

    constructor (format: Format)
      requires format.Valid()
      ensures Valid() && Model() == EMPTY && c == format
    {
      c := format;
      root, next := 1, 2;
      pages := map[1 := [Some(Meta(true, None, None))]];
      tree, depth, chain := Leaf(1, []), 0, [1];
      new;
      assert LeafPage(c, pages[1], []);
    }

    // ---------------------------------------------------------------- descent

    /** Descend from page `id` to the leaf that `k` leads to. */
    method FindLeaf(id: PageId, k: Key, ghost t: Tree) returns (leaf: PageId)
      requires c.Valid() && Stored(c, pages, t) && id == t.id
      requires forall l | l in LeafSet(t) :: l in chain
      requires Threaded(pages, chain)
      ensures leaf == Reached(c, t, k).id
      decreases t
    {
      var isLeaf := ReadNode(id, t);
      if isLeaf {
        leaf := id;
      } else {
        ghost var ks := t.kids;
        var child := ReadChild(id, k, ks);
        ChildSmaller(c, ks, k);
        ChildLeafSet(c, ks, k);
        StoredChild(c, pages, ks, k);
        leaf := FindLeaf(child, k, Child(c, ks, k));
      }
    }

    method ReadNode(id: PageId, ghost t: Tree) returns (isLeaf: bool)
      requires Stored(c, pages, t) && id == t.id
      requires forall l | l in LeafSet(t) :: l in chain
      requires Threaded(pages, chain)
      ensures isLeaf <==> t.Leaf?
    {
      if t.Leaf? {
        assert id in LeafSet(t) && id in chain;
        ghost var i := Where(chain, id);
        assert Linked(pages[id], Prev(chain, i), Next(chain, i));
      } else {
        ghost var raw :| InnerHolds(c, pages[id], raw, t.kids);
        assert InnerIs(pages[id], raw);
      }
      var flag := ReadIsLeaf(pages[id]);
      isLeaf := flag.value;
    }

    /** The child of inner page `id` that `k` leads to. */
    method ReadChild(id: PageId, k: Key, ghost ks: Kids) returns (child: PageId)
      requires id in pages && InnerPage(c, pages[id], ks)
      ensures child == Child(c, ks, k).id
    {
      ghost var raw :| InnerHolds(c, pages[id], raw, ks);
      var entries := ReadInner(c, pages[id], raw);
      child := FindChild(c, entries, k);
      PairChildIs(c, None, ks, k);
    }
  
    // ---------------------------------------------------------------- insert

    /** Store the two halves of leaf `id` and point its old right neighbour back at the new page `n`. */
    method StoreSplit(id: PageId, n: PageId, left: Page, right: Page, oldRight: Option<PageId>)
      requires Threaded(pages, chain) && id in chain && n !in pages
      requires var i := Where(chain, id);
        && oldRight == Next(chain, i)
        && Linked(left, Prev(chain, i), Some(n)) && Linked(right, Some(id), oldRight)
      modifies this`pages, this`chain
      ensures chain == After(old(chain), id, n) && Threaded(pages, chain)
      ensures Untouched(c, old(pages), pages, {id})
      ensures pages.Keys == old(pages).Keys + {n} && pages[id] == left && pages[n] == right
    {
      ghost var i, before, was := Where(chain, id), chain, pages;
      ghost var neighbour: Page := [];
      var now := pages[n := right][id := left];
      if oldRight.Some? {
        ghost var l, r := Prev(before, i + 1), Next(before, i + 1);
        assert oldRight.value == before[i + 1] && before[i + 1] != id;
        assert Linked(was[oldRight.value], l, r);
        var relinked := SetLeft(now[oldRight.value], Some(n), l, r);
        RelinkedSame(c, was[oldRight.value], relinked, l, r);
        neighbour := relinked;
        now := now[oldRight.value := relinked];
      }
      AfterAt(before, i, n);
      LeafSplitStored(c, was, before, i, n, left, right, neighbour);
      assert now == SplitStore(was, before, i, n, left, right, neighbour);
      pages := now;
      chain := After(chain, id, n);
    }

    /** Insert into leaf page `id`; a split threads the new leaf in right after it, and keeps of each half what fits. */
    method InsertIntoLeaf(id: PageId, k: Key, r: Rid, ghost es: seq<Entry>) returns (split: Option<(Key, PageId)>)
      requires c.Valid() && Threaded(pages, chain) && id in chain
      requires Below(pages, next)
      requires id in pages && LeafPage(c, pages[id], es)
      modifies this`pages, this`next, this`chain
      ensures Below(pages, next)
      ensures Threaded(pages, chain) && Untouched(c, old(pages), pages, {id})
      ensures match GrowLeaf(c, id, es, Entry(k, r), old(next))
        case Whole(t) =>
          && split == None && next == old(next) && chain == old(chain)
          && Stored(c, pages, t)
        case Split(a, s, x) =>
          && split == Some((s, x.id)) && next == old(next) + 1 && chain == After(old(chain), id, old(next))
          && Stored(c, pages, Leaf(a.id, Refilled(c, a.entries)))
          && Stored(c, pages, Leaf(x.id, Refilled(c, x.entries)))
    {
      ghost var i := Where(chain, id);
      var n := next;
      GrowLeafIds(c, id, es, Entry(k, r), n);
      hide GrowLeaf, Refilled, LeafBytes;
      var left, upper, oldRight := GrowLeafPage(c, pages[id], id, Entry(k, r), n, Prev(chain, i), Next(chain, i), es);
      if upper.None? {
        ghost var was := pages;
        pages := pages[id := left];
        LeafReplaced(c, was, pages, chain, i);
        split := None;
      } else {
        next := n + 1;
        StoreSplit(id, n, left, upper.value.1, oldRight);
        split := Some((upper.value.0, n));
      }
    }

    lemma LeafKept(id: PageId, k: Key, r: Rid, es: seq<Entry>, n: PageId)
      requires GrownFits(c, GrowLeaf(c, id, es, Entry(k, r), n))
      ensures match GrowLeaf(c, id, es, Entry(k, r), n)
        case Whole(_) => true
        case Split(a, _, x) => Leaf(a.id, Refilled(c, a.entries)) == a && Leaf(x.id, Refilled(c, x.entries)) == x
    {
      hide Refilled, LeafBytes;
      var g := GrowLeaf(c, id, es, Entry(k, r), n);
      if g.Split? {
        RefilledIff(c, g.left.entries);
        RefilledIff(c, g.right.entries);
      }
    }

    /** Add separator `s` and page `child` to inner page `id`. */
    method InsertIntoInternal(id: PageId, s: Key, child: PageId, ghost ks: Kids, ghost x: Tree)
      returns (split: Option<(Key, PageId)>)
      requires c.Valid() && Threaded(pages, chain) && Below(pages, next)
      requires id in pages && InnerPage(c, pages[id], ks) && child == x.id
      modifies this`pages, this`next
      ensures Threaded(pages, chain) && Below(pages, next) && Untouched(c, old(pages), pages, {id})
      ensures var g := GrowInner(c, id, ks, s, x, old(next));
        && (GrownFits(c, g) ==> InnerGrown(c, pages, g))
        && split == (if g.Split? then Some((g.sep, g.right.id)) else None)
        && next == if g.Split? then old(next) + 1 else old(next)
    {
      hide LeafPage, InnerPage, Linked, GrownFits;
      var now, sep := WriteInner(c, pages, next, id, s, child, chain, ks, x);
      split := if sep.Some? then Some((sep.value, next)) else None;
      next := if sep.Some? then next + 1 else next;
      pages := now;
    }

    /** A subtree in its pages, its leaves on the chain. */
    ghost predicate Laid(t: Tree)
      reads this
    {
      && Threaded(pages, chain) && Below(pages, next)
      && Stored(c, pages, t) && Distinct(t)
      && forall l | l in LeafSet(t) :: l in chain
    }

    /** Insert below page `id`. */
    method InsertRecursive(id: PageId, k: Key, r: Rid, ghost t: Tree) returns (split: Option<(Key, PageId)>)
      requires c.Valid() && Laid(t) && id == t.id
      modifies this`pages, this`next, this`chain
      ensures Threaded(pages, chain) && Below(pages, next) && Untouched(c, old(pages), pages, Pages(t))
      ensures var (g, n) := TreeModel.Insert(c, t, k, r, old(next));
        && next == n && (SplitsFit(c, t, k, r, old(next)) ==> GrownStored(c, pages, g))
        && split == if g.Split? then Some((g.sep, g.right.id)) else None
      ensures chain == ChainAfter(c, old(chain), t, k, r, old(next))
      decreases t
    {
      hide LeafPage, InnerPage, Linked, GrownFits;
      var isLeaf := ReadNode(id, t);
      ghost var n := next;
      if isLeaf {
        split := InsertIntoLeaf(id, k, r, t.entries);
        if SplitsFit(c, t, k, r, n) {
          LeafKept(id, k, r, t.entries, n);
        }
      } else {
        ghost var ks, was := t.kids, pages;
        ghost var kid := Child(c, ks, k);
        ChildLaid(t, k);
        ChildFitsIs(c, ks, k, r, n);
        var child := ReadChild(id, k, ks);
        split := InsertRecursive(child, k, r, kid);
        InsertId(c, kid, k, r, n);
        ghost var g := TreeModel.Insert(c, kid, k, r, n).0;
        ParentKept(c, was, pages, id, ks, k, if g.Whole? then g.tree else g.left);
        if SplitsFit(c, t, k, r, n) {
          ChildRewritten(c, was, pages, id, ks, k, if g.Whole? then g.tree else g.left);
        }
        if split.Some? {
          ghost var was1, n1 := pages, next;
          split := InsertIntoInternal(id, split.value.0, split.value.1, SetChild(c, ks, k, g.left), g.right);
          Loosened(c, was1, pages, {id}, Pages(t));
          Chained2(c, was, was1, pages, Pages(t));
          if SplitsFit(c, t, k, r, n) {
            InsertPages(c, kid, k, r, n);
            ChildSplit(c, was, was1, pages, id, ks, k, g.left, g.sep, g.right, n, n1);
          }
        }
      }
    }

    lemma ChildLaid(t: Tree, k: Key)
      requires Laid(t) && t.Inner?
      ensures Laid(Child(c, t.kids, k)) && Child(c, t.kids, k) < t
      ensures forall p | p in Pages(Child(c, t.kids, k)) :: p < next
      ensures Reached(c, t, k) == Reached(c, Child(c, t.kids, k), k)
      ensures forall r :: InsertChild(c, t.kids, k, r, next) == TreeModel.Insert(c, Child(c, t.kids, k), k, r, next)
    {
      ChildSmaller(c, t.kids, k);
      ChildLeafSet(c, t.kids, k);
      StoredChild(c, pages, t.kids, k);
      ChildPages(c, t.kids, k);
      StoredPages(c, pages, t);
      forall r ensures InsertChild(c, t.kids, k, r, next) == TreeModel.Insert(c, Child(c, t.kids, k), k, r, next) {
        InsertChildId(c, t.kids, k, r, next);
      }
    }

    /** When the root split, a new root gets the two halves as its children. */
    method SettleRoot(split: Option<(Key, PageId)>, ghost g: Grown)
      requires c.Valid() && root == if g.Whole? then g.tree.id else g.left.id
      requires split == if g.Split? then Some((g.sep, g.right.id)) else None
      modifies this
      ensures Model() == Rooted(g, old(depth), old(chain), old(next))
      ensures GrownHeld(c, old(pages), old(chain), g, old(depth), old(next)) && RootFits(c, g) ==> Valid()
    {
      hide LeafPage, InnerPage, Linked, InnerBytes;
      if split.Some? {
        var top := NewRoot(c, root, split.value.0, split.value.1, g.left, g.right);
        if GrownHeld(c, pages, chain, g, depth, next) && RootFits(c, g) {
          RootHeld(c, pages, chain, g.left, g.sep, g.right, depth, next, top);
        }
        pages := pages[next := top];
        root, next := next, next + 1;
        tree, depth := Inner(root, More(g.left, g.sep, Last(g.right))), depth + 1;
      } else {
        if GrownHeld(c, pages, chain, g, depth, next) {
          WholeHeld(c, pages, chain, g.tree, depth, next);
        }
        tree := g.tree;
      }
    }

    /** The pages hold the index with the new entry if and only if every page the insert splits has halves that fit. */
    method Insert(k: Key, r: Rid)
      requires Valid() && c.Valid()
      modifies this
      ensures Model() == Put(c, old(Model()), k, r)
      ensures Valid() <==> InsertFits(c, old(Model()), k, r)
    {
      hide LeafPage, InnerPage, Linked, SplitsFit;
      ghost var t, n, was, links := tree, next, pages, chain;
      PutIs(c, Model(), k, r);
      var split := InsertRecursive(root, k, r, t);
      InsertId(c, t, k, r, n);
      if SplitsFit(c, t, k, r, n) {
        InsertHeld(c, was, pages, links, t, depth, k, r, n);
      }
      SettleRoot(split, TreeModel.Insert(c, t, k, r, n).0);
      if Valid() {
        HeldFits(c, pages, chain, old(Model()), k, r);
      }
    }

    // ---------------------------------------------------------------- search and delete

    /** The entries of the leaves along the chain. */
    ghost function ChainEntries(): (rows: Rows)
      reads this
      ensures |rows| == |chain|
    {
      ChainRows(Model())
    }

    /** Where a search for `k` enters the chain. */
    ghost function Landing(k: Key): (i: nat)
      reads this
    {
      Where(chain, Reached(c, tree, k).id)
    }

    lemma RowPage(i: nat)
      requires Valid() && i < |chain|
      ensures chain[i] in pages && LeafPage(c, pages[chain[i]], ChainEntries()[i])
      ensures Linked(pages[chain[i]], Prev(chain, i), Next(chain, i))
    {
      hide LeafPage, InnerPage, Linked;
      assert chain[i] in chain;
      LeafStored(c, pages, tree, chain[i]);
    }

    /** Read the leaf at chain position `i`. */
    method ReadRow(id: PageId, ghost i: nat)
      returns (left: Option<PageId>, right: Option<PageId>, entries: seq<Entry>)
      requires Valid() && c.Valid() && i < |chain| && id == chain[i]
      ensures left == Prev(chain, i) && right == Next(chain, i) && entries == ChainEntries()[i]
    {
      RowPage(i);
      left, right, entries := ReadLeaf(c, pages[id], Prev(chain, i), Next(chain, i), ChainEntries()[i]);
    }

    method Descend(k: Key) returns (leaf: PageId)
      requires Valid() && c.Valid()
      ensures Landing(k) < |chain| && leaf == chain[Landing(k)]
    {
      hide LeafPage, InnerPage, Linked;
      leaf := FindLeaf(root, k, tree);
      ReachedInSet(c, tree, k);
    }

    /** Walk left from leaf `start` to the first leaf of the run of `k`. */
    method LeftmostRunLeaf(start: PageId, k: Key, ghost land: nat) returns (current: PageId)
      requires Valid() && c.Valid() && land < |chain| && start == chain[land]
      ensures current == chain[WalkLeft(ChainEntries(), land, k)]
    {
      hide LeafPage, InnerPage, Linked, Held;
      current := start;
      ghost var i := land;
      var walking := true;
      while walking
        invariant 0 <= i < |chain| && current == chain[i]
        invariant WalkLeft(ChainEntries(), i, k) == WalkLeft(ChainEntries(), land, k)
        invariant !walking ==> WalkLeft(ChainEntries(), i, k) == i
        decreases i, walking
      {
        var left, _, _ := ReadRow(current, i);
        walking := false;
        if left.Some? {
          var _, _, before := ReadRow(left.value, i - 1);
          if LastIs(before, k) {
            current, i, walking := left.value, i - 1, true;
          }
        }
      }
    }

    /** Every record id stored under `k`, as far as the run of `k` goes on along the chain. */
    method Search(k: Key) returns (rids: seq<Rid>)
      requires Valid() && c.Valid()
      ensures rids == TreeRuns.Search(c, Model(), k)
    {
      hide LeafPage, InnerPage, Linked, Held, Lookup, Reached, WalkLeft, LastIs, ScanRight, Hits, SearchRows;
      var landed := Descend(k);
      var first := LeftmostRunLeaf(landed, k, Landing(k));
      var current := Some(first);
      ghost var rows := ChainEntries();
      ghost var i := WalkLeft(rows, Landing(k), k);
      rids := [];
      ScanStart(rows, Landing(k), k);
      while current.Some?
        invariant current.Some? ==> i < |chain| && current.value == chain[i]
        invariant rids + (if current.Some? then ScanRight(rows, i, k) else []) == SearchRows(rows, Landing(k), k)
        decreases if current.Some? then |chain| - i else 0
      {
        var _, right, entries := ReadRow(current.value, i);
        var found := Collect(entries, k);
        ScanStep(rows, i, k, rids);
        rids := rids + found;
        current := if LastIs(entries, k) then right else None;
        i := i + 1;
      }
    }

    /** The slot of the first copy of `e` in the leaf at chain position `i`. */
    method FindSlot(id: PageId, e: Entry, ghost i: nat) returns (slot: Option<nat>)
      requires Valid() && i < |chain| && id == chain[i]
      ensures id in pages && (slot.Some? <==> e in ChainEntries()[i])
      ensures slot.Some? ==> slot.value < |pages[id]| && pages[id][slot.value] == Some(LeafEntry(e))
    {
      RowPage(i);
      slot := FindEntry(pages[id], e);
      assert multiset(pages[id])[Some(LeafEntry(e))] == multiset(ChainEntries()[i])[e];
    }

    /** Free one slot of the leaf at chain position `i`. */
    method DeleteSlot(id: PageId, slot: nat, ghost e: Entry, ghost i: nat)
      requires Valid() && i < |chain| && id == chain[i]
      requires id in pages && slot < |pages[id]| && pages[id][slot] == Some(LeafEntry(e))
      modifies this
      ensures Valid() && Model() == old(Model()).(root := Drop(old(tree), id, e))
    {
      hide LeafPage, InnerPage, Linked, EntryOut, Held;
      RowPage(i);
      SlotFreed(c, pages[id], slot, e, Prev(chain, i), Next(chain, i));
      EntryOutHeld(c, pages, chain, tree, depth, next, i, pages[id][slot := None], e);
      pages := pages[id := pages[id][slot := None]];
      tree := Drop(tree, id, e);
    }

    /** Take one entry out, if the run of `k` holds it. */
    method Delete(k: Key, r: Rid)
      requires Valid() && c.Valid()
      modifies this
      ensures Valid() && Model() == Take(c, old(Model()), k, r)
    {
      hide LeafPage, InnerPage, Linked, Held;
      var landed := Descend(k);
      var current := LeftmostRunLeaf(landed, k, Landing(k));
      ghost var e, i := Entry(k, r), WalkLeft(ChainEntries(), Landing(k), k);
      while true
        invariant 0 <= i < |chain| && current == chain[i] && Valid() && Model() == old(Model())
        invariant Target(c, Model(), k, r) == FindRow(ChainEntries(), i, e)
        decreases |chain| - i
      {
        var slot := FindSlot(current, Entry(k, r), i);
        if slot.Some? {
          DeleteSlot(current, slot.value, e, i);
          return;
        }
        var _, right, entries := ReadRow(current, i);
        if !LastIs(entries, k) || right.None? {
          return;
        }
        current := right.value;
        i := i + 1;
      }
    }
  }
}
