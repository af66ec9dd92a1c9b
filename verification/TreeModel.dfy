/**
 * The B+Tree index as a value: nodes, the descent, and inserts with leaf, inner and root splits.
 */
module TreeModel {
  import opened Base

  type PageId = int

  datatype Entry = Entry(key: Key, rid: Rid)

  /**
   * What the tree needs to know about keys and pages: the key order, the tie-break between record
   * ids, the room a page has besides its Meta entry, and how much of it each entry takes.
   */
  datatype Format = Format(
    le: (Key, Key) -> bool,
    ridLe: (Rid, Rid) -> bool,
    room: nat,
    leafSize: Entry -> nat,
    sepSize: (Option<Key>, PageId) -> nat
  ) {
    /** Both orders are total, and a leaf entry fits an empty page. */
    ghost predicate Valid() {
      && Total(le)
      && Total(ridLe)
      && (forall e :: leafSize(e) <= room)
    }

    predicate Lt(a: Key, b: Key) {
      !le(b, a)
    }

    /** Key first, record id second. */
    predicate EntryLe(a: Entry, b: Entry) {
      if a.key == b.key then ridLe(a.rid, b.rid) else le(a.key, b.key)
    }
  }

  datatype Tree = Leaf(id: PageId, entries: seq<Entry>) | Inner(id: PageId, kids: Kids)

  /** Children and the separators between them, from left to right. */
  datatype Kids = Last(kid: Tree) | More(kid: Tree, sep: Key, rest: Kids)

  /** What an insert into a subtree hands to its parent. */
  datatype Grown = Whole(tree: Tree) | Split(left: Tree, sep: Key, right: Tree)

  // ------------------------------------------------------------------ leaves

  ghost predicate Sorted(c: Format, es: seq<Entry>) {
    forall i, j | 0 <= i < j < |es| :: c.EntryLe(es[i], es[j])
  }

  /** Where a stable sort puts `e` among sorted entries. */
  function Place(c: Format, es: seq<Entry>, e: Entry): (r: seq<Entry>)
    ensures multiset(r) == multiset(es) + multiset{e}
    ensures |r| == |es| + 1
  {
    if es == [] || !c.EntryLe(es[0], e) then
      [e] + es
    else
      assert es == [es[0]] + es[1..];
      [es[0]] + Place(c, es[1..], e)
  }

  function LeafBytes(c: Format, es: seq<Entry>): (n: nat) {
    if es == [] then 0 else c.leafSize(es[0]) + LeafBytes(c, es[1..])
  }

  /** A full leaf moves the upper half of its entries to page `next`. */
  function GrowLeaf(c: Format, id: PageId, es: seq<Entry>, e: Entry, next: PageId): (g: Grown) {
    var all := Place(c, es, e);
    if LeafBytes(c, es) + c.leafSize(e) <= c.room then
      Whole(Leaf(id, all))
    else
      var mid := |all| / 2;
      Split(Leaf(id, all[..mid]), all[mid].key, Leaf(next, all[mid..]))
  }

  // ------------------------------------------------------------------ inner nodes

  function Count(ks: Kids): (n: nat)
    ensures n >= 1
  {
    match ks
    case Last(_) => 1
    case More(_, _, rest) => 1 + Count(rest)
  }

  /** The child to follow: the last one whose separator is at most `k`. */
  function Child(c: Format, ks: Kids, k: Key): (t: Tree) {
    match ks
    case Last(kid) => kid
    case More(kid, sep, rest) => if c.le(sep, k) then Child(c, rest, k) else kid
  }

  function SetChild(c: Format, ks: Kids, k: Key, t: Tree): (r: Kids)
    ensures Count(r) == Count(ks)
  {
    match ks
    case Last(_) => Last(t)
    case More(kid, sep, rest) =>
      if c.le(sep, k) then More(kid, sep, SetChild(c, rest, k, t)) else More(t, sep, rest)
  }

  /** A stable sort puts a new separator after every separator that is at most it. */
  function AddSep(c: Format, ks: Kids, s: Key, x: Tree): (r: Kids)
    ensures Count(r) == Count(ks) + 1
  {
    match ks
    case Last(kid) => More(kid, s, Last(x))
    case More(kid, sep, rest) =>
      if c.le(sep, s) then More(kid, sep, AddSep(c, rest, s, x)) else More(kid, s, More(x, sep, rest))
  }

  /** The first `n` children, the separator after them, and the other children. */
  function Cut(ks: Kids, n: nat): (r: (Kids, Key, Kids))
    requires 1 <= n < Count(ks)
    ensures Count(r.0) == n && Count(r.2) == Count(ks) - n
  {
    if n == 1 then
      (Last(ks.kid), ks.sep, ks.rest)
    else
      var (l, s, r) := Cut(ks.rest, n - 1);
      (More(ks.kid, ks.sep, l), s, r)
  }

  /** The leftmost child's entry carries no key; every other one carries its separator. */
  function InnerBytes(c: Format, key: Option<Key>, ks: Kids): (n: nat)
    decreases ks
  {
    c.sepSize(key, ks.kid.id) + if ks.Last? then 0 else InnerBytes(c, Some(ks.sep), ks.rest)
  }

  /** A full inner node moves the upper half of its children to page `next`. */
  function GrowInner(c: Format, id: PageId, ks: Kids, s: Key, x: Tree, next: PageId): (g: Grown) {
    var all := AddSep(c, ks, s, x);
    if InnerBytes(c, None, ks) + c.sepSize(Some(s), x.id) <= c.room then
      Whole(Inner(id, all))
    else
      var (l, sep, r) := Cut(all, Count(all) / 2);
      Split(Inner(id, l), sep, Inner(next, r))
  }

  // ------------------------------------------------------------------ insert

  /** Insert below `t`; pages it creates are numbered from `next`. Also returns the next free number. */
  function Insert(c: Format, t: Tree, k: Key, r: Rid, next: PageId): (res: (Grown, PageId))
    ensures res.1 >= next
    decreases t, 1
  {
    match t
    case Leaf(id, es) =>
      var g := GrowLeaf(c, id, es, Entry(k, r), next);
      (g, if g.Split? then next + 1 else next)
    case Inner(id, ks) =>
      var (g, next1) := InsertChild(c, ks, k, r, next);
      match g
      case Whole(kid) => (Whole(Inner(id, SetChild(c, ks, k, kid))), next1)
      case Split(l, s, x) =>
        var g1 := GrowInner(c, id, SetChild(c, ks, k, l), s, x, next1);
        (g1, if g1.Split? then next1 + 1 else next1)
  }

  /** The insert into the child that `k` leads to. */
  function InsertChild(c: Format, ks: Kids, k: Key, r: Rid, next: PageId): (res: (Grown, PageId))
    ensures res.1 >= next
    decreases ks, 0
  {
    match ks
    case Last(kid) => Insert(c, kid, k, r, next)
    case More(kid, sep, rest) =>
      if c.le(sep, k) then InsertChild(c, rest, k, r, next) else Insert(c, kid, k, r, next)
  }

  // ------------------------------------------------------------------ shape and contents

  /** All leaves at depth `d`. */
  ghost predicate Shape(t: Tree, d: nat)
    decreases t, 1
  {
    match t
    case Leaf(_, _) => d == 0
    case Inner(_, ks) => d > 0 && ShapeKids(ks, d - 1)
  }

  ghost predicate ShapeKids(ks: Kids, d: nat)
    decreases ks, 0
  {
    Shape(ks.kid, d) && (ks.More? ==> ShapeKids(ks.rest, d))
  }

  /** The entries of the tree, counted. */
  ghost function Bag(t: Tree): (b: multiset<Entry>)
    decreases t, 1
  {
    match t
    case Leaf(_, es) => multiset(es)
    case Inner(_, ks) => BagKids(ks)
  }

  ghost function BagKids(ks: Kids): (b: multiset<Entry>)
    decreases ks, 0
  {
    match ks
    case Last(kid) => Bag(kid)
    case More(kid, _, rest) => Bag(kid) + BagKids(rest)
  }

  /** The leaves from left to right, as the separators order them. */
  ghost function Leaves(t: Tree): (ls: seq<Tree>)
    decreases t, 1
  {
    match t
    case Leaf(_, _) => [t]
    case Inner(_, ks) => LeavesKids(ks)
  }

  ghost function LeavesKids(ks: Kids): (ls: seq<Tree>)
    decreases ks, 0
  {
    match ks
    case Last(kid) => Leaves(kid)
    case More(kid, _, rest) => Leaves(kid) + LeavesKids(rest)
  }

  /** The pages of the tree. */
  ghost function Pages(t: Tree): (ps: set<PageId>)
    decreases t, 1
  {
    match t
    case Leaf(id, _) => {id}
    case Inner(id, ks) => {id} + PagesKids(ks)
  }

  ghost function PagesKids(ks: Kids): (ps: set<PageId>)
    decreases ks, 0
  {
    match ks
    case Last(kid) => Pages(kid)
    case More(kid, _, rest) => Pages(kid) + PagesKids(rest)
  }

  /** No page is used twice. */
  ghost predicate Distinct(t: Tree)
    decreases t, 1
  {
    match t
    case Leaf(_, _) => true
    case Inner(id, ks) => id !in PagesKids(ks) && DistinctKids(ks)
  }

  ghost predicate DistinctKids(ks: Kids)
    decreases ks, 0
  {
    match ks
    case Last(kid) => Distinct(kid)
    case More(kid, _, rest) => Distinct(kid) && DistinctKids(rest) && Pages(kid) !! PagesKids(rest)
  }
}
