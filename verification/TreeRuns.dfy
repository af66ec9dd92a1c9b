/** Whole runs of the index. */
module TreeRuns {
  import opened Base
  import opened TreeModel
  import opened TreeInserts
  import opened TreeOrder
  import opened TreeChain
  import opened TreeSearch

  /** The tree, its depth, the leaf chain from left to right, and the next page number to hand out. */
  datatype State = State(root: Tree, depth: nat, chain: seq<PageId>, next: PageId)

  /** Page 0 is the header, page 1 the first, empty root. */
  const EMPTY := State(Leaf(1, []), 0, [1], 2)

  // ------------------------------------------------------------------ operations

  /** The chain with page `x` threaded in right after page `id`. */
  function After(chain: seq<PageId>, id: PageId, x: PageId): (r: seq<PageId>) {
    if chain == [] then []
    else if chain[0] == id then [id, x] + chain[1..]
    else [chain[0]] + After(chain[1..], id, x)
  }

  function Put(c: Format, s: State, k: Key, r: Rid): (s': State) {
    var (g, next) := Insert(c, s.root, k, r, s.next);
    var l := Reached(c, s.root, k);
    var split := GrowLeaf(c, l.id, l.entries, Entry(k, r), s.next).Split?;
    var chain := if split then After(s.chain, l.id, s.next) else s.chain;
    match g
    case Whole(t) => State(t, s.depth, chain, next)
    case Split(a, sep, b) => State(Inner(next, More(a, sep, Last(b))), s.depth + 1, chain, next + 1)
  }

  /** The first position of `id` in the chain, or its length. */
  function Where(chain: seq<PageId>, id: PageId): (i: nat)
    ensures i <= |chain|
    ensures i < |chain| ==> chain[i] == id
    ensures forall j | 0 <= j < i :: chain[j] != id
  {
    if chain == [] || chain[0] == id then 0 else 1 + Where(chain[1..], id)
  }

  ghost function Lookup(ls: seq<Tree>, id: PageId): (es: seq<Entry>) {
    if ls == [] then []
    else if ls[0].id == id && ls[0].Leaf? then ls[0].entries
    else Lookup(ls[1..], id)
  }

  /** The entries of the leaves in chain order. */
  ghost function ChainRows(s: State): (rows: Rows)
    ensures |rows| == |s.chain|
  {
    seq(|s.chain|, i requires 0 <= i < |s.chain| => Lookup(Leaves(s.root), s.chain[i]))
  }

  ghost function Search(c: Format, s: State, k: Key): (rids: seq<Rid>) {
    var land := Where(s.chain, Reached(c, s.root, k).id);
    if land < |s.chain| then SearchRows(ChainRows(s), land, k) else []
  }

  function RemoveOne<T(==)>(es: seq<T>, e: T): (r: seq<T>)
    ensures multiset(r) == multiset(es) - multiset{e}
  {
    if es == [] then []
    else
      assert es == [es[0]] + es[1..];
      if es[0] == e then es[1..] else [es[0]] + RemoveOne(es[1..], e)
  }

  /** The tree with one `e` taken out of leaf `id`. */
  function Drop(t: Tree, id: PageId, e: Entry): (t': Tree)
    decreases t, 1
  {
    match t
    case Leaf(p, es) => if p == id then Leaf(p, RemoveOne(es, e)) else t
    case Inner(p, ks) => Inner(p, DropKids(ks, id, e))
  }

  function DropKids(ks: Kids, id: PageId, e: Entry): (ks': Kids)
    decreases ks, 0
  {
    match ks
    case Last(kid) => Last(Drop(kid, id, e))
    case More(kid, sep, rest) => More(Drop(kid, id, e), sep, DropKids(rest, id, e))
  }

  /** The first leaf from `i` on that holds `e`, as far as leaves end in its key. */
  ghost function FindRow(rows: Rows, i: nat, e: Entry): (r: Option<nat>)
    requires i < |rows|
    ensures r.Some? ==> i <= r.value < |rows| && e in rows[r.value]
    decreases |rows| - i
  {
    if e in rows[i] then Some(i)
    else if LastIs(rows[i], e.key) && i + 1 < |rows| then FindRow(rows, i + 1, e)
    else None
  }

  ghost function Target(c: Format, s: State, k: Key, r: Rid): (i: Option<nat>)
    ensures i.Some? ==> i.value < |s.chain|
  {
    var land := Where(s.chain, Reached(c, s.root, k).id);
    if land < |s.chain| then FindRow(ChainRows(s), WalkLeft(ChainRows(s), land, k), Entry(k, r)) else None
  }

  ghost function Take(c: Format, s: State, k: Key, r: Rid): (s': State) {
    match Target(c, s, k, r)
    case None => s
    case Some(i) => s.(root := Drop(s.root, s.chain[i], Entry(k, r)))
  }

  // ------------------------------------------------------------------ the invariant

  /** Well formed: uniform depth, pages used once, search order, and a chain that lists the leaves in order. */
  ghost predicate Good(c: Format, strict: bool, s: State) {
    && Shape(s.root, s.depth)
    && Distinct(s.root)
    && (forall p | p in Pages(s.root) :: 1 <= p < s.next)
    && Ordered(c, strict, s.root, None, None)
    && s.chain == Ids(Leaves(s.root))
  }

  lemma EmptyGood(c: Format, strict: bool)
    ensures Good(c, strict, EMPTY) && Bag(EMPTY.root) == multiset{}
  {
  }

  lemma {:induction false} LeafIdsDistinct(t: Tree)
    requires Distinct(t)
    ensures forall i, j | 0 <= i < j < |Leaves(t)| :: Leaves(t)[i].id != Leaves(t)[j].id
    decreases t, 1
  {
    if t.Inner? {
      LeafIdsDistinctKids(t.kids);
    }
  }

  lemma {:induction false} LeafIdsDistinctKids(ks: Kids)
    requires DistinctKids(ks)
    ensures forall i, j | 0 <= i < j < |LeavesKids(ks)| :: LeavesKids(ks)[i].id != LeavesKids(ks)[j].id
    decreases ks, 0
  {
    LeafIdsDistinct(ks.kid);
    if ks.More? {
      LeafIdsDistinctKids(ks.rest);
      LeafPages(ks.kid);
      LeafPagesKids(ks.rest);
      var a, b := Leaves(ks.kid), LeavesKids(ks.rest);
      var all: seq<Tree> := a + b;
      forall i, j | 0 <= i < j < |all| ensures all[i].id != all[j].id {
        if i < |a| <= j {
          assert a[i] in a && b[j - |a|] in b;
        }
      }
    }
  }

  lemma {:induction false} AfterAt(chain: seq<PageId>, i: nat, x: PageId)
    requires i < |chain| && forall j | 0 <= j < i :: chain[j] != chain[i]
    ensures After(chain, chain[i], x) == chain[..i + 1] + [x] + chain[i + 1..]
  {
    if i > 0 {
      AfterAt(chain[1..], i - 1, x);
      assert chain[1..][..i] == chain[1..i + 1] && chain[1..][i..] == chain[i + 1..];
      assert chain[..i + 1] == [chain[0]] + chain[1..i + 1];
    } else {
      assert chain[..1] == [chain[0]];
    }
  }

  lemma {:induction false} LookupAt(ls: seq<Tree>, i: nat)
    requires i < |ls| && (forall l | l in ls :: l.Leaf?)
    requires forall a, b | 0 <= a < b < |ls| :: ls[a].id != ls[b].id
    ensures Lookup(ls, ls[i].id) == ls[i].entries
  {
    assert ls[0] in ls;
    if i == 0 {
    } else {
      LookupAt(ls[1..], i - 1);
    }
  }

  lemma WhereAt(chain: seq<PageId>, i: nat)
    requires i < |chain| && forall a, b | 0 <= a < b < |chain| :: chain[a] != chain[b]
    ensures Where(chain, chain[i]) == i
  {
  }

  /** In a well-formed state the chain, seen through page numbers, is the list of leaves. */
  lemma GoodRows(c: Format, strict: bool, s: State, k: Key)
    requires c.Valid() && Good(c, strict, s)
    ensures forall l | l in Leaves(s.root) :: l.Leaf?
    ensures ChainRows(s) == RowsOf(Leaves(s.root))
    ensures Where(s.chain, Reached(c, s.root, k).id) == Land(c, s.root, k) < |s.chain|
  {
    LeavesBetween(c, strict, s.root, None, None);
    LeafIdsDistinct(s.root);
    LandReached(c, s.root, k);
    WhereAt(s.chain, Land(c, s.root, k));
    forall i | 0 <= i < |s.chain| ensures ChainRows(s)[i] == RowsOf(Leaves(s.root))[i] {
      LookupAt(Leaves(s.root), i);
    }
  }

  // ------------------------------------------------------------------ inserts

  lemma SpliceIds(ls: seq<Tree>, i: nat, parts: seq<Tree>)
    requires i < |ls|
    ensures Ids(Splice(ls, i, parts)) == Ids(ls)[..i] + Ids(parts) + Ids(ls)[i + 1..]
  {
  }

  lemma PartsIds(c: Format, l: Tree, k: Key, r: Rid, next: PageId)
    requires l.Leaf?
    ensures var split := GrowLeaf(c, l.id, l.entries, Entry(k, r), next).Split?;
      Ids(Parts(c, l, k, r, next)) == if split then [l.id, next] else [l.id]
  {
  }

  lemma Woven<T>(s: seq<T>, i: nat, x: T)
    requires i < |s|
    ensures s[..i] + [s[i], x] + s[i + 1..] == s[..i + 1] + [x] + s[i + 1..] && s[..i] + [s[i]] + s[i + 1..] == s
  {
  }

  lemma ChainIds(c: Format, s: State, k: Key, r: Rid)
    requires Distinct(s.root) && s.chain == Ids(Leaves(s.root))
    ensures Put(c, s, k, r).chain == Ids(Chained(c, s.root, k, r, s.next))
  {
    hide Leaves, Distinct, Land, Reached, GrowLeaf, Parts, Insert;
    LandReached(c, s.root, k);
    LeafIdsDistinct(s.root);
    var i, l := Land(c, s.root, k), Reached(c, s.root, k);
    AfterAt(s.chain, i, s.next);
    var parts := Parts(c, l, k, r, s.next);
    SpliceIds(Leaves(s.root), i, parts);
    PartsIds(c, l, k, r, s.next);
    hide After, Ids, Splice;
    Woven(s.chain, i, s.next);
  }

  lemma RootLeaves(c: Format, s: State, k: Key, r: Rid)
    ensures Leaves(Put(c, s, k, r).root) == GrownLeaves(Insert(c, s.root, k, r, s.next).0)
    ensures Bag(Put(c, s, k, r).root) == GrownBag(Insert(c, s.root, k, r, s.next).0)
  {
    var (g, next) := Insert(c, s.root, k, r, s.next);
    if g.Split? {
      assert LeavesKids(Last(g.right)) == Leaves(g.right) && BagKids(Last(g.right)) == Bag(g.right);
    }
  }

  /** After an insert the chain still lists the leaves in tree order if and only if the insert was clear. */
  lemma PutAgreesIff(c: Format, s: State, k: Key, r: Rid)
    requires c.Valid() && Good(c, false, s)
    ensures var s' := Put(c, s, k, r); s'.chain == Ids(Leaves(s'.root)) <==> Clear(c, s.root, k, r, s.next)
  {
    ChainIds(c, s, k, r);
    RootLeaves(c, s, k, r);
    ChainAgreesIff(c, s.root, k, r, s.next);
  }

  lemma PutPages(c: Format, s: State, k: Key, r: Rid)
    requires Distinct(s.root) && forall p | p in Pages(s.root) :: 1 <= p < s.next
    ensures var s' := Put(c, s, k, r); Distinct(s'.root) && forall p | p in Pages(s'.root) :: 1 <= p < s'.next
  {
    assert s.root.id in Pages(s.root);
    InsertPages(c, s.root, k, r, s.next);
    var (g, next) := Insert(c, s.root, k, r, s.next);
    if g.Split? {
      assert PagesKids(Last(g.right)) == Pages(g.right);
    }
  }

  lemma PutShape(c: Format, s: State, k: Key, r: Rid)
    requires Shape(s.root, s.depth)
    ensures Shape(Put(c, s, k, r).root, Put(c, s, k, r).depth)
  {
    InsertShape(c, s.root, k, r, s.next, s.depth);
    var (g, next) := Insert(c, s.root, k, r, s.next);
    if g.Split? {
      assert ShapeKids(Last(g.right), s.depth);
    }
  }

  lemma PutOrdered(c: Format, strict: bool, s: State, k: Key, r: Rid)
    requires c.Valid() && Ordered(c, strict, s.root, None, None)
    requires if strict then forall e | e in Bag(s.root) :: e.key != k else Clear(c, s.root, k, r, s.next)
    ensures Ordered(c, strict, Put(c, s, k, r).root, None, None)
  {
    InsertOrdered(c, strict, s.root, k, r, s.next, None, None);
    var (g, next) := Insert(c, s.root, k, r, s.next);
    if g.Split? {
      assert OrderedKids(c, strict, Last(g.right), Some(g.sep), None);
    }
  }

  lemma {:induction false} Loosen(c: Format, t: Tree, lo: Option<Key>, hi: Option<Key>)
    requires c.Valid() && Ordered(c, true, t, lo, hi)
    ensures Ordered(c, false, t, lo, hi)
    decreases t, 1
  {
    if t.Inner? {
      LoosenKids(c, t.kids, lo, hi);
    }
  }

  lemma {:induction false} LoosenKids(c: Format, ks: Kids, lo: Option<Key>, hi: Option<Key>)
    requires c.Valid() && OrderedKids(c, true, ks, lo, hi)
    ensures OrderedKids(c, false, ks, lo, hi)
    decreases ks, 0
  {
    if ks.Last? {
      Loosen(c, ks.kid, lo, hi);
    } else {
      Loosen(c, ks.kid, lo, Some(ks.sep));
      LoosenKids(c, ks.rest, Some(ks.sep), hi);
    }
  }

  /** Inserts keep the state well formed and add their entry: fresh keys in a strict tree, clear inserts in any. */
  lemma PutGood(c: Format, strict: bool, s: State, k: Key, r: Rid)
    requires c.Valid() && Good(c, strict, s)
    requires if strict then forall e | e in Bag(s.root) :: e.key != k else Clear(c, s.root, k, r, s.next)
    ensures Good(c, strict, Put(c, s, k, r))
    ensures Bag(Put(c, s, k, r).root) == Bag(s.root) + multiset{Entry(k, r)}
  {
    PutShape(c, s, k, r);
    PutPages(c, s, k, r);
    PutOrdered(c, strict, s, k, r);
    RootLeaves(c, s, k, r);
    InsertBag(c, s.root, k, r, s.next);
    if strict {
      StrictClear(c, s.root, k, r, s.next, None, None);
      Loosen(c, s.root, None, None);
    }
    PutAgreesIff(c, s, k, r);
  }

  // ------------------------------------------------------------------ searches

  ghost function BagRows(rows: Rows): (b: multiset<Entry>) {
    if rows == [] then multiset{} else multiset(rows[0]) + BagRows(rows[1..])
  }

  lemma {:induction false} BagStep(a: Rows, b: Rows)
    requires a != [] && BagRows(a[1..] + b) == BagRows(a[1..]) + BagRows(b)
    ensures BagRows(a + b) == BagRows(a) + BagRows(b)
  {
    TailCat(a, b);
    SumAssoc(multiset(a[0]), BagRows(a[1..]), BagRows(b));
  }

  lemma TailCat<T>(a: seq<T>, b: seq<T>)
    requires a != []
    ensures (a + b)[0] == a[0] && (a + b)[1..] == a[1..] + b
  {
  }

  lemma {:induction false} BagCat(a: Rows, b: Rows)
    ensures BagRows(a + b) == BagRows(a) + BagRows(b)
  {
    if a == [] {
      assert a + b == b;
    } else {
      BagCat(a[1..], b);
      BagStep(a, b);
    }
  }

  lemma SumAssoc<T>(x: multiset<T>, y: multiset<T>, z: multiset<T>)
    ensures x + (y + z) == x + y + z
  {
  }

  lemma {:induction false} BagLeaves(t: Tree)
    requires forall l | l in Leaves(t) :: l.Leaf?
    ensures BagRows(RowsOf(Leaves(t))) == Bag(t)
    decreases t, 1
  {
    if t.Inner? {
      BagLeavesKids(t.kids);
    } else {
      assert RowsOf([t]) == [t.entries] && [t.entries][1..] == [];
    }
  }

  lemma {:induction false} BagLeavesKids(ks: Kids)
    requires forall l | l in LeavesKids(ks) :: l.Leaf?
    ensures BagRows(RowsOf(LeavesKids(ks))) == BagKids(ks)
    decreases ks, 0
  {
    if ks.Last? {
      BagLeaves(ks.kid);
    } else {
      Joined(Leaves(ks.kid), LeavesKids(ks.rest));
      BagLeaves(ks.kid);
      BagLeavesKids(ks.rest);
      BagCat(RowsOf(Leaves(ks.kid)), RowsOf(LeavesKids(ks.rest)));
    }
  }

  lemma {:induction false} HitCount(es: seq<Entry>, k: Key, r: Rid)
    ensures multiset(Hits(es, k))[r] == multiset(es)[Entry(k, r)]
  {
    if es == [] {
    } else {
      HitCount(es[1..], k, r);
      assert es == [es[0]] + es[1..];
    }
  }

  lemma {:induction false} MatchCount(rows: Rows, i: nat, k: Key, r: Rid)
    requires i <= |rows|
    ensures multiset(Matches(rows, i, k))[r] == BagRows(rows[i..])[Entry(k, r)]
    decreases |rows| - i
  {
    if i < |rows| {
      MatchCount(rows, i + 1, k, r);
      HitCount(rows[i], k, r);
      assert rows[i..][1..] == rows[i + 1..];
    }
  }

  lemma {:induction false} InSomeRow(rows: Rows, e: Entry)
    ensures e in BagRows(rows) <==> exists i :: 0 <= i < |rows| && e in rows[i]
  {
    if rows == [] {
    } else {
      InSomeRow(rows[1..], e);
      if e in rows[0] {
        assert e in multiset(rows[0]);
      }
      forall i | 0 <= i < |rows| && e in rows[i] ensures e in BagRows(rows) {
        assert i > 0 ==> e in rows[1..][i - 1];
      }
      if e in BagRows(rows[1..]) {
        var i :| 0 <= i < |rows[1..]| && e in rows[1..][i];
        assert e in rows[i + 1];
      }
    }
  }

  /** The gap that can hide entries of `k` from a search. */
  ghost predicate Unbroken(c: Format, s: State, k: Key) {
    NoGap(ChainRows(s), Where(s.chain, Reached(c, s.root, k).id), k)
  }

  /**
   * In a well-formed state, duplicates or not, a search returns each record id as often as the tree
   * holds it under that key, exactly when no empty leaf interrupts the run of that key.
   */
  lemma SearchIff(c: Format, s: State, k: Key)
    requires c.Valid() && Good(c, false, s)
    ensures (forall r :: multiset(Search(c, s, k))[r] == Bag(s.root)[Entry(k, r)]) <==> Unbroken(c, s, k)
  {
    GoodRows(c, false, s, k);
    LandsInOrder(c, false, s.root, k);
    var rows, land := ChainRows(s), Land(c, s.root, k);
    SearchCompleteIff(c, rows, land, k);
    BagLeaves(s.root);
    assert rows[0..] == rows;
    forall r ensures multiset(Matches(rows, 0, k))[r] == Bag(s.root)[Entry(k, r)] {
      MatchCount(rows, 0, k, r);
    }
    if !Unbroken(c, s, k) {
      ShorterSearch(c, rows, land, k);
    }
  }

  lemma {:induction false} ScanPart(rows: Rows, i: nat, k: Key)
    requires i < |rows|
    ensures multiset(ScanRight(rows, i, k)) <= multiset(Matches(rows, i, k))
    decreases |rows| - i
  {
    hide Hits;
    if LastIs(rows[i], k) && i + 1 < |rows| {
      ScanPart(rows, i + 1, k);
    }
  }

  lemma {:induction false} LaterPart(rows: Rows, i: nat, k: Key)
    requires i <= |rows|
    ensures multiset(Matches(rows, i, k)) <= multiset(Matches(rows, 0, k))
  {
    hide Hits;
    if i == 0 {
    } else {
      LaterPart(rows, i - 1, k);
    }
  }

  /** Whatever leaves are empty, a search returns nothing that the tree does not hold under its key. */
  lemma SearchSound(c: Format, s: State, k: Key)
    requires c.Valid() && Good(c, false, s)
    ensures forall r :: multiset(Search(c, s, k))[r] <= Bag(s.root)[Entry(k, r)]
  {
    hide ScanRight, Matches, BagRows, Bag, ChainRows, Leaves, Reached, Land, Good;
    GoodRows(c, false, s, k);
    var rows, land := ChainRows(s), Land(c, s.root, k);
    var j := WalkLeft(rows, land, k);
    ScanPart(rows, j, k);
    LaterPart(rows, j, k);
    BagLeaves(s.root);
    assert rows[0..] == rows;
    forall r ensures multiset(Search(c, s, k))[r] <= Bag(s.root)[Entry(k, r)] {
      MatchCount(rows, 0, k, r);
    }
  }

  /** A broken run loses matches: the search is a proper part of what it should return. */
  lemma ShorterSearch(c: Format, rows: Rows, land: nat, k: Key)
    requires c.Valid() && Lands(c, rows, land, k) && !NoGap(rows, land, k)
    ensures exists r :: multiset(SearchRows(rows, land, k))[r] != multiset(Matches(rows, 0, k))[r]
  {
    hide Matches, Holds;
    var i, e :| 0 <= i < e < land && e < |rows| && rows[e] == [] && Holds(rows[i], k);
    var j := WalkLeft(rows, land, k);
    assert e < j;
    ScanFinds(c, rows, land, j, k);
    SomeMatch(rows, 0, i, j, k);
    LengthsDiffer(SearchRows(rows, land, k), Matches(rows, 0, k));
  }

  lemma LengthsDiffer<T>(a: seq<T>, b: seq<T>)
    requires |a| != |b|
    ensures exists x :: multiset(a)[x] != multiset(b)[x]
  {
    assert |multiset(a)| == |a| && |multiset(b)| == |b|;
    assert multiset(a) != multiset(b);
  }

  /** With distinct keys a search returns the record id of its key, or nothing, whatever leaves are empty. */
  lemma SearchStrict(c: Format, s: State, k: Key)
    requires c.Valid() && Good(c, true, s)
    ensures forall r | Entry(k, r) in Bag(s.root) :: Search(c, s, k) == [r]
    ensures (forall r :: Entry(k, r) !in Bag(s.root)) ==> Search(c, s, k) == []
    ensures Unbroken(c, s, k)
  {
    GoodRows(c, true, s, k);
    LandsInOrder(c, true, s.root, k);
    var rows, land := ChainRows(s), Land(c, s.root, k);
    SearchCompleteIff(c, rows, land, k);
    StrictNoGap(c, rows, land, k);
    BagLeaves(s.root);
    forall r | Entry(k, r) in Bag(s.root) ensures Search(c, s, k) == [r] {
      StrictHit(c, s, Entry(k, r));
    }
    if Holds(rows[land], k) {
      var e: Entry :| e in rows[land] && e.key == k;
      InSomeRow(rows, e);
      assert Entry(k, e.rid) in Bag(s.root);
    } else {
      HitsIff(rows[land], k);
    }
  }

  lemma StrictHit(c: Format, s: State, e: Entry)
    requires c.Valid() && Good(c, true, s) && e in Bag(s.root)
    ensures |ChainRows(s)| == |Leaves(s.root)| && Land(c, s.root, e.key) < |Leaves(s.root)|
    ensures Hits(ChainRows(s)[Land(c, s.root, e.key)], e.key) == [e.rid]
  {
    GoodRows(c, true, s, e.key);
    LandsInOrder(c, true, s.root, e.key);
    LeavesBetween(c, true, s.root, None, None);
    BagLeaves(s.root);
    var rows, land := ChainRows(s), Land(c, s.root, e.key);
    InSomeRow(rows, e);
    var i :| 0 <= i < |rows| && e in rows[i];
    assert i == land;
    assert Leaves(s.root)[land] in Leaves(s.root);
    OneHit(c, rows[land], e);
  }

  // ------------------------------------------------------------------ deletes

  lemma {:induction false} DropShape(t: Tree, id: PageId, e: Entry, d: nat)
    requires Shape(t, d)
    ensures Shape(Drop(t, id, e), d) && Pages(Drop(t, id, e)) == Pages(t)
    ensures Distinct(t) ==> Distinct(Drop(t, id, e))
    decreases t, 1
  {
    if t.Inner? {
      DropShapeKids(t.kids, id, e, d - 1);
    }
  }

  lemma {:induction false} DropShapeKids(ks: Kids, id: PageId, e: Entry, d: nat)
    requires ShapeKids(ks, d)
    ensures ShapeKids(DropKids(ks, id, e), d) && PagesKids(DropKids(ks, id, e)) == PagesKids(ks)
    ensures DistinctKids(ks) ==> DistinctKids(DropKids(ks, id, e))
    decreases ks, 0
  {
    DropShape(ks.kid, id, e, d);
    if ks.More? {
      DropShapeKids(ks.rest, id, e, d);
    }
  }

  lemma RemoveMembers<T>(es: seq<T>, e: T)
    ensures forall x | x in RemoveOne(es, e) :: x in es
  {
    forall x | x in RemoveOne(es, e) ensures x in es {
      assert x in multiset(RemoveOne(es, e));
    }
  }

  /** What is left of a list keeps its order. */
  lemma {:induction false} RemoveSorted(c: Format, es: seq<Entry>, e: Entry)
    requires Sorted(c, es)
    ensures Sorted(c, RemoveOne(es, e))
  {
    if es != [] && es[0] != e {
      RemoveSorted(c, es[1..], e);
      RemoveMembers(es[1..], e);
      forall x | x in RemoveOne(es[1..], e) ensures c.EntryLe(es[0], x) {
        assert x in es[1..];
      }
    }
  }

  lemma {:induction false} RemoveIncreasing(c: Format, es: seq<Entry>, e: Entry)
    requires Increasing(c, es)
    ensures Increasing(c, RemoveOne(es, e))
  {
    if es != [] && es[0] != e {
      RemoveIncreasing(c, es[1..], e);
      RemoveMembers(es[1..], e);
      forall x | x in RemoveOne(es[1..], e) ensures c.Lt(es[0].key, x.key) {
        assert x in es[1..];
      }
    }
  }

  lemma {:induction false} DropOrdered(c: Format, strict: bool, t: Tree, id: PageId, e: Entry, lo: Option<Key>,
      hi: Option<Key>)
    requires Ordered(c, strict, t, lo, hi)
    ensures Ordered(c, strict, Drop(t, id, e), lo, hi)
    decreases t, 1
  {
    match t
    case Leaf(_, es) =>
      RemoveMembers(es, e);
      RemoveSorted(c, es, e);
      if strict {
        RemoveIncreasing(c, es, e);
      }
    case Inner(_, ks) => DropOrderedKids(c, strict, ks, id, e, lo, hi);
  }

  lemma {:induction false} DropOrderedKids(c: Format, strict: bool, ks: Kids, id: PageId, e: Entry, lo: Option<Key>,
      hi: Option<Key>)
    requires OrderedKids(c, strict, ks, lo, hi)
    ensures OrderedKids(c, strict, DropKids(ks, id, e), lo, hi)
    decreases ks, 0
  {
    if ks.Last? {
      DropOrdered(c, strict, ks.kid, id, e, lo, hi);
    } else {
      DropOrdered(c, strict, ks.kid, id, e, lo, Some(ks.sep));
      DropOrderedKids(c, strict, ks.rest, id, e, Some(ks.sep), hi);
    }
  }

  lemma {:induction false} DropLeaves(t: Tree, id: PageId, e: Entry)
    ensures |Leaves(Drop(t, id, e))| == |Leaves(t)|
    ensures forall i | 0 <= i < |Leaves(t)| :: Leaves(Drop(t, id, e))[i] == Drop(Leaves(t)[i], id, e)
    decreases t, 1
  {
    if t.Inner? {
      DropLeavesKids(t.kids, id, e);
    }
  }

  lemma {:induction false} DropLeavesKids(ks: Kids, id: PageId, e: Entry)
    ensures |LeavesKids(DropKids(ks, id, e))| == |LeavesKids(ks)|
    ensures forall i | 0 <= i < |LeavesKids(ks)| :: LeavesKids(DropKids(ks, id, e))[i] == Drop(LeavesKids(ks)[i], id, e)
    decreases ks, 0
  {
    DropLeaves(ks.kid, id, e);
    if ks.More? {
      DropLeavesKids(ks.rest, id, e);
    }
  }

  lemma {:induction false} BagReplaced(rows: Rows, i: nat, es: seq<Entry>, e: Entry)
    requires i < |rows| && multiset(es) + multiset{e} == multiset(rows[i])
    ensures BagRows(rows[i := es]) + multiset{e} == BagRows(rows)
  {
    if i > 0 {
      BagReplaced(rows[1..], i - 1, es, e);
      assert rows[i := es][1..] == rows[1..][i - 1 := es];
    } else {
      assert rows[0 := es][1..] == rows[1..];
    }
  }

  lemma DropRows(t: Tree, i: nat, e: Entry)
    requires Distinct(t) && i < |Leaves(t)| && forall l | l in Leaves(t) :: l.Leaf?
    ensures var t' := Drop(t, Leaves(t)[i].id, e);
      && (forall l | l in Leaves(t') :: l.Leaf?)
      && RowsOf(Leaves(t')) == RowsOf(Leaves(t))[i := RemoveOne(Leaves(t)[i].entries, e)]
  {
    LeafIdsDistinct(t);
    var ls, id := Leaves(t), Leaves(t)[i].id;
    DropLeaves(t, id, e);
    hide Leaves, Distinct, RemoveOne;
    forall j | 0 <= j < |ls| ensures Drop(ls[j], id, e) == if j == i then Leaf(id, RemoveOne(ls[i].entries, e)) else ls[j] {
      assert ls[j] in ls && ls[i] in ls;
    }
    hide Drop;
    OneRowSet(ls, Leaves(Drop(t, id, e)), i, RemoveOne(ls[i].entries, e));
  }

  lemma OneRowSet(ls: seq<Tree>, ls': seq<Tree>, i: nat, es: seq<Entry>)
    requires i < |ls| == |ls'| && (forall l | l in ls :: l.Leaf?)
    requires forall j | 0 <= j < |ls| :: ls'[j] == if j == i then Leaf(ls[i].id, es) else ls[j]
    ensures (forall l | l in ls' :: l.Leaf?) && RowsOf(ls') == RowsOf(ls)[i := es]
  {
    forall l | l in ls' ensures l.Leaf? {
      var j :| 0 <= j < |ls'| && ls'[j] == l;
      assert j != i ==> ls[j] in ls;
    }
  }

  /** Taking `e` out of the one leaf that holds it takes it out of the tree. */
  lemma DropBag(t: Tree, i: nat, e: Entry)
    requires Distinct(t) && i < |Leaves(t)| && forall l | l in Leaves(t) :: l.Leaf?
    requires e in Leaves(t)[i].entries
    ensures Bag(Drop(t, Leaves(t)[i].id, e)) == Bag(t) - multiset{e}
  {
    DropRows(t, i, e);
    BagReplaced(RowsOf(Leaves(t)), i, RemoveOne(Leaves(t)[i].entries, e), e);
    BagLeaves(Drop(t, Leaves(t)[i].id, e));
    BagLeaves(t);
  }

  lemma DropGood(c: Format, strict: bool, s: State, id: PageId, e: Entry)
    requires c.Valid() && Good(c, strict, s)
    ensures Good(c, strict, s.(root := Drop(s.root, id, e)))
  {
    DropShape(s.root, id, e, s.depth);
    DropOrdered(c, strict, s.root, id, e, None, None);
    DropLeaves(s.root, id, e);
    assert Ids(Leaves(Drop(s.root, id, e))) == Ids(Leaves(s.root));
  }

  lemma {:induction false} FindsRow(rows: Rows, i: nat, n: nat, e: Entry)
    requires i <= n < |rows| && e in rows[n]
    requires forall m | i <= m < n :: LastIs(rows[m], e.key)
    ensures FindRow(rows, i, e).Some?
    decreases n - i
  {
    if e !in rows[i] {
      FindsRow(rows, i + 1, n, e);
    }
  }

  /** A leaf holds the entry, and no empty leaf lies between it and the one that a search for its key lands on. */
  ghost predicate Reaches(rows: Rows, land: nat, e: Entry) {
    exists i :: 0 <= i < |rows| && e in rows[i] && forall m | i < m < land && m < |rows| :: rows[m] != []
  }

  ghost predicate Reachable(c: Format, s: State, k: Key, r: Rid) {
    Reaches(ChainRows(s), Where(s.chain, Reached(c, s.root, k).id), Entry(k, r))
  }

  lemma FoundReaches(rows: Rows, land: nat, e: Entry)
    requires land < |rows| && FindRow(rows, WalkLeft(rows, land, e.key), e).Some?
    ensures Reaches(rows, land, e)
  {
    var i := FindRow(rows, WalkLeft(rows, land, e.key), e).value;
    assert e in rows[i];
  }

  lemma HoldsKey(es: seq<Entry>, e: Entry)
    requires e in es
    ensures Holds(es, e.key)
  {
  }

  lemma ReachesFound(c: Format, rows: Rows, land: nat, e: Entry)
    requires c.Valid() && land < |rows| && Lands(c, rows, land, e.key) && Reaches(rows, land, e)
    ensures FindRow(rows, WalkLeft(rows, land, e.key), e).Some?
  {
    hide Lands, FindRow, Holds, LastIs;
    var j := WalkLeft(rows, land, e.key);
    var i :| 0 <= i < |rows| && e in rows[i] && forall m | i < m < land && m < |rows| :: rows[m] != [];
    HoldsKey(rows[i], e);
    if i > land {
      PastLanding(c, rows, land, i, e.key);
    }
    if i < j {
      RunStart(c, rows, land, j, e.key);
    }
    FindsRow(rows, j, i, e);
  }

  /** A delete finds its entry if and only if no empty leaf hides it. */
  lemma TargetIff(c: Format, strict: bool, s: State, k: Key, r: Rid)
    requires c.Valid() && Good(c, strict, s)
    ensures Target(c, s, k, r).Some? <==> Reachable(c, s, k, r)
  {
    GoodRows(c, strict, s, k);
    LandsInOrder(c, strict, s.root, k);
    var rows, land := ChainRows(s), Land(c, s.root, k);
    if Reaches(rows, land, Entry(k, r)) {
      ReachesFound(c, rows, land, Entry(k, r));
    } else if Target(c, s, k, r).Some? {
      FoundReaches(rows, land, Entry(k, r));
    }
  }

  /** What a search can see, a delete can reach. */
  lemma UnbrokenReaches(c: Format, strict: bool, s: State, k: Key, r: Rid)
    requires c.Valid() && Good(c, strict, s) && Unbroken(c, s, k) && Entry(k, r) in Bag(s.root)
    ensures Reachable(c, s, k, r)
  {
    GoodRows(c, strict, s, k);
    LandsInOrder(c, strict, s.root, k);
    var rows, e := ChainRows(s), Entry(k, r);
    BagLeaves(s.root);
    InSomeRow(rows, e);
    var i :| 0 <= i < |rows| && e in rows[i];
    assert Holds(rows[i], k);
  }

  lemma ReachableLive(c: Format, strict: bool, s: State, k: Key, r: Rid)
    requires c.Valid() && Good(c, strict, s) && Reachable(c, s, k, r)
    ensures Entry(k, r) in Bag(s.root)
  {
    GoodRows(c, strict, s, k);
    BagLeaves(s.root);
    InSomeRow(ChainRows(s), Entry(k, r));
  }

  /** A delete keeps the state well formed, and takes out one copy of its entry if and only if it can reach one. */
  lemma TakeGood(c: Format, strict: bool, s: State, k: Key, r: Rid)
    requires c.Valid() && Good(c, strict, s)
    ensures Good(c, strict, Take(c, s, k, r))
    ensures Bag(Take(c, s, k, r).root) == if Reachable(c, s, k, r) then Bag(s.root) - multiset{Entry(k, r)} else Bag(s.root)
    ensures Reachable(c, s, k, r) ==> Entry(k, r) in Bag(s.root)
  {
    TargetIff(c, strict, s, k, r);
    match Target(c, s, k, r)
    case None =>
    case Some(i) =>
      ReachableLive(c, strict, s, k, r);
      DropGood(c, strict, s, s.chain[i], Entry(k, r));
      GoodRows(c, strict, s, k);
      DropBag(s.root, i, Entry(k, r));
  }

  // ------------------------------------------------------------------ runs

  datatype Op = Ins(key: Key, rid: Rid) | Del(key: Key, rid: Rid)

  ghost function Step(c: Format, s: State, op: Op): (s': State) {
    match op
    case Ins(k, r) => Put(c, s, k, r)
    case Del(k, r) => Take(c, s, k, r)
  }

  /** The state after a run of operations, from the empty index. */
  ghost function Run(c: Format, ops: seq<Op>): (s: State) {
    if ops == [] then EMPTY else Step(c, Run(c, ops[..|ops| - 1]), ops[|ops| - 1])
  }

  /** The entries an ideal index would hold. */
  ghost function Ideal(ops: seq<Op>): (b: multiset<Entry>) {
    if ops == [] then multiset{}
    else
      var b, op := Ideal(ops[..|ops| - 1]), ops[|ops| - 1];
      if op.Ins? then b + multiset{Entry(op.key, op.rid)} else b - multiset{Entry(op.key, op.rid)}
  }

  function InsertsOf(es: seq<Entry>): (ops: seq<Op>) {
    seq(|es|, i requires 0 <= i < |es| => Ins(es[i].key, es[i].rid))
  }

  /** Every insert's key is not live when it is inserted. */
  ghost predicate FreshRun(ops: seq<Op>) {
    ops == [] || (
      && FreshRun(ops[..|ops| - 1])
      && var op := ops[|ops| - 1];
         op.Ins? ==> forall e | e in Ideal(ops[..|ops| - 1]) :: e.key != op.key
    )
  }

  /** Every insert is clear. */
  ghost predicate ClearRun(c: Format, ops: seq<Op>) {
    ops == [] || (
      && ClearRun(c, ops[..|ops| - 1])
      && var s, op := Run(c, ops[..|ops| - 1]), ops[|ops| - 1];
         op.Ins? ==> Clear(c, s.root, op.key, op.rid, s.next)
    )
  }

  /** The entries of the index: a delete that cannot reach its entry leaves it. */
  ghost function Live(c: Format, ops: seq<Op>): (b: multiset<Entry>) {
    if ops == [] then multiset{}
    else
      var b, op := Live(c, ops[..|ops| - 1]), ops[|ops| - 1];
      var e := Entry(op.key, op.rid);
      if op.Ins? then b + multiset{e}
      else if Reachable(c, Run(c, ops[..|ops| - 1]), op.key, op.rid) then b - multiset{e}
      else b
  }

  /** No delete of a live entry fails to reach it. */
  ghost predicate NoneMissed(c: Format, ops: seq<Op>) {
    ops == [] || (
      && NoneMissed(c, ops[..|ops| - 1])
      && var op := ops[|ops| - 1];
         op.Del? && Entry(op.key, op.rid) in Live(c, ops[..|ops| - 1]) ==> Reachable(c, Run(c, ops[..|ops| - 1]), op.key, op.rid)
    )
  }

  /** The index holds what an ideal one would, as long as every delete of a live entry reaches it. */
  lemma {:induction false} LiveIsIdeal(c: Format, ops: seq<Op>)
    requires NoneMissed(c, ops)
    ensures Live(c, ops) == Ideal(ops)
  {
    hide Reachable, Run;
    if ops == [] {
    } else {
      LiveIsIdeal(c, ops[..|ops| - 1]);
    }
  }

  /** The first delete that misses a live entry leaves the index with more than an ideal one holds. */
  lemma MissedDelete(c: Format, ops: seq<Op>, k: Key, r: Rid)
    requires NoneMissed(c, ops)
    ensures Live(c, ops + [Del(k, r)]) == Ideal(ops + [Del(k, r)])
      <==> Entry(k, r) !in Live(c, ops) || Reachable(c, Run(c, ops), k, r)
  {
    hide Reachable, Run, Live, Ideal;
    LiveIsIdeal(c, ops);
    DeleteStep(c, ops, k, r);
    TakenOut(Live(c, ops), Entry(k, r));
  }

  lemma DeleteStep(c: Format, ops: seq<Op>, k: Key, r: Rid)
    ensures Ideal(ops + [Del(k, r)]) == Ideal(ops) - multiset{Entry(k, r)}
    ensures Live(c, ops + [Del(k, r)])
      == if Reachable(c, Run(c, ops), k, r) then Live(c, ops) - multiset{Entry(k, r)} else Live(c, ops)
  {
    hide Reachable, Run;
    assert (ops + [Del(k, r)])[..|ops|] == ops;
  }

  lemma TakenOut<T>(b: multiset<T>, x: T)
    ensures b - multiset{x} == b <==> x !in b
  {
    assert (b - multiset{x})[x] == if x in b then b[x] - 1 else 0;
  }

  lemma {:induction false} FreshRunGood(c: Format, ops: seq<Op>)
    requires c.Valid() && FreshRun(ops)
    ensures Good(c, true, Run(c, ops)) && Bag(Run(c, ops).root) == Ideal(ops)
  {
    if ops == [] {
      EmptyGood(c, true);
    } else {
      var s, op := Run(c, ops[..|ops| - 1]), ops[|ops| - 1];
      FreshRunGood(c, ops[..|ops| - 1]);
      match op {
        case Ins(k, r) => PutGood(c, true, s, k, r);
        case Del(k, r) =>
          SearchStrict(c, s, k);
          if Entry(k, r) in Bag(s.root) {
            UnbrokenReaches(c, true, s, k, r);
          }
          TakeGood(c, true, s, k, r);
      }
    }
  }

  /**
   * After any run with distinct live keys a search returns exactly the live record id of its key,
   * and nothing for a key that is not live.
   */
  lemma FreshRunSearch(c: Format, ops: seq<Op>, k: Key)
    requires c.Valid() && FreshRun(ops)
    ensures forall r | Entry(k, r) in Ideal(ops) :: Search(c, Run(c, ops), k) == [r]
    ensures (forall r :: Entry(k, r) !in Ideal(ops)) ==> Search(c, Run(c, ops), k) == []
  {
    FreshRunGood(c, ops);
    SearchStrict(c, Run(c, ops), k);
  }

  /** Clear inserts and any deletes keep the index well formed. */
  lemma {:induction false} ClearRunGood(c: Format, ops: seq<Op>)
    requires c.Valid() && ClearRun(c, ops)
    ensures Good(c, false, Run(c, ops)) && Bag(Run(c, ops).root) == Live(c, ops)
  {
    if ops == [] {
      EmptyGood(c, false);
    } else {
      var s, op := Run(c, ops[..|ops| - 1]), ops[|ops| - 1];
      ClearRunGood(c, ops[..|ops| - 1]);
      match op {
        case Ins(k, r) => PutGood(c, false, s, k, r);
        case Del(k, r) => TakeGood(c, false, s, k, r);
      }
    }
  }

  /**
   * After clear inserts, with any number of equal keys, and any deletes a search returns every record id of
   * its key as often as the index holds it, exactly when no empty leaf interrupts the run of that key.
   */
  lemma ClearRunSearch(c: Format, ops: seq<Op>, k: Key)
    requires c.Valid() && ClearRun(c, ops)
    ensures (forall r :: multiset(Search(c, Run(c, ops), k))[r] == Live(c, ops)[Entry(k, r)])
       <==> Unbroken(c, Run(c, ops), k)
  {
    ClearRunGood(c, ops);
    SearchIff(c, Run(c, ops), k);
  }
}
