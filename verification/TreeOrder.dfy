/**
 * Search order: every key lies between the separators around its leaf. Inserts keep it as long as
 * no split ties with the separator that follows it.
 */
module TreeOrder {
  import opened Base
  import opened TreeModel

  /** `<` in a strict tree, `<=` in one that may hold equal keys. */
  ghost predicate Before(c: Format, strict: bool, a: Key, b: Key) {
    if strict then c.Lt(a, b) else c.le(a, b)
  }

  ghost predicate AtLeast(c: Format, lo: Option<Key>, k: Key) {
    lo.Some? ==> c.le(lo.value, k)
  }

  ghost predicate Over(c: Format, strict: bool, lo: Option<Key>, k: Key) {
    lo.Some? ==> Before(c, strict, lo.value, k)
  }

  ghost predicate Under(c: Format, strict: bool, k: Key, hi: Option<Key>) {
    hi.Some? ==> Before(c, strict, k, hi.value)
  }

  ghost predicate Increasing(c: Format, es: seq<Entry>) {
    forall i, j | 0 <= i < j < |es| :: c.Lt(es[i].key, es[j].key)
  }

  /** The keys below `t` lie between the fences `lo` and `hi`, and so do those of every subtree between its own. */
  ghost predicate Ordered(c: Format, strict: bool, t: Tree, lo: Option<Key>, hi: Option<Key>)
    decreases t, 1
  {
    match t
    case Leaf(_, es) =>
      && Sorted(c, es) && (strict ==> Increasing(c, es))
      && forall e | e in es :: AtLeast(c, lo, e.key) && Under(c, strict, e.key, hi)
    case Inner(_, ks) => OrderedKids(c, strict, ks, lo, hi)
  }

  ghost predicate OrderedKids(c: Format, strict: bool, ks: Kids, lo: Option<Key>, hi: Option<Key>)
    decreases ks, 0
  {
    match ks
    case Last(kid) => Ordered(c, strict, kid, lo, hi)
    case More(kid, sep, rest) =>
      && Over(c, strict, lo, sep) && Under(c, strict, sep, hi)
      && Ordered(c, strict, kid, lo, Some(sep))
      && OrderedKids(c, strict, rest, Some(sep), hi)
  }

  ghost predicate GrownOrdered(c: Format, strict: bool, g: Grown, lo: Option<Key>, hi: Option<Key>) {
    match g
    case Whole(t) => Ordered(c, strict, t, lo, hi)
    case Split(l, s, r) =>
      && Over(c, strict, lo, s) && Under(c, strict, s, hi)
      && Ordered(c, strict, l, lo, Some(s)) && Ordered(c, strict, r, Some(s), hi)
  }

  /** No child split on the way down ties with the separator that follows that child. */
  ghost predicate Clear(c: Format, t: Tree, k: Key, r: Rid, next: PageId)
    decreases t, 1
  {
    t.Inner? ==> ClearKids(c, t.kids, k, r, next)
  }

  ghost predicate ClearKids(c: Format, ks: Kids, k: Key, r: Rid, next: PageId)
    decreases ks, 0
  {
    if ks.Last? then Clear(c, ks.kid, k, r, next)
    else if c.le(ks.sep, k) then ClearKids(c, ks.rest, k, r, next)
    else
      && Clear(c, ks.kid, k, r, next)
      && var g := Insert(c, ks.kid, k, r, next).0;
         g.Split? ==> c.Lt(g.sep, ks.sep)
  }

  // ------------------------------------------------------------------ leaves

  lemma {:induction false} PlaceSorted(c: Format, es: seq<Entry>, e: Entry)
    requires c.Valid() && Sorted(c, es)
    ensures Sorted(c, Place(c, es, e))
  {
    if es != [] && c.EntryLe(es[0], e) {
      PlaceSorted(c, es[1..], e);
      var r := Place(c, es[1..], e);
      forall j | 0 <= j < |r| ensures c.EntryLe(es[0], r[j]) {
        assert r[j] in multiset(r);
        assert r[j] == e || r[j] in es[1..];
      }
    } else if es != [] {
      forall j | 0 <= j < |es| ensures c.EntryLe(e, es[j]) {
        EntryTotal(c, e, es[0]);
        if j > 0 {
          EntryTransitive(c, e, es[0], es[j]);
        }
      }
    }
  }

  lemma EntryTotal(c: Format, x: Entry, y: Entry)
    requires c.Valid()
    ensures c.EntryLe(x, y) || c.EntryLe(y, x)
    ensures c.EntryLe(x, y) && c.EntryLe(y, x) ==> x == y
    ensures c.EntryLe(x, y) ==> c.le(x.key, y.key)
  {
  }

  lemma EntryTransitive(c: Format, x: Entry, y: Entry, z: Entry)
    requires c.Valid() && c.EntryLe(x, y) && c.EntryLe(y, z)
    ensures c.EntryLe(x, z)
  {
  }

  lemma PlaceMembers(c: Format, es: seq<Entry>, e: Entry)
    ensures forall x :: x in Place(c, es, e) <==> x == e || x in es
  {
    forall x ensures x in Place(c, es, e) <==> x == e || x in es {
      assert x in Place(c, es, e) <==> x in multiset(Place(c, es, e));
    }
  }

  lemma {:induction false} PlaceIncreasing(c: Format, es: seq<Entry>, e: Entry)
    requires c.Valid() && Increasing(c, es)
    requires forall x | x in es :: x.key != e.key
    ensures Increasing(c, Place(c, es, e))
  {
    if es != [] && c.EntryLe(es[0], e) {
      PlaceIncreasing(c, es[1..], e);
      var r := Place(c, es[1..], e);
      PlaceMembers(c, es[1..], e);
      forall j | 0 <= j < |r| ensures c.Lt(es[0].key, r[j].key) {
        assert r[j] in r;
        assert r[j] == e || r[j] in es[1..];
      }
    }
  }

  lemma LeafSplitOrdered(c: Format, strict: bool, all: seq<Entry>, mid: nat)
    requires c.Valid() && Sorted(c, all) && 0 < mid < |all|
    requires strict ==> Increasing(c, all)
    ensures Sorted(c, all[..mid]) && Sorted(c, all[mid..])
    ensures strict ==> Increasing(c, all[..mid]) && Increasing(c, all[mid..])
    ensures forall x | x in all[..mid] :: Before(c, strict, x.key, all[mid].key)
    ensures forall x | x in all[mid..] :: c.le(all[mid].key, x.key)
  {
  }

  lemma PlaceOrdered(c: Format, strict: bool, es: seq<Entry>, e: Entry, lo: Option<Key>, hi: Option<Key>)
    requires c.Valid() && Ordered(c, strict, Leaf(0, es), lo, hi)
    requires AtLeast(c, lo, e.key) && Under(c, true, e.key, hi)
    requires strict ==> forall x | x in es :: x.key != e.key
    ensures Ordered(c, strict, Leaf(0, Place(c, es, e)), lo, hi)
  {
    PlaceSorted(c, es, e);
    PlaceMembers(c, es, e);
    if strict {
      PlaceIncreasing(c, es, e);
    }
  }

  lemma GrowLeafOrdered(c: Format, strict: bool, id: PageId, es: seq<Entry>, e: Entry, next: PageId, lo: Option<Key>,
      hi: Option<Key>)
    requires c.Valid() && Ordered(c, strict, Leaf(id, es), lo, hi)
    requires AtLeast(c, lo, e.key) && Under(c, true, e.key, hi)
    requires strict ==> forall x | x in es :: x.key != e.key
    ensures GrownOrdered(c, strict, GrowLeaf(c, id, es, e, next), lo, hi)
  {
    PlaceOrdered(c, strict, es, e, lo, hi);
    var all := Place(c, es, e);
    var mid := |all| / 2;
    if GrowLeaf(c, id, es, e, next).Split? {
      assert es != [];
      LeafSplitOrdered(c, strict, all, mid);
      assert all[0] in all && all[mid] in all && all[0] in all[..mid];
    }
  }

  // ------------------------------------------------------------------ inner nodes

  lemma {:induction false} CutOrdered(c: Format, strict: bool, ks: Kids, n: nat, lo: Option<Key>, hi: Option<Key>)
    requires c.Valid() && OrderedKids(c, strict, ks, lo, hi) && 1 <= n < Count(ks)
    ensures var (l, s, r) := Cut(ks, n);
      && Over(c, strict, lo, s) && Under(c, strict, s, hi)
      && OrderedKids(c, strict, l, lo, Some(s)) && OrderedKids(c, strict, r, Some(s), hi)
  {
    if n > 1 {
      CutOrdered(c, strict, ks.rest, n - 1, Some(ks.sep), hi);
    }
  }

  /**
   * In a strict tree a fresh key, and in any tree an insert whose splits stay clear of the next
   * separator, leaves every key between its fences.
   */
  lemma {:induction false} InsertOrdered(c: Format, strict: bool, t: Tree, k: Key, r: Rid, next: PageId,
      lo: Option<Key>, hi: Option<Key>)
    requires c.Valid() && Ordered(c, strict, t, lo, hi)
    requires AtLeast(c, lo, k) && Under(c, true, k, hi)
    requires if strict then forall e | e in Bag(t) :: e.key != k else Clear(c, t, k, r, next)
    ensures GrownOrdered(c, strict, Insert(c, t, k, r, next).0, lo, hi)
    decreases t, 1
  {
    match t
    case Leaf(id, es) =>
      forall x | x in es && strict ensures x.key != k {
        assert x in Bag(t);
      }
      GrowLeafOrdered(c, strict, id, es, Entry(k, r), next, lo, hi);
    case Inner(id, ks) =>
      InsertKidsOrdered(c, strict, ks, k, r, next, lo, hi);
      var (g, next1) := InsertChild(c, ks, k, r, next);
      if g.Split? {
        var all := AddSep(c, SetChild(c, ks, k, g.left), g.sep, g.right);
        CutOrdered(c, strict, all, Count(all) / 2, lo, hi);
      }
  }

  lemma {:induction false} InsertKidsOrdered(c: Format, strict: bool, ks: Kids, k: Key, r: Rid, next: PageId,
      lo: Option<Key>, hi: Option<Key>)
    requires c.Valid() && OrderedKids(c, strict, ks, lo, hi)
    requires AtLeast(c, lo, k) && Under(c, true, k, hi)
    requires if strict then forall e | e in BagKids(ks) :: e.key != k else ClearKids(c, ks, k, r, next)
    ensures match InsertChild(c, ks, k, r, next).0
      case Whole(kid) => OrderedKids(c, strict, SetChild(c, ks, k, kid), lo, hi)
      case Split(l, s, x) =>
        && OrderedKids(c, strict, AddSep(c, SetChild(c, ks, k, l), s, x), lo, hi)
        && Over(c, strict, lo, s)
    decreases ks, 0
  {
    if ks.Last? {
      InsertOrdered(c, strict, ks.kid, k, r, next, lo, hi);
    } else if c.le(ks.sep, k) {
      forall e | e in BagKids(ks.rest) && strict ensures e.key != k {
        assert e in BagKids(ks);
      }
      InsertKidsOrdered(c, strict, ks.rest, k, r, next, Some(ks.sep), hi);
    } else {
      forall e | e in Bag(ks.kid) && strict ensures e.key != k {
        assert e in BagKids(ks);
      }
      InsertOrdered(c, strict, ks.kid, k, r, next, lo, Some(ks.sep));
    }
  }

  /** Fresh keys in a strict tree never tie with a separator. */
  lemma {:induction false} StrictClear(c: Format, t: Tree, k: Key, r: Rid, next: PageId, lo: Option<Key>,
      hi: Option<Key>)
    requires c.Valid() && Ordered(c, true, t, lo, hi)
    requires AtLeast(c, lo, k) && Under(c, true, k, hi)
    requires forall e | e in Bag(t) :: e.key != k
    ensures Clear(c, t, k, r, next)
    decreases t, 1
  {
    if t.Inner? {
      StrictClearKids(c, t.kids, k, r, next, lo, hi);
    }
  }

  lemma {:induction false} StrictClearKids(c: Format, ks: Kids, k: Key, r: Rid, next: PageId, lo: Option<Key>,
      hi: Option<Key>)
    requires c.Valid() && OrderedKids(c, true, ks, lo, hi)
    requires AtLeast(c, lo, k) && Under(c, true, k, hi)
    requires forall e | e in BagKids(ks) :: e.key != k
    ensures ClearKids(c, ks, k, r, next)
    decreases ks, 0
  {
    assert forall e | e in Bag(ks.kid) :: e in BagKids(ks);
    if ks.Last? {
      StrictClear(c, ks.kid, k, r, next, lo, hi);
    } else if c.le(ks.sep, k) {
      assert forall e | e in BagKids(ks.rest) :: e in BagKids(ks);
      StrictClearKids(c, ks.rest, k, r, next, Some(ks.sep), hi);
    } else {
      StrictClear(c, ks.kid, k, r, next, lo, Some(ks.sep));
      InsertOrdered(c, true, ks.kid, k, r, next, lo, Some(ks.sep));
    }
  }
}
