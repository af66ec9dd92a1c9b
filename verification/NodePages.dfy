/**
 * Index nodes as slotted pages. A page is a list of slots; values go to the lowest free slot and a
 * page refuses a value that does not fit. Order inside a node is recovered by sorting.
 */
module NodePages {
  import opened Base
  import opened TreeModel
  import opened TreeOrder

  datatype NodeEntry =
    | Meta(isLeaf: bool, left: Option<PageId>, right: Option<PageId>)
    | InnerEntry(key: Option<Key>, child: PageId)
    | LeafEntry(entry: Entry)

  type Page = seq<Option<NodeEntry>>

  /** A separator with the child right of it; the leftmost child has no key. */
  type Pair = (Option<Key>, PageId)

  // ------------------------------------------------------------------ room

  function SumBy<T>(f: T -> nat, s: seq<T>): (n: nat) {
    if s == [] then 0 else f(s[0]) + SumBy(f, s[1..])
  }

  function Size(c: Format, e: NodeEntry): (n: nat) {
    match e
    case Meta(_, _, _) => 0
    case InnerEntry(k, p) => c.sepSize(k, p)
    case LeafEntry(x) => c.leafSize(x)
  }

  function SlotSize(c: Format, s: Option<NodeEntry>): (n: nat) {
    if s.None? then 0 else Size(c, s.value)
  }

  function SlotSizes(c: Format): (f: Option<NodeEntry> -> nat) {
    s => SlotSize(c, s)
  }

  function Used(c: Format, p: Page): (n: nat) {
    SumBy(SlotSizes(c), p)
  }

  lemma {:induction false} SumCat<T>(f: T -> nat, a: seq<T>, b: seq<T>)
    ensures SumBy(f, a + b) == SumBy(f, a) + SumBy(f, b)
  {
    if a == [] {
      assert a + b == b;
    } else {
      SumCat(f, a[1..], b);
      assert (a + b)[1..] == a[1..] + b;
    }
  }

  lemma SumAround<T>(f: T -> nat, s: seq<T>, i: nat)
    requires i < |s|
    ensures SumBy(f, s) == SumBy(f, s[..i]) + f(s[i]) + SumBy(f, s[i + 1..])
  {
    assert s == s[..i] + ([s[i]] + s[i + 1..]);
    SumCat(f, s[..i], [s[i]] + s[i + 1..]);
    assert ([s[i]] + s[i + 1..])[1..] == s[i + 1..];
  }

  lemma SumSet<T>(f: T -> nat, s: seq<T>, i: nat, x: T)
    requires i < |s|
    ensures SumBy(f, s[i := x]) == SumBy(f, s) - f(s[i]) + f(x)
  {
    SumAround(f, s, i);
    SumAround(f, s[i := x], i);
    assert s[i := x][..i] == s[..i] && s[i := x][i + 1..] == s[i + 1..];
  }

  lemma Without<T>(b: seq<T>, i: nat)
    requires i < |b|
    ensures multiset(b) == multiset(b[..i] + b[i + 1..]) + multiset{b[i]}
  {
    assert b == b[..i] + [b[i]] + b[i + 1..];
  }

  lemma CancelOne<T>(a: multiset<T>, b: multiset<T>, e: T)
    requires a + multiset{e} == b + multiset{e}
    ensures a == b
  {
    assert (a + multiset{e}) - multiset{e} == a;
    assert (b + multiset{e}) - multiset{e} == b;
  }

  /** A sum does not depend on the order. */
  lemma {:induction false} SumPermuted<T>(f: T -> nat, a: seq<T>, b: seq<T>)
    requires multiset(a) == multiset(b)
    ensures SumBy(f, a) == SumBy(f, b)
  {
    assert |a| == |multiset(a)| && |b| == |multiset(b)|;
    if a == [] {
    } else {
      assert a[0] in multiset(b);
      var i :| 0 <= i < |b| && b[i] == a[0];
      var rest := b[..i] + b[i + 1..];
      Without(b, i);
      Without(a, 0);
      assert a[..0] + a[1..] == a[1..];
      CancelOne(multiset(a[1..]), multiset(rest), a[0]);
      SumPermuted(f, a[1..], rest);
      SumAround(f, b, i);
      SumCat(f, b[..i], b[i + 1..]);
    }
  }

  /** The lowest free slot, or the length of the page. */
  function FreeSlot(p: Page): (i: nat)
    ensures i <= |p|
    ensures i < |p| ==> p[i].None?
    ensures forall j | 0 <= j < i :: p[j].Some?
  {
    if p == [] || p[0].None? then 0 else 1 + FreeSlot(p[1..])
  }

  predicate Fits(c: Format, p: Page, e: NodeEntry) {
    Used(c, p) + Size(c, e) <= c.room
  }

  /** Store `e` in the lowest free slot; refused when it does not fit. */
  function AddValue(c: Format, p: Page, e: NodeEntry): (r: Option<Page>)
    ensures r.Some? <==> Fits(c, p, e)
  {
    if !Fits(c, p, e) then None
    else
      var i := FreeSlot(p);
      Some(if i < |p| then p[i := Some(e)] else p + [Some(e)])
  }

  lemma AddedValue(c: Format, p: Page, e: NodeEntry)
    requires Fits(c, p, e)
    ensures var p' := AddValue(c, p, e).value;
      && Used(c, p') == Used(c, p) + Size(c, e)
      && forall x | x != None :: multiset(p')[x] == multiset(p)[x] + if x == Some(e) then 1 else 0
  {
    var i := FreeSlot(p);
    if i < |p| {
      SumSet(SlotSizes(c), p, i, Some(e));
    } else {
      SumCat(SlotSizes(c), p, [Some(e)]);
      assert [Some(e)][1..] == [];
    }
  }

  // ------------------------------------------------------------------ sorting

  function SortEntries(c: Format, es: seq<Entry>): (r: seq<Entry>)
    ensures multiset(r) == multiset(es)
  {
    if es == [] then []
    else
      assert es == es[..|es| - 1] + [es[|es| - 1]];
      Place(c, SortEntries(c, es[..|es| - 1]), es[|es| - 1])
  }

  predicate KeyBefore(c: Format, a: Option<Key>, b: Option<Key>) {
    a.None? || (b.Some? && c.le(a.value, b.value))
  }

  function PlacePair(c: Format, ps: seq<Pair>, x: Pair): (r: seq<Pair>)
    ensures multiset(r) == multiset(ps) + multiset{x}
  {
    if ps == [] || !KeyBefore(c, ps[0].0, x.0) then [x] + ps
    else
      assert ps == [ps[0]] + ps[1..];
      [ps[0]] + PlacePair(c, ps[1..], x)
  }

  /** The stable sort of an inner node's entries by key. */
  function SortPairs(c: Format, ps: seq<Pair>): (r: seq<Pair>)
    ensures multiset(r) == multiset(ps)
  {
    if ps == [] then []
    else
      assert ps == ps[..|ps| - 1] + [ps[|ps| - 1]];
      PlacePair(c, SortPairs(c, ps[..|ps| - 1]), ps[|ps| - 1])
  }

  /** An inner node's entries, sorted. */
  function Pairs(key: Option<Key>, ks: Kids): (ps: seq<Pair>)
    ensures |ps| == Count(ks)
    decreases ks
  {
    [(key, ks.kid.id)] + if ks.Last? then [] else Pairs(Some(ks.sep), ks.rest)
  }

  lemma SameHead(c: Format, a: seq<Entry>, b: seq<Entry>)
    requires c.Valid() && Sorted(c, a) && Sorted(c, b) && multiset(a) == multiset(b) && a != [] && b != []
    ensures a[0] == b[0]
  {
    assert a[0] in multiset(b) && b[0] in multiset(a);
    var i :| 0 <= i < |b| && b[i] == a[0];
    var j :| 0 <= j < |a| && a[j] == b[0];
    EntryTotal(c, a[0], b[0]);
  }

  lemma SameTails<T>(a: seq<T>, b: seq<T>)
    requires multiset(a) == multiset(b) && a != [] && b != [] && a[0] == b[0]
    ensures multiset(a[1..]) == multiset(b[1..])
  {
    HeadBag(a);
    HeadBag(b);
    CancelOne(multiset(a[1..]), multiset(b[1..]), a[0]);
  }

  lemma HeadBag<T>(s: seq<T>)
    requires s != []
    ensures multiset(s) == multiset(s[1..]) + multiset{s[0]}
  {
    assert s == [s[0]] + s[1..];
  }

  lemma {:induction false} SortedUnique(c: Format, a: seq<Entry>, b: seq<Entry>)
    requires c.Valid() && Sorted(c, a) && Sorted(c, b) && multiset(a) == multiset(b)
    ensures a == b
  {
    assert |a| == |multiset(a)| && |b| == |multiset(b)|;
    if a == [] {
    } else {
      SameHead(c, a, b);
      SameTails(a, b);
      SortedUnique(c, a[1..], b[1..]);
      assert a == [a[0]] + a[1..] && b == [b[0]] + b[1..];
    }
  }

  lemma {:induction false} SortEntriesSorted(c: Format, es: seq<Entry>)
    requires c.Valid()
    ensures Sorted(c, SortEntries(c, es))
  {
    if es == [] {
    } else {
      SortEntriesSorted(c, es[..|es| - 1]);
      PlaceSorted(c, SortEntries(c, es[..|es| - 1]), es[|es| - 1]);
    }
  }

  /** Sorting a drained leaf together with a new entry places that entry. */
  lemma SortIsPlace(c: Format, raw: seq<Entry>, es: seq<Entry>, e: Entry)
    requires c.Valid() && Sorted(c, es) && multiset(raw) == multiset(es)
    ensures SortEntries(c, raw + [e]) == Place(c, es, e)
  {
    SortEntriesSorted(c, raw + [e]);
    PlaceSorted(c, es, e);
    SortedUnique(c, SortEntries(c, raw + [e]), Place(c, es, e));
  }

  // ------------------------------------------------------------------ sorted inner nodes

  /** Separators in order, from `key` on. */
  ghost predicate SepsSorted(c: Format, key: Option<Key>, ks: Kids)
    decreases ks
  {
    ks.More? ==> KeyBefore(c, key, Some(ks.sep)) && SepsSorted(c, Some(ks.sep), ks.rest)
  }

  ghost predicate PairsSorted(c: Format, ps: seq<Pair>) {
    forall i, j | 0 <= i < j < |ps| :: KeyBefore(c, ps[i].0, ps[j].0)
  }

  lemma {:induction false} SepsSortedPairs(c: Format, key: Option<Key>, ks: Kids)
    requires c.Valid() && SepsSorted(c, key, ks)
    ensures PairsSorted(c, Pairs(key, ks))
    decreases ks
  {
    if ks.More? {
      SepsSortedPairs(c, Some(ks.sep), ks.rest);
      var tail := Pairs(Some(ks.sep), ks.rest);
      forall j | 0 <= j < |tail| ensures KeyBefore(c, key, tail[j].0) {
        assert j == 0 || KeyBefore(c, tail[0].0, tail[j].0);
      }
    }
  }

  lemma {:induction false} PlaceLast(c: Format, ps: seq<Pair>, x: Pair)
    requires forall i | 0 <= i < |ps| :: KeyBefore(c, ps[i].0, x.0)
    ensures PlacePair(c, ps, x) == ps + [x]
  {
    if ps == [] {
    } else {
      PlaceLast(c, ps[1..], x);
    }
  }

  lemma {:induction false} SortSorted(c: Format, ps: seq<Pair>)
    requires PairsSorted(c, ps)
    ensures SortPairs(c, ps) == ps
  {
    if ps == [] {
    } else {
      var n := |ps| - 1;
      SortSorted(c, ps[..n]);
      PlaceLast(c, ps[..n], ps[n]);
      assert ps[..n] + [ps[n]] == ps;
    }
  }

  lemma PlaceBehind(c: Format, p: Pair, rest: seq<Pair>, x: Pair)
    requires KeyBefore(c, p.0, x.0)
    ensures PlacePair(c, [p] + rest, x) == [p] + PlacePair(c, rest, x)
  {
    assert ([p] + rest)[1..] == rest;
  }

  lemma PlaceHere(c: Format, ps: seq<Pair>, x: Pair)
    requires ps == [] || !KeyBefore(c, ps[0].0, x.0)
    ensures PlacePair(c, ps, x) == [x] + ps
  {
  }

  /** A stable sort puts a new separator where the tree does. */
  lemma {:induction false} PlaceIsAddSep(c: Format, key: Option<Key>, ks: Kids, s: Key, x: Tree)
    requires KeyBefore(c, key, Some(s))
    ensures PlacePair(c, Pairs(key, ks), (Some(s), x.id)) == Pairs(key, AddSep(c, ks, s, x))
    decreases ks
  {
    hide PlacePair;
    var p, n := (key, ks.kid.id), (Some(s), x.id);
    var rest := if ks.More? then Pairs(Some(ks.sep), ks.rest) else [];
    assert Pairs(key, ks) == [p] + rest;
    PlaceBehind(c, p, rest, n);
    if ks.More? && c.le(ks.sep, s) {
      PlaceIsAddSep(c, Some(ks.sep), ks.rest, s, x);
    } else {
      PlaceHere(c, rest, n);
    }
  }

  lemma {:induction false} AddSepSorted(c: Format, key: Option<Key>, ks: Kids, s: Key, x: Tree)
    requires c.Valid() && SepsSorted(c, key, ks) && KeyBefore(c, key, Some(s))
    ensures SepsSorted(c, key, AddSep(c, ks, s, x))
    decreases ks
  {
    if ks.More? {
      if c.le(ks.sep, s) {
        AddSepSorted(c, Some(ks.sep), ks.rest, s, x);
      } else {
        assert SepsSorted(c, Some(s), More(x, ks.sep, ks.rest));
      }
    }
  }

  lemma {:induction false} CutPairs(c: Format, key: Option<Key>, ks: Kids, n: nat)
    requires 1 <= n < Count(ks)
    ensures var (l, s, r) := Cut(ks, n); var ps := Pairs(key, ks);
      && ps[..n] == Pairs(key, l) && ps[n] == (Some(s), r.kid.id) && ps[n + 1..] == Pairs(None, r)[1..]
    decreases ks
  {
    hide Cut, Pairs;
    PairsHead(key, ks);
    PairsHead(Some(ks.sep), ks.rest);
    PairsHead(None, ks.rest);
    Behind((key, ks.kid.id), Pairs(Some(ks.sep), ks.rest), n);
    CutStep(ks, n);
    if n == 1 {
      PairsHead(key, Last(ks.kid));
    } else {
      CutPairs(c, Some(ks.sep), ks.rest, n - 1);
      PairsHead(key, Cut(ks, n).0);
    }
  }

  lemma CutStep(ks: Kids, n: nat)
    requires 1 <= n < Count(ks)
    ensures Cut(ks, n) == if n == 1 then (Last(ks.kid), ks.sep, ks.rest)
      else var (l, s, r) := Cut(ks.rest, n - 1); (More(ks.kid, ks.sep, l), s, r)
  {
  }

  lemma PairsHead(key: Option<Key>, ks: Kids)
    ensures Pairs(key, ks) == [(key, ks.kid.id)] + Pairs(key, ks)[1..]
    ensures Pairs(key, ks)[1..] == if ks.More? then Pairs(Some(ks.sep), ks.rest) else []
  {
  }

  lemma Behind<T>(x: T, tail: seq<T>, n: nat)
    requires 1 <= n <= |tail|
    ensures var s := [x] + tail; s[..n] == [x] + tail[..n - 1] && s[n] == tail[n - 1] && s[n + 1..] == tail[n..]
  {
  }

  lemma {:induction false} CutSorted(c: Format, key: Option<Key>, ks: Kids, n: nat)
    requires 1 <= n < Count(ks) && SepsSorted(c, key, ks)
    ensures SepsSorted(c, key, Cut(ks, n).0) && SepsSorted(c, None, Cut(ks, n).2)
    decreases ks
  {
    if n > 1 {
      CutSorted(c, Some(ks.sep), ks.rest, n - 1);
    }
  }

  function PairSize(c: Format, x: Pair): (n: nat) {
    c.sepSize(x.0, x.1)
  }

  function PairSizes(c: Format): (f: Pair -> nat) {
    x => PairSize(c, x)
  }

  lemma {:induction false} PairsBytes(c: Format, key: Option<Key>, ks: Kids)
    ensures SumBy(PairSizes(c), Pairs(key, ks)) == InnerBytes(c, key, ks)
    decreases ks
  {
    var ps := Pairs(key, ks);
    if ks.More? {
      PairsBytes(c, Some(ks.sep), ks.rest);
      assert ps[1..] == Pairs(Some(ks.sep), ks.rest);
    } else {
      assert ps[1..] == [];
    }
  }

  /** The child a descent follows, read off sorted entries. */
  function PairChild(c: Format, ps: seq<Pair>, k: Key): (p: PageId)
    requires ps != []
  {
    if |ps| == 1 || !KeyBefore(c, ps[1].0, Some(k)) then ps[0].1 else PairChild(c, ps[1..], k)
  }

  lemma {:induction false} PairChildIs(c: Format, key: Option<Key>, ks: Kids, k: Key)
    ensures PairChild(c, Pairs(key, ks), k) == Child(c, ks, k).id
    decreases ks
  {
    if ks.More? {
      PairChildIs(c, Some(ks.sep), ks.rest, k);
      assert Pairs(key, ks)[1..] == Pairs(Some(ks.sep), ks.rest);
    }
  }

  /** Follow the entries as long as their keys are at most `k`. */
  method FindChild(c: Format, ps: seq<Pair>, k: Key) returns (child: PageId)
    requires ps != [] && ps[0].0.None?
    ensures child == PairChild(c, ps, k)
  {
    child := ps[0].1;
    var i := 0;
    while i < |ps| && KeyBefore(c, ps[i].0, Some(k))
      invariant 0 <= i <= |ps|
      invariant i == 0 ==> child == ps[0].1
      invariant i > 0 ==> child == ps[i - 1].1 && PairChild(c, ps[i - 1..], k) == PairChild(c, ps, k)
    {
      child := ps[i].1;
      assert i > 0 ==> ps[i - 1..][1..] == ps[i..];
      i := i + 1;
    }
  }
}
