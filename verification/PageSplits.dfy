/** Inserting into one page: in place when it fits, otherwise by splitting it in two. */
module PageSplits {
  import opened Base
  import opened TreeModel
  import opened TreeOrder
  import opened NodePages
  import opened PageOps

  // ------------------------------------------------------------------ halves fit

  /** Room for enough entries of sizes in `[m, b]` that the two halves of an overfull page both fit. */
  ghost predicate Ample(m: nat, b: nat, room: nat) {
    0 < m <= b <= room && b * b <= m * (room - b)
  }

  /** Entry sizes lie in `[m, b]`, and a page has room for enough of them; an entry without a key is no larger. */
  ghost predicate RoomyBy(c: Format, m: nat, b: nat) {
    && Ample(m, b, c.room)
    && (forall e :: m <= c.leafSize(e) <= b)
    && (forall k, p :: m <= c.sepSize(k, p) <= b)
    && (forall k, p :: c.sepSize(None, p) <= c.sepSize(Some(k), p))
  }

  ghost predicate Roomy(c: Format) {
    exists m: nat, b: nat :: RoomyBy(c, m, b)
  }

  ghost predicate Sized<T>(f: T -> nat, s: seq<T>, m: nat, b: nat) {
    forall i | 0 <= i < |s| :: m <= f(s[i]) <= b
  }

  lemma {:induction false} SumBounds<T>(f: T -> nat, s: seq<T>, m: nat, b: nat)
    requires Sized(f, s, m, b)
    ensures |s| * m <= SumBy(f, s) <= |s| * b
  {
    if s == [] {
    } else {
      SumBounds(f, s[1..], m, b);
      assert |s| * m == |s[1..]| * m + m && |s| * b == |s[1..]| * b + b;
    }
  }

  /** If a half with `n + 1` entries overflowed, the other one, with at least `n`, would make up for the overflow. */
  lemma Overflow(n: nat, m: nat, b: nat, room: nat)
    requires Ample(m, b, room)
    requires (n + 1) * b > room
    ensures n * m > b
  {
    assert n * b > room - b by {
      assert (n + 1) * b == n * b + b;
    }
    if n * m <= b {
      assert n * m * b <= b * b by { MulMono(n * m, b, b); }
      assert m * (n * b) == n * m * b;
      MulStrict(room - b, n * b, m);
    }
  }

  lemma MulMono(x: nat, y: nat, z: nat)
    requires x <= y
    ensures x * z <= y * z
  {
    assert y * z == x * z + (y - x) * z;
  }

  lemma MulStrict(x: nat, y: nat, z: nat)
    requires x < y && z > 0
    ensures z * x < z * y
  {
    assert z * y == z * x + z * (y - x);
  }

  /** Splitting an overfull page by count leaves two halves that fit. */
  lemma HalvesFit<T>(f: T -> nat, s: seq<T>, m: nat, b: nat, room: nat)
    requires Ample(m, b, room)
    requires Sized(f, s, m, b) && SumBy(f, s) <= room + b
    ensures SumBy(f, s[..|s| / 2]) <= room && SumBy(f, s[|s| / 2..]) <= room
  {
    var n := |s| / 2;
    var l, r := s[..n], s[n..];
    assert s == l + r;
    SumCat(f, l, r);
    SumBounds(f, l, m, b);
    SumBounds(f, r, m, b);
    if SumBy(f, r) > room {
      MulMono(|r|, n + 1, b);
      Overflow(n, m, b, room);
    }
    if SumBy(f, l) > room {
      MulMono(n, n + 1, b);
      Overflow(n, m, b, room);
      MulMono(n, |r|, m);
    }
  }

  // ------------------------------------------------------------------ leaves

  ghost predicate LeafPage(c: Format, p: Page, es: seq<Entry>) {
    LeafBody(p, es) && Sorted(c, es) && LeafBytes(c, es) <= c.room
  }

  /** The Meta entry of an emptied page goes to slot 0 and takes nothing from the room. */
  lemma Emptied(c: Format, p: Page, m: NodeEntry)
    requires (forall i | 0 <= i < |p| :: p[i] == None) && m.Meta?
    ensures AddValue(c, p, m).Some?
    ensures var q := AddValue(c, p, m).value;
      && |q| > 0 && q[0] == Some(m) && (forall i | 1 <= i < |q| :: q[i] == None)
      && Used(c, q) == 0
      && (forall x | x != None :: multiset(q)[x] == if x == Some(m) then 1 else 0)
  {
    FreeUsed(c, p);
    AddedValue(c, p, m);
    forall x | x != None ensures multiset(p)[x] == 0 {
    }
  }

  /** The entries of a list that fit an empty leaf page. */
  ghost function Refilled(c: Format, es: seq<Entry>): (r: seq<Entry>) {
    Kept(c.leafSize, c.room, 0, es)
  }

  lemma {:induction false} KeptSorted(c: Format, used: nat, es: seq<Entry>)
    requires Sorted(c, es) && used <= c.room
    ensures Sorted(c, Kept(c.leafSize, c.room, used, es))
    decreases |es|
  {
    if es == [] {
    } else if used + c.leafSize(es[0]) <= c.room {
      KeptSorted(c, used + c.leafSize(es[0]), es[1..]);
      KeptFewer(c.leafSize, c.room, used + c.leafSize(es[0]), es[1..]);
      var rest := Kept(c.leafSize, c.room, used + c.leafSize(es[0]), es[1..]);
      forall x | x in rest ensures c.EntryLe(es[0], x) {
        assert x in es[1..];
      }
    } else {
      KeptSorted(c, used, es[1..]);
    }
  }

  /** A refilled leaf page is one of its entries, sorted and within its room. */
  lemma RefilledPage(c: Format, p: Page, es: seq<Entry>)
    requires LeafBody(p, Refilled(c, es)) && Sorted(c, es)
    ensures LeafPage(c, p, Refilled(c, es))
  {
    KeptSorted(c, 0, es);
    KeptFewer(c.leafSize, c.room, 0, es);
    LeafBytesSum(c, Refilled(c, es));
  }

  /** Refilling loses nothing if and only if the entries fit. */
  lemma RefilledIff(c: Format, es: seq<Entry>)
    ensures Refilled(c, es) == es <==> LeafBytes(c, es) <= c.room
  {
    LeafBytesSum(c, es);
    KeptAllIff(c.leafSize, c.room, 0, es);
  }

  /** A leaf page rebuilt from its Meta entry and whatever of its entries fits. */
  method RebuildLeaf(c: Format, p: Page, left: Option<PageId>, right: Option<PageId>, es: seq<Entry>) returns (q: Page)
    requires forall i | 0 <= i < |p| :: p[i] == None
    ensures LeafBody(q, Refilled(c, es)) && Linked(q, left, right)
  {
    Emptied(c, p, Meta(true, left, right));
    q := AddValue(c, p, Meta(true, left, right)).value;
    assert [] + Refilled(c, es) == Refilled(c, es);
    q := FillLeaf(c, q, es, []);
  }

  lemma LeafSplitFits(c: Format, es: seq<Entry>, e: Entry)
    requires Roomy(c) && LeafBytes(c, es) <= c.room
    ensures var all := Place(c, es, e);
      LeafBytes(c, all[..|all| / 2]) <= c.room && LeafBytes(c, all[|all| / 2..]) <= c.room
  {
    var m: nat, b: nat :| RoomyBy(c, m, b);
    var all := Place(c, es, e);
    LeafBytesSum(c, es);
    assert multiset(all) == multiset([e] + es);
    SumPermuted(c.leafSize, all, [e] + es);
    assert ([e] + es)[1..] == es;
    HalvesFit(c.leafSize, all, m, b, c.room);
    LeafBytesSum(c, all[..|all| / 2]);
    LeafBytesSum(c, all[|all| / 2..]);
  }

  /**
   * Insert `e` into the leaf page `p`, numbered `id`; a full page is drained and the upper half of its
   * entries goes to a fresh page numbered `next`. What does not fit its half is lost.
   */
  method GrowLeafPage(c: Format, p: Page, id: PageId, e: Entry, next: PageId,
      ghost l: Option<PageId>, ghost r: Option<PageId>, ghost es: seq<Entry>)
    returns (left: Page, split: Option<(Key, Page)>, oldRight: Option<PageId>)
    requires c.Valid() && LeafPage(c, p, es) && Linked(p, l, r)
    ensures match GrowLeaf(c, id, es, e, next)
      case Whole(t) => split == None && LeafPage(c, left, t.entries) && Linked(left, l, r)
      case Split(a, s, x) =>
        && split.Some? && split.value.0 == s && oldRight == r
        && LeafPage(c, left, Refilled(c, a.entries)) && Linked(left, l, Some(next))
        && LeafPage(c, split.value.1, Refilled(c, x.entries)) && Linked(split.value.1, Some(id), r)
  {
    LeafUsed(c, p, es);
    PlaceSorted(c, es, e);
    ghost var placed := Place(c, es, e);
    var added := AddValue(c, p, LeafEntry(e));
    if added.Some? {
      AddedLeaf(c, p, es, e);
      left, split, oldRight := added.value, None, None;
      PlacedBody(c, left, es, e);
      return;
    }
    var ls, rs, raw := CollectLeaf(p, l, r, es);
    var free := Drain(p);
    var all := SortEntries(c, raw + [e]);
    SortIsPlace(c, raw, es, e);
    var mid := |all| / 2;
    var rightPage := RebuildLeaf(c, [], Some(id), rs, all[mid..]);
    left := RebuildLeaf(c, free, ls, Some(next), all[..mid]);
    split, oldRight := Some((all[mid].key, rightPage)), rs;
    HalvesSorted(c, placed, mid);
    RefilledPage(c, left, all[..mid]);
    RefilledPage(c, rightPage, all[mid..]);
  }

  lemma GrowLeafIds(c: Format, id: PageId, es: seq<Entry>, e: Entry, next: PageId)
    ensures match GrowLeaf(c, id, es, e, next)
      case Whole(t) => t.Leaf? && t.id == id
      case Split(a, _, x) => a.Leaf? && a.id == id && x.Leaf? && x.id == next
  {
  }

  lemma TwoBytes(c: Format, x: Entry, y: Entry)
    ensures LeafBytes(c, [x, y]) == c.leafSize(x) + c.leafSize(y)
  {
    assert [x, y][1..] == [y] && [y][1..] == [];
    assert LeafBytes(c, [y]) == c.leafSize(y);
  }

  /** A small entry and two large ones in one leaf: the upper half of the split does not fit its page. */
  lemma UpperOverflows(c: Format, x: Entry, y: Entry, e: Entry)
    requires c.EntryLe(x, y) && c.EntryLe(x, e) && c.EntryLe(y, e)
    requires c.leafSize(x) + c.leafSize(y) <= c.room < c.leafSize(y) + c.leafSize(e)
    ensures Sorted(c, [x, y]) && LeafBytes(c, [x, y]) <= c.room
    ensures var g := GrowLeaf(c, 1, [x, y], e, 2); g.Split? && Refilled(c, g.right.entries) != g.right.entries
  {
    hide Refilled, LeafBytes;
    var es := [x, y];
    TwoBytes(c, x, y);
    TwoBytes(c, y, e);
    RefilledIff(c, [y, e]);
    assert es[1..] == [y] && [y][1..] == [];
    assert Place(c, [y], e) == [y] + [e] && Place(c, es, e) == [x] + [y, e];
    assert ([x] + [y, e])[1..] == [y, e];
  }

  function Text(k: Key): (s: string) {
    if |k| == 1 && k[0].Str? then k[0].s else ""
  }

  /** Key `[s]` of `n` times one character. */
  function Wide(letter: char, n: nat): (k: Key)
    ensures Text(k) == seq(n, _ => letter)
  {
    [Str(seq(n, _ => letter))]
  }

  /**
   * A page of 4096 bytes: 24 are its header, and the Meta entry takes some. The entry of a key that is one text
   * takes at least the text, and at most 128 bytes more for its slot, names, tags and ids.
   */
  ghost predicate OnPage(c: Format) {
    && c.Valid() && c.le == KeyLe && c.ridLe == RidLe
    && 3900 <= c.room <= 4072
    && (forall k, r | |Text(k)| <= 3600 :: |Text(k)| <= c.leafSize(Entry(k, r)) <= |Text(k)| + 128)
    && (forall k, p | |Text(k)| <= 3600 :: |Text(k)| <= c.sepSize(Some(k), p) <= |Text(k)| + 128)
    && (forall p :: c.sepSize(None, p) <= 128)
  }

  /** An encoding of that kind. */
  lemma SomeEncoding() returns (c: Format)
    ensures OnPage(c)
  {
    c := Format(KeyLe, RidLe, 4072, (e: Entry) => if |Text(e.key)| <= 3600 then |Text(e.key)| + 128 else 4072,
      (k: Option<Key>, p: PageId) => if k.None? then 128 else |Text(k.value)| + 128);
    KeyTotal();
    RidTotal();
  }

  lemma WideBefore(x: char, m: nat, y: char, n: nat)
    requires x < y && m > 0 && n > 0
    ensures KeyLe(Wide(x, m), Wide(y, n)) && Wide(x, m) != Wide(y, n)
  {
    var s, t := seq(m, _ => x), seq(n, _ => y);
    assert s[0] == x && t[0] == y;
    assert FieldLe(Str(s), Str(t)) && Str(s) != Str(t);
  }

  /** Keys of 1, 2500 and 2500 bytes: the leaf splits, and its upper half loses an entry. */
  lemma LossySplit(c: Format, r: Rid)
    requires OnPage(c)
    ensures var es := [Entry(Wide('a', 1), r), Entry(Wide('b', 2500), r)];
      && Sorted(c, es) && LeafBytes(c, es) <= c.room
      && var g := GrowLeaf(c, 1, es, Entry(Wide('c', 2500), r), 2);
      g.Split? && Refilled(c, g.right.entries) != g.right.entries
  {
    hide GrowLeaf, LeafBytes, Sorted, Refilled, KeyLe, Wide;
    var x, y, e := Entry(Wide('a', 1), r), Entry(Wide('b', 2500), r), Entry(Wide('c', 2500), r);
    WideBefore('a', 1, 'b', 2500);
    WideBefore('a', 1, 'c', 2500);
    WideBefore('b', 2500, 'c', 2500);
    UpperOverflows(c, x, y, e);
  }

  lemma PlacedBody(c: Format, p: Page, es: seq<Entry>, e: Entry)
    requires LeafBody(p, es + [e])
    ensures LeafBody(p, Place(c, es, e))
    ensures LeafBytes(c, Place(c, es, e)) == LeafBytes(c, es) + c.leafSize(e)
  {
    var all := Place(c, es, e);
    assert multiset(es + [e]) == multiset(all);
    LeafBytesSum(c, es);
    LeafBytesSum(c, all);
    SumPermuted(c.leafSize, all, es + [e]);
    SumCat(c.leafSize, es, [e]);
    assert [e][1..] == [];
  }

  lemma HalvesSorted(c: Format, all: seq<Entry>, mid: nat)
    requires Sorted(c, all) && mid <= |all|
    ensures Sorted(c, all[..mid]) && Sorted(c, all[mid..])
  {
  }

  // ------------------------------------------------------------------ inner nodes

  ghost predicate InnerHolds(c: Format, p: Page, raw: seq<Pair>, ks: Kids) {
    InnerIs(p, raw) && SortPairs(c, raw) == Pairs(None, ks)
  }

  ghost predicate InnerPage(c: Format, p: Page, ks: Kids) {
    && SepsSorted(c, None, ks)
    && InnerBytes(c, None, ks) <= c.room
    && exists raw :: InnerHolds(c, p, raw, ks)
  }

  lemma InnerPageUsed(c: Format, p: Page, raw: seq<Pair>, ks: Kids)
    requires InnerHolds(c, p, raw, ks)
    ensures Used(c, p) == InnerBytes(c, None, ks)
  {
    InnerUsed(c, p, raw);
    SumPermuted(PairSizes(c), raw, SortPairs(c, raw));
    PairsBytes(c, None, ks);
  }

  lemma SortAppended(c: Format, raw: seq<Pair>, x: Pair)
    ensures SortPairs(c, raw + [x]) == PlacePair(c, SortPairs(c, raw), x)
  {
    assert (raw + [x])[..|raw|] == raw;
  }

  lemma AddSepBytes(c: Format, ks: Kids, s: Key, x: Tree)
    ensures InnerBytes(c, None, AddSep(c, ks, s, x)) == InnerBytes(c, None, ks) + c.sepSize(Some(s), x.id)
  {
    var f := PairSizes(c);
    PlaceIsAddSep(c, None, ks, s, x);
    PairsBytes(c, None, ks);
    PairsBytes(c, None, AddSep(c, ks, s, x));
    var ps, y := Pairs(None, ks), (Some(s), x.id);
    assert multiset(PlacePair(c, ps, y)) == multiset([y] + ps);
    SumPermuted(f, PlacePair(c, ps, y), [y] + ps);
    assert ([y] + ps)[1..] == ps;
  }

  lemma PairsSized(c: Format, ps: seq<Pair>, m: nat, b: nat)
    requires RoomyBy(c, m, b)
    ensures Sized(PairSizes(c), ps, m, b)
  {
    forall i | 0 <= i < |ps| ensures m <= PairSizes(c)(ps[i]) <= b {
      var (k, p) := ps[i];
      assert m <= c.sepSize(k, p) <= b;
    }
  }

  lemma PairHalvesFit(c: Format, ps: seq<Pair>, x: Pair)
    requires Roomy(c) && SumBy(PairSizes(c), ps) <= c.room + PairSize(c, x)
    ensures SumBy(PairSizes(c), ps[..|ps| / 2]) <= c.room && SumBy(PairSizes(c), ps[|ps| / 2..]) <= c.room
  {
    var m: nat, b: nat :| RoomyBy(c, m, b);
    PairsSized(c, ps, m, b);
    assert PairSize(c, x) <= b by {
      PairsSized(c, [x], m, b);
      assert PairSizes(c)([x][0]) <= b;
    }
    HalvesFit(PairSizes(c), ps, m, b, c.room);
  }

  /** Dropping the first key of the upper half does not make it larger. */
  lemma UpperFits(c: Format, all: Kids, n: nat)
    requires Roomy(c) && 1 <= n < Count(all)
    ensures InnerBytes(c, None, Cut(all, n).2) <= SumBy(PairSizes(c), Pairs(None, all)[n..])
  {
    var (l, sep, r) := Cut(all, n);
    var ps, f := Pairs(None, all), PairSizes(c);
    CutPairs(c, None, all, n);
    PairsBytes(c, None, r);
    var m: nat, b: nat :| RoomyBy(c, m, b);
    assert ps[n..][1..] == ps[n + 1..];
    assert SumBy(f, ps[n..]) == f(ps[n]) + SumBy(f, ps[n + 1..]);
    assert f(ps[n]) == c.sepSize(Some(sep), r.kid.id);
    assert f(Pairs(None, r)[0]) == c.sepSize(None, r.kid.id);
  }

  /** Both halves of a split inner node fit, the upper one with its first key taken out. */
  lemma InnerSplitFits(c: Format, ks: Kids, s: Key, x: Tree)
    requires Roomy(c) && InnerBytes(c, None, ks) <= c.room
    ensures var all := AddSep(c, ks, s, x); var (l, _, r) := Cut(all, Count(all) / 2);
      InnerBytes(c, None, l) <= c.room && InnerBytes(c, None, r) <= c.room
  {
    var all := AddSep(c, ks, s, x);
    var n := Count(all) / 2;
    AddSepBytes(c, ks, s, x);
    PairsBytes(c, None, all);
    PairHalvesFit(c, Pairs(None, all), (Some(s), x.id));
    CutPairs(c, None, all, n);
    PairsBytes(c, None, Cut(all, n).0);
    UpperFits(c, all, n);
  }

  /** The entries of a list that fit an empty inner page. */
  ghost function InnerRefilled(c: Format, ps: seq<Pair>): (r: seq<Pair>) {
    Kept(PairSizes(c), c.room, 0, ps)
  }

  /** Refilling an inner page loses no child if and only if its entries fit. */
  lemma InnerRefilledIff(c: Format, ks: Kids)
    ensures InnerRefilled(c, Pairs(None, ks)) == Pairs(None, ks) <==> InnerBytes(c, None, ks) <= c.room
  {
    PairsBytes(c, None, ks);
    KeptAllIff(PairSizes(c), c.room, 0, Pairs(None, ks));
  }

  /** An inner page rebuilt from whatever of its entries fits. */
  method RebuildInner(c: Format, p: Page, ps: seq<Pair>) returns (q: Page)
    requires forall i | 0 <= i < |p| :: p[i] == None
    ensures InnerIs(q, InnerRefilled(c, ps))
  {
    Emptied(c, p, Meta(false, None, None));
    q := AddValue(c, p, Meta(false, None, None)).value;
    assert InnerIs(q, []);
    assert [] + InnerRefilled(c, ps) == InnerRefilled(c, ps);
    q := FillInner(c, q, ps, []);
  }

  lemma Rebuilt(c: Format, q: Page, ks: Kids)
    requires c.Valid() && SepsSorted(c, None, ks) && InnerBytes(c, None, ks) <= c.room
    requires InnerIs(q, InnerRefilled(c, Pairs(None, ks)))
    ensures InnerPage(c, q, ks)
  {
    InnerRefilledIff(c, ks);
    SepsSortedPairs(c, None, ks);
    SortSorted(c, Pairs(None, ks));
    assert InnerHolds(c, q, Pairs(None, ks), ks);
  }

  lemma AppendedHolds(c: Format, p: Page, raw: seq<Pair>, ks: Kids, s: Key, x: Tree)
    requires InnerHolds(c, p, raw, ks) && Fits(c, p, InnerEntry(Some(s), x.id))
    ensures InnerHolds(c, AddValue(c, p, InnerEntry(Some(s), x.id)).value, raw + [(Some(s), x.id)], AddSep(c, ks, s, x))
  {
    AddedInner(c, p, raw, (Some(s), x.id));
    SortAppended(c, raw, (Some(s), x.id));
    PlaceIsAddSep(c, None, ks, s, x);
  }

  lemma InnerAppended(c: Format, p: Page, raw: seq<Pair>, ks: Kids, s: Key, x: Tree)
    requires c.Valid() && SepsSorted(c, None, ks) && InnerHolds(c, p, raw, ks)
    requires Fits(c, p, InnerEntry(Some(s), x.id))
    ensures InnerPage(c, AddValue(c, p, InnerEntry(Some(s), x.id)).value, AddSep(c, ks, s, x))
  {
    InnerPageUsed(c, p, raw, ks);
    AddSepSorted(c, None, ks, s, x);
    AddSepBytes(c, ks, s, x);
    AppendedHolds(c, p, raw, ks, s, x);
  }

  /** Sorting the drained entries together with the new one gives the entries of the grown node. */
  lemma Resorted(c: Format, raw: seq<Pair>, ks: Kids, s: Key, x: Tree)
    requires c.Valid() && SepsSorted(c, None, ks) && SortPairs(c, raw) == Pairs(None, ks)
    ensures SortPairs(c, SortPairs(c, raw) + [(Some(s), x.id)]) == Pairs(None, AddSep(c, ks, s, x))
  {
    SepsSortedPairs(c, None, ks);
    SortSorted(c, Pairs(None, ks));
    SortAppended(c, Pairs(None, ks), (Some(s), x.id));
    PlaceIsAddSep(c, None, ks, s, x);
  }

  /** Drain a full inner page together with a new entry into two pages. What does not fit its half is lost. */
  method SplitInnerPage(c: Format, p: Page, s: Key, child: PageId, ghost ks: Kids, ghost x: Tree)
    returns (left: Page, sep: Key, right: Page)
    requires c.Valid() && InnerPage(c, p, ks) && child == x.id
    ensures var all := AddSep(c, ks, s, x); var (l, mid, r) := Cut(all, Count(all) / 2);
      && sep == mid && SepsSorted(c, None, l) && SepsSorted(c, None, r)
      && InnerIs(left, InnerRefilled(c, Pairs(None, l))) && InnerIs(right, InnerRefilled(c, Pairs(None, r)))
  {
    ghost var raw :| InnerHolds(c, p, raw, ks);
    ghost var all := AddSep(c, ks, s, x);
    var was := CollectInner(p, raw);
    var free := Drain(p);
    var sorted := SortPairs(c, was);
    var entries := SortPairs(c, sorted + [(Some(s), child)]);
    Resorted(c, raw, ks, s, x);
    AddSepSorted(c, None, ks, s, x);
    var mid := |entries| / 2;
    CutPairs(c, None, all, mid);
    CutSorted(c, None, all, mid);
    ghost var (l, _, r) := Cut(all, mid);
    var upper := [(None, entries[mid].1)] + entries[mid + 1..];
    assert upper == Pairs(None, r);
    right := RebuildInner(c, [], upper);
    left := RebuildInner(c, free, entries[..mid]);
    sep := entries[mid].0.value;
  }

  /**
   * Add separator `s` with child page `child` to the inner page `p`; a full page is drained and the
   * upper half of its children goes to a fresh page, headed by an entry without a key. A child that does not
   * fit its half is lost.
   */
  method GrowInnerPage(c: Format, p: Page, s: Key, child: PageId, ghost ks: Kids, ghost x: Tree)
    returns (left: Page, split: Option<(Key, Page)>)
    requires c.Valid() && InnerPage(c, p, ks) && child == x.id
    ensures split.None? <==> InnerBytes(c, None, ks) + c.sepSize(Some(s), x.id) <= c.room
    ensures split.None? ==> InnerPage(c, left, AddSep(c, ks, s, x))
    ensures split.Some? ==>
      var all := AddSep(c, ks, s, x); var (l, sep, r) := Cut(all, Count(all) / 2);
      && split.value.0 == sep && SepsSorted(c, None, l) && SepsSorted(c, None, r)
      && InnerIs(left, InnerRefilled(c, Pairs(None, l))) && InnerIs(split.value.1, InnerRefilled(c, Pairs(None, r)))
  {
    ghost var raw :| InnerHolds(c, p, raw, ks);
    InnerPageUsed(c, p, raw, ks);
    var added := AddValue(c, p, InnerEntry(Some(s), child));
    if added.Some? {
      InnerAppended(c, p, raw, ks, s, x);
      left, split := added.value, None;
    } else {
      var sep, right;
      left, sep, right := SplitInnerPage(c, p, s, child, ks, x);
      split := Some((sep, right));
    }
  }

  /** A node of four children. */
  function Four(keys: seq<Key>): (ks: Kids)
    requires |keys| == 3
  {
    More(Leaf(1, []), keys[0], More(Leaf(2, []), keys[1], More(Leaf(3, []), keys[2], Last(Leaf(4, [])))))
  }

  /** The upper half of its split, when a fifth child comes last. */
  lemma FourGrown(c: Format, keys: seq<Key>, s: Key, x: Tree)
    requires |keys| == 3 && c.le(keys[0], s) && c.le(keys[1], s) && c.le(keys[2], s)
    ensures var all := AddSep(c, Four(keys), s, x);
      Count(all) == 5 && Cut(all, 2).2 == More(Leaf(3, []), keys[2], More(Leaf(4, []), s, Last(x)))
  {
    var last := More(Leaf(3, []), keys[2], Last(Leaf(4, [])));
    var grown := More(Leaf(3, []), keys[2], More(Leaf(4, []), s, Last(x)));
    assert AddSep(c, last, s, x) == grown;
    assert AddSep(c, More(Leaf(2, []), keys[1], last), s, x) == More(Leaf(2, []), keys[1], grown);
    assert Cut(More(Leaf(2, []), keys[1], grown), 1).2 == grown;
  }

  /** Separators of 1, 1, 2500 and 2500 bytes: the inner page splits, and its upper half loses a child. */
  lemma LossyInnerSplit(c: Format)
    requires OnPage(c)
    ensures var ks := Four([Wide('a', 1), Wide('b', 1), Wide('c', 2500)]);
      && SepsSorted(c, None, ks) && InnerBytes(c, None, ks) <= c.room
      && var g := GrowInner(c, 6, ks, Wide('d', 2500), Leaf(5, []), 7);
      g.Split? && InnerRefilled(c, Pairs(None, g.right.kids)) != Pairs(None, g.right.kids)
  {
    hide InnerRefilled, KeyLe, Wide;
    var keys, s := [Wide('a', 1), Wide('b', 1), Wide('c', 2500)], Wide('d', 2500);
    WideBefore('a', 1, 'b', 1);
    WideBefore('b', 1, 'c', 2500);
    WideBefore('a', 1, 'd', 2500);
    WideBefore('b', 1, 'd', 2500);
    WideBefore('c', 2500, 'd', 2500);
    FourGrown(c, keys, s, Leaf(5, []));
    var upper := More(Leaf(3, []), keys[2], More(Leaf(4, []), s, Last(Leaf(5, []))));
    assert InnerBytes(c, None, upper) >= c.sepSize(Some(keys[2]), 4) + c.sepSize(Some(s), 5);
    InnerRefilledIff(c, upper);
  }

  /** A page has room for two entries. */
  lemma TwoFit(m: nat, b: nat, room: nat)
    requires Ample(m, b, room)
    ensures 2 * b <= room
  {
    if room - b < b {
      MulStrict(room - b, b, b);
      MulMono(m, b, room - b);
    }
  }

  lemma RootRoomy(c: Format, l: Tree, sep: Key, r: Tree)
    requires Roomy(c)
    ensures InnerBytes(c, None, More(l, sep, Last(r))) <= c.room
  {
    var m: nat, b: nat :| RoomyBy(c, m, b);
    TwoFit(m, b, c.room);
    assert c.sepSize(None, l.id) <= b && c.sepSize(Some(sep), r.id) <= b;
  }

  /** A new root over the two halves of the old one, if both entries fit. */
  method NewRoot(c: Format, left: PageId, sep: Key, right: PageId, ghost l: Tree, ghost r: Tree) returns (page: Page)
    requires c.Valid() && left == l.id && right == r.id
    ensures InnerIs(page, InnerRefilled(c, Pairs(None, More(l, sep, Last(r)))))
    ensures InnerBytes(c, None, More(l, sep, Last(r))) <= c.room ==> InnerPage(c, page, More(l, sep, Last(r)))
  {
    assert Pairs(Some(sep), Last(r)) == [(Some(sep), right)];
    assert Pairs(None, More(l, sep, Last(r))) == [(None, left), (Some(sep), right)];
    page := RebuildInner(c, [], [(None, left), (Some(sep), right)]);
    if InnerBytes(c, None, More(l, sep, Last(r))) <= c.room {
      Rebuilt(c, page, More(l, sep, Last(r)));
    }
  }
}
