/** Reading, draining and refilling one index page. */
module PageOps {
  import opened Base
  import opened TreeModel
  import opened NodePages

  // ------------------------------------------------------------------ what a page holds

  predicate IsMeta(s: Option<NodeEntry>) {
    s.Some? && s.value.Meta?
  }

  /** Besides Meta entries, the page holds exactly the leaf entries `es`, in any slots. */
  ghost predicate LeafBody(p: Page, es: seq<Entry>) {
    forall x: Option<NodeEntry> | x.Some? && !x.value.Meta? ::
      multiset(p)[x] == if x.value.LeafEntry? then multiset(es)[x.value.entry] else 0
  }

  /** The page holds one Meta entry: a leaf with these siblings. */
  ghost predicate Linked(p: Page, left: Option<PageId>, right: Option<PageId>) {
    forall x: Option<NodeEntry> | IsMeta(x) :: multiset(p)[x] == if x.value == Meta(true, left, right) then 1 else 0
  }

  /** An inner page: Meta first, then the entries in the order they were added, then free slots. */
  ghost predicate InnerIs(p: Page, raw: seq<Pair>) {
    && |p| > |raw|
    && p[0] == Some(Meta(false, None, None))
    && (forall j | 1 <= j <= |raw| :: p[j] == Some(InnerEntry(raw[j - 1].0, raw[j - 1].1)))
    && (forall j | |raw| < j < |p| :: p[j] == None)
  }

  lemma PrefixStep(p: Page, i: nat)
    requires i < |p|
    ensures multiset(p[..i + 1]) == multiset(p[..i]) + multiset{p[i]}
    ensures p[..|p|] == p
  {
    assert p[..i + 1] == p[..i] + [p[i]];
  }

  lemma MetaUnique(p: Page, left: Option<PageId>, right: Option<PageId>, i: nat)
    requires Linked(p, left, right) && i < |p| && IsMeta(p[i])
    ensures p[i] == Some(Meta(true, left, right))
  {
    assert p[i] in multiset(p);
  }

  lemma MetaPresent(p: Page, left: Option<PageId>, right: Option<PageId>)
    requires Linked(p, left, right)
    ensures exists i :: 0 <= i < |p| && IsMeta(p[i])
  {
    assert Some(Meta(true, left, right)) in multiset(p);
    var i :| 0 <= i < |p| && p[i] == Some(Meta(true, left, right));
  }

  // ------------------------------------------------------------------ reading

  /** The flag of the first Meta entry; an error when there is none. */
  method ReadIsLeaf(p: Page) returns (r: Option<bool>)
    ensures r.None? <==> forall i | 0 <= i < |p| :: !IsMeta(p[i])
    ensures forall left, right | Linked(p, left, right) :: r == Some(true)
    ensures forall raw | InnerIs(p, raw) :: r == Some(false)
  {
    r := None;
    var i := 0;
    while i < |p|
      invariant 0 <= i <= |p| && r == None
      invariant forall j | 0 <= j < i :: !IsMeta(p[j])
    {
      if IsMeta(p[i]) {
        forall left, right | Linked(p, left, right) ensures p[i].value.isLeaf {
          MetaUnique(p, left, right, i);
        }
        return Some(p[i].value.isLeaf);
      }
      i := i + 1;
    }
    forall left, right | Linked(p, left, right) ensures exists j :: 0 <= j < |p| && IsMeta(p[j]) {
      MetaPresent(p, left, right);
    }
  }

  /** The siblings and the entries of a leaf, the latter in slot order. */
  method CollectLeaf(p: Page, ghost l: Option<PageId>, ghost r: Option<PageId>, ghost es: seq<Entry>)
    returns (left: Option<PageId>, right: Option<PageId>, raw: seq<Entry>)
    requires Linked(p, l, r) && LeafBody(p, es)
    ensures left == l && right == r && multiset(raw) == multiset(es)
  {
    left, right, raw := None, None, [];
    var i := 0;
    while i < |p|
      invariant 0 <= i <= |p|
      invariant Some(Meta(true, l, r)) in multiset(p[..i]) ==> left == l && right == r
      invariant forall e :: multiset(raw)[e] == multiset(p[..i])[Some(LeafEntry(e))]
    {
      PrefixStep(p, i);
      if IsMeta(p[i]) {
        MetaUnique(p, l, r, i);
        left, right := p[i].value.left, p[i].value.right;
      } else if p[i].Some? && p[i].value.LeafEntry? {
        raw := raw + [p[i].value.entry];
      }
      i := i + 1;
    }
    assert p[..i] == p;
    forall e ensures multiset(raw)[e] == multiset(es)[e] {
      assert multiset(p)[Some(LeafEntry(e))] == multiset(es)[e];
    }
  }

  /** The siblings and the sorted entries of a leaf. */
  method ReadLeaf(c: Format, p: Page, ghost l: Option<PageId>, ghost r: Option<PageId>, ghost es: seq<Entry>)
    returns (left: Option<PageId>, right: Option<PageId>, entries: seq<Entry>)
    requires c.Valid() && Linked(p, l, r) && LeafBody(p, es) && Sorted(c, es)
    ensures left == l && right == r && entries == es
  {
    var raw;
    left, right, raw := CollectLeaf(p, l, r, es);
    entries := SortEntries(c, raw);
    SortEntriesSorted(c, raw);
    SortedUnique(c, entries, es);
  }

  /** The entries of an inner page, in slot order. */
  method CollectInner(p: Page, ghost was: seq<Pair>) returns (raw: seq<Pair>)
    requires InnerIs(p, was)
    ensures raw == was
  {
    raw := [];
    var i := 0;
    while i < |p|
      invariant 0 <= i <= |p|
      invariant raw == if i == 0 then [] else was[..if i - 1 < |was| then i - 1 else |was|]
    {
      if p[i].Some? && p[i].value.InnerEntry? {
        raw := raw + [(p[i].value.key, p[i].value.child)];
      }
      i := i + 1;
    }
  }

  method ReadInner(c: Format, p: Page, ghost was: seq<Pair>) returns (entries: seq<Pair>)
    requires InnerIs(p, was)
    ensures entries == SortPairs(c, was)
  {
    var raw := CollectInner(p, was);
    entries := SortPairs(c, raw);
  }

  /** The slot of the first copy of `e`. */
  method FindEntry(p: Page, e: Entry) returns (slot: Option<nat>)
    ensures slot.Some? ==> slot.value < |p| && p[slot.value] == Some(LeafEntry(e))
    ensures slot.Some? <==> Some(LeafEntry(e)) in multiset(p)
  {
    slot := None;
    var i := 0;
    while i < |p|
      invariant 0 <= i <= |p| && slot == None
      invariant Some(LeafEntry(e)) !in multiset(p[..i])
    {
      PrefixStep(p, i);
      if p[i] == Some(LeafEntry(e)) {
        assert p[i] in multiset(p);
        return Some(i);
      }
      i := i + 1;
    }
    assert p[..i] == p;
  }

  // ------------------------------------------------------------------ writing

  /** Every slot freed, one by one. */
  method Drain(p: Page) returns (q: Page)
    ensures |q| == |p| && forall i | 0 <= i < |q| :: q[i] == None
  {
    q := p;
    var i := 0;
    while i < |p|
      invariant 0 <= i <= |p| == |q|
      invariant forall j | 0 <= j < i :: q[j] == None
    {
      q := q[i := None];
      i := i + 1;
    }
  }

  /** Point the leaf at a new left sibling, in place of its Meta entry. */
  method SetLeft(p: Page, newLeft: Option<PageId>, ghost l: Option<PageId>, ghost r: Option<PageId>) returns (q: Page)
    requires Linked(p, l, r)
    ensures Linked(q, newLeft, r)
    ensures forall es | LeafBody(p, es) :: LeafBody(q, es)
  {
    q := p;
    var i := 0;
    while i < |p| && !IsMeta(p[i])
      invariant 0 <= i <= |p|
      invariant forall j | 0 <= j < i :: !IsMeta(p[j])
    {
      i := i + 1;
    }
    MetaPresent(p, l, r);
    MetaUnique(p, l, r, i);
    var m := Some(Meta(p[i].value.isLeaf, newLeft, p[i].value.right));
    q := p[i := m];
    Relinked(p, i, l, r, newLeft);
  }

  lemma Relinked(p: Page, i: nat, l: Option<PageId>, r: Option<PageId>, newLeft: Option<PageId>)
    requires Linked(p, l, r) && i < |p| && p[i] == Some(Meta(true, l, r))
    ensures var q := p[i := Some(Meta(true, newLeft, r))];
      Linked(q, newLeft, r) && forall es | LeafBody(p, es) :: LeafBody(q, es)
  {
    var q := p[i := Some(Meta(true, newLeft, r))];
    assert multiset(q) == multiset(p) - multiset{p[i]} + multiset{q[i]};
    forall es | LeafBody(p, es) ensures LeafBody(q, es) {
      forall x: Option<NodeEntry> | x.Some? && !x.value.Meta? ensures multiset(q)[x] == multiset(p)[x] {
      }
    }
  }

  // ------------------------------------------------------------------ bytes in use

  ghost function LeafOf(p: Page): (es: seq<Entry>) {
    if p == [] then []
    else (if p[0].Some? && p[0].value.LeafEntry? then [p[0].value.entry] else []) + LeafOf(p[1..])
  }

  lemma {:induction false} LeafOfCount(p: Page, e: Entry)
    ensures multiset(LeafOf(p))[e] == multiset(p)[Some(LeafEntry(e))]
  {
    if p == [] {
    } else {
      LeafOfCount(p[1..], e);
      assert p == [p[0]] + p[1..];
    }
  }

  lemma {:induction false} LeafOfUsed(c: Format, p: Page)
    requires forall i | 0 <= i < |p| :: p[i].None? || !p[i].value.InnerEntry?
    ensures Used(c, p) == SumBy(c.leafSize, LeafOf(p))
  {
    if p == [] {
    } else {
      LeafOfUsed(c, p[1..]);
      if p[0].Some? && p[0].value.LeafEntry? {
        assert LeafOf(p)[1..] == LeafOf(p[1..]);
      } else {
        assert LeafOf(p) == LeafOf(p[1..]);
      }
    }
  }

  lemma {:induction false} LeafBytesSum(c: Format, es: seq<Entry>)
    ensures LeafBytes(c, es) == SumBy(c.leafSize, es)
  {
    if es == [] {
    } else {
      LeafBytesSum(c, es[1..]);
    }
  }

  /** A leaf page uses what its entries take. */
  lemma LeafUsed(c: Format, p: Page, es: seq<Entry>)
    requires LeafBody(p, es)
    ensures Used(c, p) == LeafBytes(c, es)
  {
    forall i | 0 <= i < |p| ensures p[i].None? || !p[i].value.InnerEntry? {
      assert p[i] in multiset(p);
    }
    LeafOfUsed(c, p);
    LeafBytesSum(c, es);
    forall e ensures multiset(LeafOf(p))[e] == multiset(es)[e] {
      LeafOfCount(p, e);
      assert multiset(p)[Some(LeafEntry(e))] == multiset(es)[e];
    }
    assert multiset(LeafOf(p)) == multiset(es);
    SumPermuted(c.leafSize, LeafOf(p), es);
  }

  lemma {:induction false} FreeUsed(c: Format, p: Page)
    requires forall i | 0 <= i < |p| :: p[i] == None
    ensures Used(c, p) == 0
  {
    if p == [] {
    } else {
      FreeUsed(c, p[1..]);
    }
  }

  lemma {:induction false} InnerUsedFrom(c: Format, p: Page, raw: seq<Pair>)
    requires |p| >= |raw|
    requires forall j | 0 <= j < |raw| :: p[j] == Some(InnerEntry(raw[j].0, raw[j].1))
    requires forall j | |raw| <= j < |p| :: p[j] == None
    ensures Used(c, p) == SumBy(PairSizes(c), raw)
  {
    if raw == [] {
      FreeUsed(c, p);
    } else {
      InnerUsedFrom(c, p[1..], raw[1..]);
    }
  }

  /** An inner page uses what its entries take. */
  lemma InnerUsed(c: Format, p: Page, raw: seq<Pair>)
    requires InnerIs(p, raw)
    ensures Used(c, p) == SumBy(PairSizes(c), raw)
  {
    InnerUsedFrom(c, p[1..], raw);
  }

  // ------------------------------------------------------------------ filling

  lemma AddedLeaf(c: Format, p: Page, es: seq<Entry>, e: Entry)
    requires LeafBody(p, es) && Fits(c, p, LeafEntry(e))
    ensures var q := AddValue(c, p, LeafEntry(e)).value;
      && LeafBody(q, es + [e])
      && Used(c, q) == Used(c, p) + c.leafSize(e)
      && forall l, r | Linked(p, l, r) :: Linked(q, l, r)
  {
    AddedValue(c, p, LeafEntry(e));
    var q := AddValue(c, p, LeafEntry(e)).value;
    forall l, r | Linked(p, l, r) ensures Linked(q, l, r) {
      forall x | IsMeta(x) ensures multiset(q)[x] == multiset(p)[x] {
      }
    }
  }

  lemma AddedInner(c: Format, p: Page, raw: seq<Pair>, x: Pair)
    requires InnerIs(p, raw) && Fits(c, p, InnerEntry(x.0, x.1))
    ensures InnerIs(AddValue(c, p, InnerEntry(x.0, x.1)).value, raw + [x])
    ensures Used(c, AddValue(c, p, InnerEntry(x.0, x.1)).value) == Used(c, p) + PairSize(c, x)
  {
    AddedValue(c, p, InnerEntry(x.0, x.1));
    assert forall j | 0 <= j <= |raw| :: p[j].Some?;
    assert |raw| + 1 < |p| ==> p[|raw| + 1] == None;
  }

  /** What fits of `xs`, added in order to a page with `used` bytes taken. */
  function Kept<T>(size: T -> nat, room: nat, used: nat, xs: seq<T>): (r: seq<T>)
    decreases |xs|
  {
    if xs == [] then []
    else if used + size(xs[0]) <= room then [xs[0]] + Kept(size, room, used + size(xs[0]), xs[1..])
    else Kept(size, room, used, xs[1..])
  }

  /** What is kept comes from the list, in its order, and fits. */
  lemma {:induction false} KeptFewer<T>(size: T -> nat, room: nat, used: nat, xs: seq<T>)
    requires used <= room
    ensures var r := Kept(size, room, used, xs); |r| <= |xs| && used + SumBy(size, r) <= room && forall x | x in r :: x in xs
    decreases |xs|
  {
    if xs == [] {
    } else if used + size(xs[0]) <= room {
      KeptFewer(size, room, used + size(xs[0]), xs[1..]);
      var rest := Kept(size, room, used + size(xs[0]), xs[1..]);
      assert ([xs[0]] + rest)[1..] == rest;
    } else {
      KeptFewer(size, room, used, xs[1..]);
    }
  }

  /** Refilling a page, which ignores refusals, loses nothing exactly when everything fits. */
  lemma {:induction false} KeptAllIff<T>(size: T -> nat, room: nat, used: nat, xs: seq<T>)
    requires used <= room
    ensures Kept(size, room, used, xs) == xs <==> used + SumBy(size, xs) <= room
    decreases |xs|
  {
    if xs == [] {
    } else if used + size(xs[0]) <= room {
      KeptAllIff(size, room, used + size(xs[0]), xs[1..]);
      assert xs == [xs[0]] + xs[1..];
    } else {
      KeptFewer(size, room, used, xs[1..]);
    }
  }

  /** Add leaf entries one by one, ignoring refusals. */
  method FillLeaf(c: Format, p: Page, es: seq<Entry>, ghost have: seq<Entry>) returns (q: Page)
    requires LeafBody(p, have)
    ensures LeafBody(q, have + Kept(c.leafSize, c.room, Used(c, p), es))
    ensures forall l, r | Linked(p, l, r) :: Linked(q, l, r)
  {
    q := p;
    ghost var now := have;
    var i := 0;
    while i < |es|
      invariant 0 <= i <= |es|
      invariant LeafBody(q, now)
      invariant forall l, r | Linked(p, l, r) :: Linked(q, l, r)
      invariant now + Kept(c.leafSize, c.room, Used(c, q), es[i..]) == have + Kept(c.leafSize, c.room, Used(c, p), es)
    {
      var added := AddValue(c, q, LeafEntry(es[i]));
      assert es[i..][1..] == es[i + 1..];
      if added.Some? {
        AddedLeaf(c, q, now, es[i]);
        assert (now + [es[i]]) + Kept(c.leafSize, c.room, Used(c, added.value), es[i + 1..])
          == now + Kept(c.leafSize, c.room, Used(c, q), es[i..]);
        q, now := added.value, now + [es[i]];
      }
      i := i + 1;
    }
    assert now == have + Kept(c.leafSize, c.room, Used(c, p), es);
  }

  /** Add inner entries one by one, ignoring refusals; nothing is refused when everything fits. */
  method FillInner(c: Format, p: Page, ps: seq<Pair>, ghost raw: seq<Pair>) returns (q: Page)
    requires InnerIs(p, raw)
    ensures InnerIs(q, raw + Kept(PairSizes(c), c.room, Used(c, p), ps))
  {
    q := p;
    ghost var now := raw;
    var i := 0;
    while i < |ps|
      invariant 0 <= i <= |ps|
      invariant InnerIs(q, now)
      invariant now + Kept(PairSizes(c), c.room, Used(c, q), ps[i..]) == raw + Kept(PairSizes(c), c.room, Used(c, p), ps)
    {
      var added := AddValue(c, q, InnerEntry(ps[i].0, ps[i].1));
      assert ps[i..][1..] == ps[i + 1..];
      if added.Some? {
        AddedInner(c, q, now, ps[i]);
        assert (now + [ps[i]]) + Kept(PairSizes(c), c.room, Used(c, added.value), ps[i + 1..])
          == now + Kept(PairSizes(c), c.room, Used(c, q), ps[i..]);
        q, now := added.value, now + [ps[i]];
      }
      i := i + 1;
    }
    assert now == raw + Kept(PairSizes(c), c.room, Used(c, p), ps);
  }
}
