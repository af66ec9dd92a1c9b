/** Searching along the leaf chain. */
module TreeSearch {
  import opened Base
  import opened TreeModel
  import opened TreeOrder
  import opened TreeChain

  /** The entries of every leaf, in chain order. */
  type Rows = seq<seq<Entry>>

  predicate LastIs(es: seq<Entry>, k: Key) {
    es != [] && es[|es| - 1].key == k
  }

  function Hits(es: seq<Entry>, k: Key): (rids: seq<Rid>) {
    if es == [] then [] else (if es[0].key == k then [es[0].rid] else []) + Hits(es[1..], k)
  }

  /** The leftmost leaf of the run that reaches leaf `i`. */
  function WalkLeft(rows: Rows, i: nat, k: Key): (j: nat)
    requires i < |rows|
    ensures j <= i
    ensures forall m | j <= m < i :: LastIs(rows[m], k)
    ensures j == 0 || !LastIs(rows[j - 1], k)
  {
    if i > 0 && LastIs(rows[i - 1], k) then WalkLeft(rows, i - 1, k) else i
  }

  /** The matches from leaf `i` on, as far as leaves end in `k`. */
  function ScanRight(rows: Rows, i: nat, k: Key): (rids: seq<Rid>)
    requires i < |rows|
    decreases |rows| - i
  {
    Hits(rows[i], k) + if LastIs(rows[i], k) && i + 1 < |rows| then ScanRight(rows, i + 1, k) else []
  }

  function SearchRows(rows: Rows, land: nat, k: Key): (rids: seq<Rid>)
    requires land < |rows|
  {
    ScanRight(rows, WalkLeft(rows, land, k), k)
  }

  /** Every match of `k` in leaves `i` and later. */
  ghost function Matches(rows: Rows, i: nat, k: Key): (rids: seq<Rid>)
    requires i <= |rows|
    decreases |rows| - i
  {
    if i == |rows| then [] else Hits(rows[i], k) + Matches(rows, i + 1, k)
  }

  ghost predicate Holds(es: seq<Entry>, k: Key) {
    exists e :: e in es && e.key == k
  }

  /** No empty leaf lies between a leaf that holds `k` and the leaf a search for `k` lands on. */
  ghost predicate NoGap(rows: Rows, land: nat, k: Key) {
    forall i, e | 0 <= i < e < land && e < |rows| && rows[e] == [] :: !Holds(rows[i], k)
  }

  /** What the search order promises about the leaf a search for `k` lands on. */
  ghost predicate Lands(c: Format, rows: Rows, land: nat, k: Key) {
    && land < |rows|
    && (forall i, x | 0 <= i < land && x in rows[i] :: c.le(x.key, k))
    && (forall i, x | land < i < |rows| && x in rows[i] :: c.Lt(k, x.key))
    && (forall i, j, x, y | 0 <= i < j < |rows| && x in rows[i] && y in rows[j] :: c.le(x.key, y.key))
    && (forall i | 0 <= i < |rows| :: Sorted(c, rows[i]))
  }

  // ------------------------------------------------------------------ the search finds everything

  lemma {:induction false} HitsIff(es: seq<Entry>, k: Key)
    ensures Hits(es, k) == [] <==> !Holds(es, k)
  {
    if es == [] {
    } else {
      HitsIff(es[1..], k);
      assert forall e :: e in es <==> e == es[0] || e in es[1..];
      assert es[0] in es;
    }
  }

  lemma {:induction false} NoMatches(rows: Rows, i: nat, n: nat, k: Key)
    requires i <= n <= |rows|
    requires forall m | i <= m < n :: !Holds(rows[m], k)
    ensures Matches(rows, i, k) == Matches(rows, n, k)
    decreases n - i
  {
    if i < n {
      NoMatches(rows, i + 1, n, k);
      HitsIff(rows[i], k);
    }
  }

  lemma {:induction false} SomeMatch(rows: Rows, i: nat, m: nat, n: nat, k: Key)
    requires i <= m < n <= |rows| && Holds(rows[m], k)
    ensures |Matches(rows, i, k)| > |Matches(rows, n, k)|
    decreases m - i
  {
    if i < m {
      SomeMatch(rows, i + 1, m, n, k);
    } else {
      HitsIff(rows[i], k);
      FewerLater(rows, i + 1, n, k);
    }
  }

  lemma {:induction false} FewerLater(rows: Rows, i: nat, n: nat, k: Key)
    requires i <= n <= |rows|
    ensures |Matches(rows, i, k)| >= |Matches(rows, n, k)|
    decreases n - i
  {
    if i < n {
      FewerLater(rows, i + 1, n, k);
    }
  }

  lemma PastLanding(c: Format, rows: Rows, land: nat, i: nat, k: Key)
    requires c.Valid() && Lands(c, rows, land, k) && land < i < |rows|
    ensures !Holds(rows[i], k) && !LastIs(rows[i], k)
  {
  }

  /** Scanning on from the last leaf that can hold `k` finds no more. */
  lemma ScanEnds(rows: Rows, land: nat, k: Key)
    requires land < |rows| && forall i | land < i < |rows| :: !Holds(rows[i], k)
    ensures ScanRight(rows, land, k) == Hits(rows[land], k) == Matches(rows, land, k)
  {
    NoMatches(rows, land + 1, |rows|, k);
    if land + 1 < |rows| {
      var es := rows[land + 1];
      HitsIff(es, k);
      assert es != [] ==> es[|es| - 1] in es;
    }
  }

  lemma {:induction false} ScanFinds(c: Format, rows: Rows, land: nat, j: nat, k: Key)
    requires c.Valid() && Lands(c, rows, land, k) && j <= land
    requires forall m | j <= m < land :: LastIs(rows[m], k)
    ensures ScanRight(rows, j, k) == Matches(rows, j, k)
  {
    forall i | land < i < |rows| ensures !Holds(rows[i], k) {
      PastLanding(c, rows, land, i, k);
    }
    ScanRun(rows, land, j, k);
  }

  lemma {:induction false} ScanRun(rows: Rows, land: nat, j: nat, k: Key)
    requires j <= land < |rows| && forall i | land < i < |rows| :: !Holds(rows[i], k)
    requires forall m | j <= m < land :: LastIs(rows[m], k)
    ensures ScanRight(rows, j, k) == Matches(rows, j, k)
    decreases land - j
  {
    hide Holds, Hits;
    if j < land {
      ScanRun(rows, land, j + 1, k);
    } else {
      ScanEnds(rows, land, k);
    }
  }

  lemma RunStart(c: Format, rows: Rows, land: nat, j: nat, k: Key)
    requires c.Valid() && Lands(c, rows, land, k) && 0 < j <= land
    requires rows[j - 1] != [] && !LastIs(rows[j - 1], k)
    ensures forall i | 0 <= i < j :: !Holds(rows[i], k)
  {
    var es := rows[j - 1];
    var last := es[|es| - 1];
    assert last in es;
    forall i, x: Entry | 0 <= i < j && x in rows[i] ensures x.key != k {
      if i == j - 1 {
        var n :| 0 <= n < |es| && es[n] == x;
        if n < |es| - 1 {
          EntryTotal(c, x, last);
        }
      }
    }
  }

  lemma NothingBefore(c: Format, rows: Rows, land: nat, k: Key)
    requires c.Valid() && Lands(c, rows, land, k) && NoGap(rows, land, k)
    ensures forall i | 0 <= i < WalkLeft(rows, land, k) :: !Holds(rows[i], k)
  {
    var j := WalkLeft(rows, land, k);
    if j > 0 && rows[j - 1] != [] {
      RunStart(c, rows, land, j, k);
    } else if j > 0 {
      GapBefore(rows, land, j - 1, k);
    }
  }

  lemma GapBefore(rows: Rows, land: nat, e: nat, k: Key)
    requires NoGap(rows, land, k) && e < land && e < |rows| && rows[e] == []
    ensures forall i | 0 <= i <= e :: !Holds(rows[i], k)
  {
  }

  /** A search returns every entry of its key exactly when no empty leaf interrupts the run. */
  lemma SearchCompleteIff(c: Format, rows: Rows, land: nat, k: Key)
    requires c.Valid() && Lands(c, rows, land, k)
    ensures SearchRows(rows, land, k) == Matches(rows, 0, k) <==> NoGap(rows, land, k)
  {
    var j := WalkLeft(rows, land, k);
    ScanFinds(c, rows, land, j, k);
    if NoGap(rows, land, k) {
      NothingBefore(c, rows, land, k);
      NoMatches(rows, 0, j, k);
    } else {
      var i, e :| 0 <= i < e < land && e < |rows| && rows[e] == [] && Holds(rows[i], k);
      assert e < j;
      SomeMatch(rows, 0, i, j, k);
    }
  }

  // ------------------------------------------------------------------ the order of a tree's leaves

  ghost function RowsOf(ls: seq<Tree>): (rows: Rows)
    requires forall l | l in ls :: l.Leaf?
    ensures |rows| == |ls|
  {
    seq(|ls|, i requires 0 <= i < |ls| => ls[i].entries)
  }

  ghost predicate Between(c: Format, strict: bool, l: Tree, lo: Option<Key>, hi: Option<Key>) {
    l.Leaf? && Ordered(c, strict, l, lo, hi)
  }

  lemma {:induction false} LeavesBetween(c: Format, strict: bool, t: Tree, lo: Option<Key>, hi: Option<Key>)
    requires c.Valid() && Ordered(c, strict, t, lo, hi)
    ensures forall l | l in Leaves(t) :: Between(c, strict, l, lo, hi)
    decreases t, 1
  {
    if t.Inner? {
      LeavesBetweenKids(c, strict, t.kids, lo, hi);
    }
  }

  lemma {:induction false} LeavesBetweenKids(c: Format, strict: bool, ks: Kids, lo: Option<Key>, hi: Option<Key>)
    requires c.Valid() && OrderedKids(c, strict, ks, lo, hi)
    ensures forall l | l in LeavesKids(ks) :: Between(c, strict, l, lo, hi)
    decreases ks, 0
  {
    if ks.Last? {
      LeavesBetween(c, strict, ks.kid, lo, hi);
    } else {
      LeavesBetween(c, strict, ks.kid, lo, Some(ks.sep));
      LeavesBetweenKids(c, strict, ks.rest, Some(ks.sep), hi);
      forall l | l in LeavesKids(ks) ensures Between(c, strict, l, lo, hi) {
        if l in Leaves(ks.kid) {
          Widen(c, strict, l, lo, Some(ks.sep), lo, hi);
        } else {
          Widen(c, strict, l, Some(ks.sep), hi, lo, hi);
        }
      }
    }
  }

  lemma Widen(c: Format, strict: bool, l: Tree, lo: Option<Key>, hi: Option<Key>, lo': Option<Key>, hi': Option<Key>)
    requires c.Valid() && Between(c, strict, l, lo, hi)
    requires lo' == lo || (lo.Some? && AtLeast(c, lo', lo.value))
    requires hi' == hi || (hi.Some? && Under(c, false, hi.value, hi'))
    ensures Between(c, strict, l, lo', hi')
  {
  }

  ghost predicate AllFrom(c: Format, rows: Rows, lo: Option<Key>) {
    forall i, x | 0 <= i < |rows| && x in rows[i] :: AtLeast(c, lo, x.key)
  }

  ghost predicate AllUnder(c: Format, strict: bool, rows: Rows, hi: Option<Key>) {
    forall i, x | 0 <= i < |rows| && x in rows[i] :: Under(c, strict, x.key, hi)
  }

  ghost predicate InOrder(c: Format, rows: Rows) {
    && (forall i, j, x, y | 0 <= i < j < |rows| && x in rows[i] && y in rows[j] :: c.le(x.key, y.key))
    && (forall i | 0 <= i < |rows| :: Sorted(c, rows[i]))
  }

  lemma Joined(a: seq<Tree>, b: seq<Tree>)
    requires forall l | l in a + b :: l.Leaf?
    ensures (forall l | l in a :: l.Leaf?) && (forall l | l in b :: l.Leaf?)
    ensures RowsOf(a + b) == RowsOf(a) + RowsOf(b)
  {
    assert forall l | l in a :: l in a + b;
    assert forall l | l in b :: l in a + b;
  }

  lemma RowsBetween(c: Format, strict: bool, ls: seq<Tree>, lo: Option<Key>, hi: Option<Key>)
    requires forall l | l in ls :: Between(c, strict, l, lo, hi)
    ensures forall l | l in ls :: l.Leaf?
    ensures AllFrom(c, RowsOf(ls), lo) && AllUnder(c, strict, RowsOf(ls), hi)
  {
    var rows := RowsOf(ls);
    forall i, x: Entry | 0 <= i < |rows| && x in rows[i] ensures AtLeast(c, lo, x.key) && Under(c, strict, x.key, hi) {
      assert ls[i] in ls && Between(c, strict, ls[i], lo, hi);
    }
  }

  lemma OrderJoin(c: Format, a: Rows, b: Rows, sep: Key)
    requires c.Valid() && InOrder(c, a) && InOrder(c, b)
    requires AllUnder(c, false, a, Some(sep)) && AllFrom(c, b, Some(sep))
    ensures InOrder(c, a + b)
  {
    var rows := a + b;
    forall i, j, x: Entry, y: Entry | 0 <= i < j < |rows| && x in rows[i] && y in rows[j] ensures c.le(x.key, y.key) {
      if i < |a| <= j {
        assert x in a[i] && y in b[j - |a|];
        assert Under(c, false, x.key, Some(sep)) && AtLeast(c, Some(sep), y.key);
      } else if |a| <= i {
        assert x in b[i - |a|] && y in b[j - |a|];
      }
    }
  }

  lemma AllLoose(c: Format, strict: bool, rows: Rows, hi: Option<Key>)
    requires c.Valid() && AllUnder(c, strict, rows, hi)
    ensures AllUnder(c, false, rows, hi)
  {
    forall i, x: Entry | 0 <= i < |rows| && x in rows[i] ensures Under(c, false, x.key, hi) {
      assert Under(c, strict, x.key, hi);
    }
  }

  /** The leaves of an ordered tree follow each other in key order. */
  lemma {:induction false} TreeInOrder(c: Format, strict: bool, t: Tree, lo: Option<Key>, hi: Option<Key>)
    requires c.Valid() && Ordered(c, strict, t, lo, hi)
    ensures forall l | l in Leaves(t) :: l.Leaf?
    ensures InOrder(c, RowsOf(Leaves(t)))
    decreases t, 1
  {
    LeavesBetween(c, strict, t, lo, hi);
    if t.Inner? {
      KidsInOrder(c, strict, t.kids, lo, hi);
    }
  }

  lemma {:induction false} KidsInOrder(c: Format, strict: bool, ks: Kids, lo: Option<Key>, hi: Option<Key>)
    requires c.Valid() && OrderedKids(c, strict, ks, lo, hi)
    ensures forall l | l in LeavesKids(ks) :: l.Leaf?
    ensures InOrder(c, RowsOf(LeavesKids(ks)))
    decreases ks, 0
  {
    LeavesBetweenKids(c, strict, ks, lo, hi);
    if ks.Last? {
      TreeInOrder(c, strict, ks.kid, lo, hi);
    } else {
      TreeInOrder(c, strict, ks.kid, lo, Some(ks.sep));
      KidsInOrder(c, strict, ks.rest, Some(ks.sep), hi);
      LeavesBetween(c, strict, ks.kid, lo, Some(ks.sep));
      LeavesBetweenKids(c, strict, ks.rest, Some(ks.sep), hi);
      var a, b := Leaves(ks.kid), LeavesKids(ks.rest);
      RowsBetween(c, strict, a, lo, Some(ks.sep));
      RowsBetween(c, strict, b, Some(ks.sep), hi);
      AllLoose(c, strict, RowsOf(a), Some(ks.sep));
      OrderJoin(c, RowsOf(a), RowsOf(b), ks.sep);
      Joined(a, b);
    }
  }

  /** Leaves before the landing leaf hold nothing above `k`; in a strict tree, nothing from `k` on. */
  ghost predicate LandsBetween(c: Format, strict: bool, rows: Rows, land: nat, k: Key) {
    && land < |rows|
    && (forall i, x | 0 <= i < land && x in rows[i] :: Before(c, strict, x.key, k))
    && (forall i, x | land < i < |rows| && x in rows[i] :: c.Lt(k, x.key))
  }

  lemma LandsLater(c: Format, strict: bool, a: Rows, b: Rows, land: nat, k: Key, sep: Key)
    requires c.Valid() && LandsBetween(c, strict, b, land, k)
    requires AllUnder(c, strict, a, Some(sep)) && c.le(sep, k)
    ensures LandsBetween(c, strict, a + b, |a| + land, k)
  {
    var rows := a + b;
    forall i, x: Entry | 0 <= i < |a| + land && x in rows[i] ensures Before(c, strict, x.key, k) {
      if i < |a| {
        assert x in a[i] && Under(c, strict, x.key, Some(sep));
      } else {
        assert x in b[i - |a|];
      }
    }
    forall i, x: Entry | |a| + land < i < |rows| && x in rows[i] ensures c.Lt(k, x.key) {
      assert x in b[i - |a|];
    }
  }

  lemma LandsHere(c: Format, strict: bool, a: Rows, b: Rows, land: nat, k: Key, sep: Key)
    requires c.Valid() && LandsBetween(c, strict, a, land, k)
    requires AllFrom(c, b, Some(sep)) && c.Lt(k, sep)
    ensures LandsBetween(c, strict, a + b, land, k)
  {
    var rows := a + b;
    forall i, x: Entry | land < i < |rows| && x in rows[i] ensures c.Lt(k, x.key) {
      if i >= |a| {
        assert x in b[i - |a|] && AtLeast(c, Some(sep), x.key);
      }
    }
  }

  lemma {:induction false} TreeLands(c: Format, strict: bool, t: Tree, lo: Option<Key>, hi: Option<Key>, k: Key)
    requires c.Valid() && Ordered(c, strict, t, lo, hi)
    ensures forall l | l in Leaves(t) :: l.Leaf?
    ensures LandsBetween(c, strict, RowsOf(Leaves(t)), Land(c, t, k), k)
    decreases t, 1
  {
    LeavesBetween(c, strict, t, lo, hi);
    if t.Inner? {
      KidsLand(c, strict, t.kids, lo, hi, k);
    }
  }

  lemma {:induction false} KidsLand(c: Format, strict: bool, ks: Kids, lo: Option<Key>, hi: Option<Key>, k: Key)
    requires c.Valid() && OrderedKids(c, strict, ks, lo, hi)
    ensures forall l | l in LeavesKids(ks) :: l.Leaf?
    ensures LandsBetween(c, strict, RowsOf(LeavesKids(ks)), LandKids(c, ks, k), k)
    decreases ks, 0
  {
    LeavesBetweenKids(c, strict, ks, lo, hi);
    if ks.Last? {
      TreeLands(c, strict, ks.kid, lo, hi, k);
    } else {
      LeavesBetween(c, strict, ks.kid, lo, Some(ks.sep));
      LeavesBetweenKids(c, strict, ks.rest, Some(ks.sep), hi);
      var a, b := Leaves(ks.kid), LeavesKids(ks.rest);
      RowsBetween(c, strict, a, lo, Some(ks.sep));
      RowsBetween(c, strict, b, Some(ks.sep), hi);
      Joined(a, b);
      if c.le(ks.sep, k) {
        KidsLand(c, strict, ks.rest, Some(ks.sep), hi, k);
        LandsLater(c, strict, RowsOf(a), RowsOf(b), LandKids(c, ks.rest, k), k, ks.sep);
      } else {
        TreeLands(c, strict, ks.kid, lo, Some(ks.sep), k);
        LandsHere(c, strict, RowsOf(a), RowsOf(b), Land(c, ks.kid, k), k, ks.sep);
      }
    }
  }

  /** In any ordered tree the descent lands right of everything smaller and left of everything larger. */
  lemma LandsInOrder(c: Format, strict: bool, t: Tree, k: Key)
    requires c.Valid() && Ordered(c, strict, t, None, None)
    ensures forall l | l in Leaves(t) :: l.Leaf?
    ensures Lands(c, RowsOf(Leaves(t)), Land(c, t, k), k)
    ensures strict ==> LandsBetween(c, true, RowsOf(Leaves(t)), Land(c, t, k), k)
  {
    TreeInOrder(c, strict, t, None, None);
    TreeLands(c, strict, t, None, None, k);
    var rows, land := RowsOf(Leaves(t)), Land(c, t, k);
    forall i, x: Entry | 0 <= i < land && x in rows[i] ensures c.le(x.key, k) {
      assert Before(c, strict, x.key, k);
    }
  }

  /** With distinct keys the landing leaf is the only one that can hold `k`: empty leaves never matter. */
  lemma StrictNoGap(c: Format, rows: Rows, land: nat, k: Key)
    requires c.Valid() && LandsBetween(c, true, rows, land, k)
    ensures NoGap(rows, land, k)
    ensures Matches(rows, 0, k) == Hits(rows[land], k)
  {
    forall i | 0 <= i < land ensures !Holds(rows[i], k) {
      assert forall x | x in rows[i] :: Before(c, true, x.key, k);
    }
    forall i | land < i < |rows| ensures !Holds(rows[i], k) {
      assert forall x | x in rows[i] :: c.Lt(k, x.key);
    }
    NoMatches(rows, 0, land, k);
    NoMatches(rows, land + 1, |rows|, k);
    assert Matches(rows, |rows|, k) == [];
  }

  lemma {:induction false} OneHit(c: Format, es: seq<Entry>, e: Entry)
    requires c.Valid() && Increasing(c, es) && e in es
    ensures Hits(es, e.key) == [e.rid]
  {
    if es[0] == e {
      assert !Holds(es[1..], e.key);
      HitsIff(es[1..], e.key);
    } else {
      OneHit(c, es[1..], e);
      assert es[0].key != e.key;
    }
  }
}
