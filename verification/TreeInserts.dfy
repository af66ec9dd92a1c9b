/** What every insert keeps. */
module TreeInserts {
  import opened Base
  import opened TreeModel

  ghost function GrownBag(g: Grown): (b: multiset<Entry>) {
    match g
    case Whole(t) => Bag(t)
    case Split(l, _, r) => Bag(l) + Bag(r)
  }

  ghost predicate GrownShape(g: Grown, d: nat) {
    match g
    case Whole(t) => Shape(t, d)
    case Split(l, _, r) => Shape(l, d) && Shape(r, d)
  }

  ghost function GrownPages(g: Grown): (ps: set<PageId>) {
    match g
    case Whole(t) => Pages(t)
    case Split(l, _, r) => Pages(l) + Pages(r)
  }

  ghost predicate GrownDistinct(g: Grown) {
    match g
    case Whole(t) => Distinct(t)
    case Split(l, _, r) => Distinct(l) && Distinct(r) && Pages(l) !! Pages(r)
  }

  // ------------------------------------------------------------------ depth

  lemma {:induction false} SetChildShape(c: Format, ks: Kids, k: Key, t: Tree, d: nat)
    requires ShapeKids(ks, d) && Shape(t, d)
    ensures ShapeKids(SetChild(c, ks, k, t), d)
  {
    if ks.More? {
      SetChildShape(c, ks.rest, k, t, d);
    }
  }

  lemma {:induction false} AddSepShape(c: Format, ks: Kids, s: Key, x: Tree, d: nat)
    requires ShapeKids(ks, d) && Shape(x, d)
    ensures ShapeKids(AddSep(c, ks, s, x), d)
  {
    if ks.More? {
      AddSepShape(c, ks.rest, s, x, d);
    }
  }

  lemma {:induction false} CutShape(ks: Kids, n: nat, d: nat)
    requires 1 <= n < Count(ks) && ShapeKids(ks, d)
    ensures ShapeKids(Cut(ks, n).0, d) && ShapeKids(Cut(ks, n).2, d)
  {
    if n > 1 {
      CutShape(ks.rest, n - 1, d);
    }
  }

  /** Every leaf stays at the same depth. */
  lemma {:induction false} InsertShape(c: Format, t: Tree, k: Key, r: Rid, next: PageId, d: nat)
    requires Shape(t, d)
    ensures GrownShape(Insert(c, t, k, r, next).0, d)
    decreases t, 1
  {
    if t.Inner? {
      InsertChildShape(c, t.kids, k, r, next, d - 1);
      var (g, next1) := InsertChild(c, t.kids, k, r, next);
      match g {
        case Whole(kid) => SetChildShape(c, t.kids, k, kid, d - 1);
        case Split(l, s, x) =>
          SetChildShape(c, t.kids, k, l, d - 1);
          var ks := SetChild(c, t.kids, k, l);
          AddSepShape(c, ks, s, x, d - 1);
          CutShape(AddSep(c, ks, s, x), Count(AddSep(c, ks, s, x)) / 2, d - 1);
      }
    }
  }

  lemma {:induction false} InsertChildShape(c: Format, ks: Kids, k: Key, r: Rid, next: PageId, d: nat)
    requires ShapeKids(ks, d)
    ensures GrownShape(InsertChild(c, ks, k, r, next).0, d)
    decreases ks, 0
  {
    if ks.More? && c.le(ks.sep, k) {
      InsertChildShape(c, ks.rest, k, r, next, d);
    } else {
      InsertShape(c, ks.kid, k, r, next, d);
    }
  }

  // ------------------------------------------------------------------ entries

  lemma {:induction false} SetChildBag(c: Format, ks: Kids, k: Key, t: Tree)
    ensures BagKids(SetChild(c, ks, k, t)) + Bag(Child(c, ks, k)) == BagKids(ks) + Bag(t)
  {
    if ks.More? && c.le(ks.sep, k) {
      SetChildBag(c, ks.rest, k, t);
      var was, now := BagKids(ks.rest), BagKids(SetChild(c, ks.rest, k, t));
      assert (Bag(ks.kid) + now) + Bag(Child(c, ks.rest, k)) == Bag(ks.kid) + (now + Bag(Child(c, ks.rest, k)));
      assert (Bag(ks.kid) + was) + Bag(t) == Bag(ks.kid) + (was + Bag(t));
    }
  }

  lemma {:induction false} AddSepBag(c: Format, ks: Kids, s: Key, x: Tree)
    ensures BagKids(AddSep(c, ks, s, x)) == BagKids(ks) + Bag(x)
  {
    if ks.More? {
      AddSepBag(c, ks.rest, s, x);
    }
  }

  lemma {:induction false} CutBag(ks: Kids, n: nat)
    requires 1 <= n < Count(ks)
    ensures BagKids(Cut(ks, n).0) + BagKids(Cut(ks, n).2) == BagKids(ks)
  {
    if n > 1 {
      CutBag(ks.rest, n - 1);
    }
  }

  lemma Cancel<T>(a: multiset<T>, b: multiset<T>, x: multiset<T>, y: multiset<T>)
    requires a + b == x + (b + y)
    ensures a == x + y
  {
    forall e ensures a[e] == (x + y)[e] {
      assert (a + b)[e] == (x + (b + y))[e];
    }
  }

  /** An insert adds exactly its entry: no split loses or doubles one. */
  lemma {:induction false} InsertBag(c: Format, t: Tree, k: Key, r: Rid, next: PageId)
    ensures GrownBag(Insert(c, t, k, r, next).0) == Bag(t) + multiset{Entry(k, r)}
    decreases t, 1
  {
    match t
    case Leaf(_, es) =>
      var all := Place(c, es, Entry(k, r));
      assert all == all[..|all| / 2] + all[|all| / 2..];
    case Inner(_, ks) =>
      InsertChildBag(c, ks, k, r, next);
      var (g, next1) := InsertChild(c, ks, k, r, next);
      match g {
        case Whole(kid) =>
          SetChildBag(c, ks, k, kid);
          Cancel(BagKids(SetChild(c, ks, k, kid)), Bag(Child(c, ks, k)), BagKids(ks), multiset{Entry(k, r)});
        case Split(l, s, x) =>
          SetChildBag(c, ks, k, l);
          var ks1 := SetChild(c, ks, k, l);
          AddSepBag(c, ks1, s, x);
          CutBag(AddSep(c, ks1, s, x), Count(AddSep(c, ks1, s, x)) / 2);
          assert BagKids(ks1) + Bag(x) + Bag(Child(c, ks, k)) == BagKids(ks) + Bag(l) + Bag(x);
          Cancel(BagKids(ks1) + Bag(x), Bag(Child(c, ks, k)), BagKids(ks), multiset{Entry(k, r)});
      }
  }

  lemma {:induction false} InsertChildBag(c: Format, ks: Kids, k: Key, r: Rid, next: PageId)
    ensures GrownBag(InsertChild(c, ks, k, r, next).0) == Bag(Child(c, ks, k)) + multiset{Entry(k, r)}
    decreases ks, 0
  {
    if ks.More? && c.le(ks.sep, k) {
      InsertChildBag(c, ks.rest, k, r, next);
    } else {
      InsertBag(c, ks.kid, k, r, next);
    }
  }

  // ------------------------------------------------------------------ pages

  /** The page numbers `[from, upto)`. */
  ghost function Fresh(from: PageId, upto: PageId): (ps: set<PageId>)
    ensures forall p :: p in ps <==> from <= p < upto
    decreases upto - from
  {
    if from < upto then Fresh(from, upto - 1) + {upto - 1} else {}
  }

  lemma {:induction false} ChildPages(c: Format, ks: Kids, k: Key)
    requires DistinctKids(ks)
    ensures Pages(Child(c, ks, k)) <= PagesKids(ks) && Distinct(Child(c, ks, k))
  {
    if ks.More? {
      ChildPages(c, ks.rest, k);
    }
  }

  lemma {:induction false} SetChildPages(c: Format, ks: Kids, k: Key, t: Tree)
    requires DistinctKids(ks) && Distinct(t)
    requires Pages(t) !! PagesKids(ks) - Pages(Child(c, ks, k))
    ensures DistinctKids(SetChild(c, ks, k, t))
    ensures PagesKids(SetChild(c, ks, k, t)) == PagesKids(ks) - Pages(Child(c, ks, k)) + Pages(t)
  {
    if ks.More? {
      ChildPages(c, ks.rest, k);
      if c.le(ks.sep, k) {
        SetChildPages(c, ks.rest, k, t);
      }
    }
  }

  lemma {:induction false} AddSepPages(c: Format, ks: Kids, s: Key, x: Tree)
    requires DistinctKids(ks) && Distinct(x) && Pages(x) !! PagesKids(ks)
    ensures DistinctKids(AddSep(c, ks, s, x))
    ensures PagesKids(AddSep(c, ks, s, x)) == PagesKids(ks) + Pages(x)
  {
    if ks.More? {
      AddSepPages(c, ks.rest, s, x);
    }
  }

  lemma {:induction false} CutPages(ks: Kids, n: nat)
    requires 1 <= n < Count(ks) && DistinctKids(ks)
    ensures var (l, _, r) := Cut(ks, n);
      DistinctKids(l) && DistinctKids(r) && PagesKids(l) !! PagesKids(r) && PagesKids(l) + PagesKids(r) == PagesKids(ks)
  {
    if n > 1 {
      CutPages(ks.rest, n - 1);
    }
  }

  lemma GrowInnerPages(c: Format, id: PageId, ks: Kids, s: Key, x: Tree, next: PageId)
    requires DistinctKids(ks) && Distinct(x) && Pages(x) !! PagesKids(ks)
    requires id !in PagesKids(ks) + Pages(x)
    requires next != id && next !in PagesKids(ks) + Pages(x)
    ensures var g := GrowInner(c, id, ks, s, x, next);
      GrownDistinct(g) && GrownPages(g) == {id} + PagesKids(ks) + Pages(x) + if g.Split? then {next} else {}
  {
    AddSepPages(c, ks, s, x);
    var all := AddSep(c, ks, s, x);
    CutPages(all, Count(all) / 2);
  }

  /** An insert keeps the old pages, uses each new page number once, and never reuses one. */
  lemma {:induction false} InsertPages(c: Format, t: Tree, k: Key, r: Rid, next: PageId)
    requires Distinct(t) && forall p | p in Pages(t) :: p < next
    ensures var (g, next') := Insert(c, t, k, r, next);
      GrownDistinct(g) && GrownPages(g) == Pages(t) + Fresh(next, next')
    decreases t, 1
  {
    if t.Inner? {
      var ks := t.kids;
      assert PagesKids(ks) <= Pages(t);
      InsertChildPages(c, ks, k, r, next);
      ChildPages(c, ks, k);
      var (g, next1) := InsertChild(c, ks, k, r, next);
      match g {
        case Whole(kid) => SetChildPages(c, ks, k, kid);
        case Split(l, s, x) =>
          SplitPages(c, t.id, ks, k, l, s, x, next, next1);
      }
    }
  }

  lemma SplitPages(c: Format, id: PageId, ks: Kids, k: Key, l: Tree, s: Key, x: Tree, next: PageId, next1: PageId)
    requires DistinctKids(ks) && id !in PagesKids(ks) && id < next <= next1
    requires forall p | p in PagesKids(ks) :: p < next
    requires GrownDistinct(Split(l, s, x)) && Pages(l) + Pages(x) == Pages(Child(c, ks, k)) + Fresh(next, next1)
    ensures var g := GrowInner(c, id, SetChild(c, ks, k, l), s, x, next1);
      && GrownDistinct(g)
      && GrownPages(g) == {id} + PagesKids(ks) + Fresh(next, next1) + if g.Split? then {next1} else {}
  {
    ChildPages(c, ks, k);
    SetChildPages(c, ks, k, l);
    GrowInnerPages(c, id, SetChild(c, ks, k, l), s, x, next1);
  }

  lemma {:induction false} InsertChildPages(c: Format, ks: Kids, k: Key, r: Rid, next: PageId)
    requires DistinctKids(ks) && forall p | p in PagesKids(ks) :: p < next
    ensures var (g, next') := InsertChild(c, ks, k, r, next);
      GrownDistinct(g) && GrownPages(g) == Pages(Child(c, ks, k)) + Fresh(next, next')
    decreases ks, 0
  {
    assert Pages(ks.kid) <= PagesKids(ks);
    if ks.More? && c.le(ks.sep, k) {
      assert PagesKids(ks.rest) <= PagesKids(ks);
      InsertChildPages(c, ks.rest, k, r, next);
    } else {
      InsertPages(c, ks.kid, k, r, next);
    }
  }
}
