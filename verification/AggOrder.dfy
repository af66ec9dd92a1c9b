/** Aggregation does not depend on the order in which its rows come. */
module AggOrder {
  import opened Bags
  import opened Base
  import opened AggSpec
  import opened Sums

  // ------------------------------------------------------------------ one aggregate

  lemma {:induction false} CountIs(vals: seq<Field>)
    requires vals != [] && Fold(Count, vals).Some?
    ensures Fold(Count, vals).value == BigInt(|vals|)
  {
    if |vals| > 1 {
      CountIs(vals[..|vals| - 1]);
    }
  }

  lemma SameValues(a: seq<Field>, b: seq<Field>, v: Field)
    requires multiset(a) == multiset(b)
    ensures v in a <==> v in b
  {
    assert v in multiset(a) <==> v in multiset(b);
  }

  lemma MaxPermuted(a: seq<Field>, b: seq<Field>)
    requires multiset(a) == multiset(b) && a != [] && b != []
    ensures Fold(Max, a) == Fold(Max, b)
  {
    hide FieldLe, Fold;
    FieldTotal();
    FoldMax(a);
    FoldMax(b);
    SameValues(a, b, Fold(Max, a).value);
    SameValues(a, b, Fold(Max, b).value);
  }

  lemma MinPermuted(a: seq<Field>, b: seq<Field>)
    requires multiset(a) == multiset(b) && a != [] && b != []
    ensures Fold(Min, a) == Fold(Min, b)
  {
    hide FieldLe, Fold;
    FieldTotal();
    FoldMin(a);
    FoldMin(b);
    SameValues(a, b, Fold(Min, a).value);
    SameValues(a, b, Fold(Min, b).value);
  }

  /** Two orders of a group's values in which an aggregate has a value give it the same one. */
  lemma FoldPermuted(op: AggOp, a: seq<Field>, b: seq<Field>)
    requires multiset(a) == multiset(b) && a != [] && b != []
    requires Fold(op, a).Some? && Fold(op, b).Some?
    ensures Fold(op, a) == Fold(op, b)
  {
    hide Fold;
    assert |a| == |multiset(a)| && |b| == |multiset(b)|;
    match op
    case Count => CountIs(a); CountIs(b);
    case Max => MaxPermuted(a, b);
    case Min => MinPermuted(a, b);
    case Sum => SumPermuted(Sum, a, b);
    case Avg => SumPermuted(Avg, a, b);
  }

  // ------------------------------------------------------------------ groups

  function InGroup(k: Key): (f: Item -> seq<seq<Field>>) {
    (x: Item) => if x.key == k then [x.vals] else []
  }

  lemma {:induction false} GroupFlat(items: seq<Item>, k: Key)
    ensures Group(items, k) == Flat(InGroup(k), items)
  {
    if items == [] {
    } else {
      var n := |items| - 1;
      GroupFlat(items[..n], k);
      assert items == items[..n] + [items[n]];
      FlatCat(InGroup(k), items[..n], [items[n]]);
      FlatOne(InGroup(k), items[n]);
    }
  }

  lemma GroupPermuted(a: seq<Item>, b: seq<Item>, k: Key)
    requires multiset(a) == multiset(b)
    ensures multiset(Group(a, k)) == multiset(Group(b, k)) && |Group(a, k)| == |Group(b, k)|
    ensures Group(a, k) == [] <==> Group(b, k) == []
  {
    hide Group;
    GroupFlat(a, k);
    GroupFlat(b, k);
    FlatPermuted(InGroup(k), a, b);
    assert |Group(a, k)| == |multiset(Group(a, k))| && |Group(b, k)| == |multiset(Group(b, k))|;
  }

  function FieldAt(i: nat): (f: seq<Field> -> seq<Field>) {
    (vals: seq<Field>) => [At(vals, i)]
  }

  lemma {:induction false} ColumnFlat(g: seq<seq<Field>>, i: nat)
    requires forall j | 0 <= j < |g| :: i < |g[j]|
    ensures Column(g, i) == Flat(FieldAt(i), g)
  {
    if g == [] {
    } else {
      ColumnFlat(g[1..], i);
      assert Column(g, i) == [g[0][i]] + Column(g[1..], i);
    }
  }

  lemma ColumnPermuted(a: seq<seq<Field>>, b: seq<seq<Field>>, i: nat)
    requires multiset(a) == multiset(b)
    requires (forall j | 0 <= j < |a| :: i < |a[j]|) && forall j | 0 <= j < |b| :: i < |b[j]|
    ensures multiset(Column(a, i)) == multiset(Column(b, i))
  {
    ColumnFlat(a, i);
    ColumnFlat(b, i);
    FlatPermuted(FieldAt(i), a, b);
  }

  lemma {:induction false} FoldsPermuted(ops: seq<AggOp>, a: seq<seq<Field>>, b: seq<seq<Field>>, n: nat)
    requires multiset(a) == multiset(b) && Rows(|ops|, a) && Rows(|ops|, b) && n <= |ops|
    requires FoldsTo(ops, a, n).Some? && FoldsTo(ops, b, n).Some?
    ensures FoldsTo(ops, a, n) == FoldsTo(ops, b, n)
  {
    hide Fold;
    if n == 0 {
    } else {
      FoldsPermuted(ops, a, b, n - 1);
      ColumnPermuted(a, b, n - 1);
      FoldPermuted(ops[n - 1], Column(a, n - 1), Column(b, n - 1));
    }
  }

  // ------------------------------------------------------------------ the result

  lemma KeysPermuted(a: seq<Item>, b: seq<Item>)
    requires multiset(a) == multiset(b)
    ensures KeysOf(a) == KeysOf(b)
  {
    hide Group, KeysOf;
    KeysOfAre(a);
    KeysOfAre(b);
    forall k ensures k in KeysOf(a) <==> k in KeysOf(b) {
      GroupPermuted(a, b, k);
    }
    AscendingUnique(KeysOf(a), KeysOf(b));
  }

  lemma GroupRowPermuted(ops: seq<AggOp>, avg: Average, a: seq<Item>, b: seq<Item>, k: Key)
    requires multiset(a) == multiset(b) && Wide(|ops|, a) && Wide(|ops|, b)
    requires Computable(ops, a) && Computable(ops, b) && Group(a, k) != []
    ensures Group(b, k) != [] && GroupRow(ops, avg, a, k) == GroupRow(ops, avg, b, k)
  {
    hide Group, FoldsTo, FinalsTo;
    GroupPermuted(a, b, k);
    assert Computes(ops, a, k) && Computes(ops, b, k);
    GroupWide(|ops|, a, k);
    GroupWide(|ops|, b, k);
    FoldsPermuted(ops, Group(a, k), Group(b, k), |ops|);
  }

  /** The same rows in another order are aggregated to the same result, where both orders have one. */
  lemma AggRowsPermuted(ops: seq<AggOp>, avg: Average, a: seq<Item>, b: seq<Item>)
    requires multiset(a) == multiset(b) && Wide(|ops|, a) && Wide(|ops|, b)
    requires Computable(ops, a) && Computable(ops, b)
    ensures AggRows(ops, avg, a) == AggRows(ops, avg, b)
  {
    hide Group, GroupRow, KeysOf, Computable;
    KeysOfAre(a);
    KeysPermuted(a, b);
    var ks := KeysOf(a);
    forall i | 0 <= i < |ks| ensures Group(a, ks[i]) != [] && Group(b, ks[i]) != []
      && GroupRow(ops, avg, a, ks[i]) == GroupRow(ops, avg, b, ks[i])
    {
      assert ks[i] in ks;
      GroupRowPermuted(ops, avg, a, b, ks[i]);
    }
  }
}
