/** Grouping and aggregation, as folds over the rows of each group. */
module AggSpec {
  import opened Base
  import opened Exprs

  datatype AggOp = Avg | Count | Max | Min | Sum

  /** What the operator reads of one row: its group key and the values to aggregate. */
  datatype Item = Item(key: Key, vals: seq<Field>)

  /** Per group: the number of rows, and one accumulated value per aggregate. */
  type Acc = map<Key, (nat, seq<Field>)>

  // ------------------------------------------------------------------ one value

  function First(op: AggOp, v: Field): (acc: Field) {
    if op.Count? then BigInt(1) else v
  }

  /** Merge a value into an accumulated one; nothing when the addition fails. */
  function MergeField(op: AggOp, v: Field, acc: Field): (r: Option<Field>) {
    match op
    case Count => AddSub((x, y) => x + y, acc, BigInt(1))
    case Max => Some(if FieldLe(acc, v) then v else acc)
    case Min => Some(if FieldLe(acc, v) then acc else v)
    case Sum => AddSub((x, y) => x + y, acc, v)
    case Avg => AddSub((x, y) => x + y, acc, v)
  }

  /** The aggregate of a group's values, from the first on. */
  function Fold(op: AggOp, vals: seq<Field>): (r: Option<Field>)
    requires vals != []
  {
    if |vals| == 1 then Some(First(op, vals[0]))
    else
      var n := |vals| - 1;
      var acc := Fold(op, vals[..n]);
      if acc.Some? then MergeField(op, vals[n], acc.value) else None
  }

  lemma {:induction false} FoldCount(vals: seq<Field>)
    requires 0 < |vals| <= MAX64
    ensures Fold(Count, vals) == Some(BigInt(|vals|))
  {
    if |vals| > 1 {
      FoldCount(vals[..|vals| - 1]);
    }
  }

  lemma {:induction false} FoldMax(vals: seq<Field>)
    requires vals != []
    ensures Fold(Max, vals).Some? && Fold(Max, vals).value in vals
    ensures forall v | v in vals :: FieldLe(v, Fold(Max, vals).value)
  {
    hide FieldLe;
    FieldTotal();
    var n := |vals| - 1;
    if n == 0 {
    } else {
      FoldMax(vals[..n]);
      assert vals == vals[..n] + [vals[n]];
    }
  }

  lemma {:induction false} FoldMin(vals: seq<Field>)
    requires vals != []
    ensures Fold(Min, vals).Some? && Fold(Min, vals).value in vals
    ensures forall v | v in vals :: FieldLe(Fold(Min, vals).value, v)
  {
    hide FieldLe;
    FieldTotal();
    var n := |vals| - 1;
    if n == 0 {
    } else {
      FoldMin(vals[..n]);
      assert vals == vals[..n] + [vals[n]];
    }
  }

  function Total(vals: seq<Field>): (n: int)
    requires forall i | 0 <= i < |vals| :: vals[i].BigInt?
  {
    if vals == [] then 0 else Total(vals[..|vals| - 1]) + vals[|vals| - 1].i
  }

  /** Every running total stays within 64 bits. */
  predicate TotalsFit(vals: seq<Field>)
    requires forall i | 0 <= i < |vals| :: vals[i].BigInt?
  {
    vals == [] || (TotalsFit(vals[..|vals| - 1]) && (|vals| == 1 || Fit(Total(vals)).Some?))
  }

  /** A sum of integers is their total, if and only if no running total overflows. */
  lemma {:induction false} FoldSum(vals: seq<Field>)
    requires vals != [] && forall i | 0 <= i < |vals| :: vals[i].BigInt?
    ensures Fold(Sum, vals) == if TotalsFit(vals) then Some(BigInt(Total(vals))) else None
  {
    var n := |vals| - 1;
    if n > 0 {
      FoldSum(vals[..n]);
    } else {
      assert vals[..0] == [];
    }
  }

  // ------------------------------------------------------------------ groups

  /** The values of the rows with key `k`, in order. */
  function Group(items: seq<Item>, k: Key): (g: seq<seq<Field>>) {
    if items == [] then []
    else
      var n := |items| - 1;
      Group(items[..n], k) + if items[n].key == k then [items[n].vals] else []
  }

  ghost predicate Wide(n: nat, items: seq<Item>) {
    forall i | 0 <= i < |items| :: |items[i].vals| == n
  }

  lemma {:induction false} GroupWide(n: nat, items: seq<Item>, k: Key)
    requires Wide(n, items)
    ensures Group(items, k) != [] ==> Rows(n, Group(items, k))
  {
    if items == [] {
    } else {
      GroupWide(n, items[..|items| - 1], k);
    }
  }

  function Column(g: seq<seq<Field>>, i: nat): (vals: seq<Field>)
    requires forall j | 0 <= j < |g| :: i < |g[j]|
    ensures |vals| == |g|
  {
    seq(|g|, j requires 0 <= j < |g| => g[j][i])
  }

  ghost predicate Rows(n: nat, g: seq<seq<Field>>) {
    g != [] && forall j | 0 <= j < |g| :: |g[j]| == n
  }

  /** The first `n` aggregates of a group, one fold each; nothing if one of them fails. */
  function FoldsTo(ops: seq<AggOp>, g: seq<seq<Field>>, n: nat): (r: Option<seq<Field>>)
    requires Rows(|ops|, g) && n <= |ops|
    ensures r.Some? ==> |r.value| == n
  {
    if n == 0 then Some([])
    else
      var rest, v := FoldsTo(ops, g, n - 1), Fold(ops[n - 1], Column(g, n - 1));
      if rest.Some? && v.Some? then Some(rest.value + [v.value]) else None
  }

  function Folds(ops: seq<AggOp>, g: seq<seq<Field>>): (r: Option<seq<Field>>)
    requires Rows(|ops|, g)
    ensures r.Some? ==> |r.value| == |ops|
  {
    FoldsTo(ops, g, |ops|)
  }

  /** Every aggregate is the fold of its column. */
  lemma {:induction false} FoldsAt(ops: seq<AggOp>, g: seq<seq<Field>>, n: nat, i: nat)
    requires Rows(|ops|, g) && i < n <= |ops| && FoldsTo(ops, g, n).Some?
    ensures Fold(ops[i], Column(g, i)) == Some(FoldsTo(ops, g, n).value[i])
  {
    if i < n - 1 {
      FoldsAt(ops, g, n - 1, i);
    }
  }

  // ------------------------------------------------------------------ accumulating

  function MergeTo(ops: seq<AggOp>, vals: seq<Field>, acc: seq<Field>, n: nat): (r: Option<seq<Field>>)
    requires |vals| == |ops| && n <= |ops| && n <= |acc|
    ensures r.Some? ==> |r.value| == n
  {
    if n == 0 then Some([])
    else
      var rest, v := MergeTo(ops, vals, acc, n - 1), MergeField(ops[n - 1], vals[n - 1], acc[n - 1]);
      if rest.Some? && v.Some? then Some(rest.value + [v.value]) else None
  }

  function MergeAll(ops: seq<AggOp>, vals: seq<Field>, acc: seq<Field>): (r: Option<seq<Field>>)
    requires |vals| == |acc| == |ops|
    ensures r.Some? ==> |r.value| == |ops|
  {
    MergeTo(ops, vals, acc, |ops|)
  }

  function FirstsTo(ops: seq<AggOp>, vals: seq<Field>, n: nat): (acc: seq<Field>)
    requires |vals| == |ops| && n <= |ops|
    ensures |acc| == n
  {
    if n == 0 then [] else FirstsTo(ops, vals, n - 1) + [First(ops[n - 1], vals[n - 1])]
  }

  lemma {:induction false} MergeToPrefix(ops: seq<AggOp>, vals: seq<Field>, acc: seq<Field>, more: seq<Field>, n: nat)
    requires |vals| == |ops| && n <= |ops| && n <= |acc|
    ensures MergeTo(ops, vals, acc + more, n) == MergeTo(ops, vals, acc, n)
  {
    if n == 0 {
    } else {
      MergeToPrefix(ops, vals, acc, more, n - 1);
    }
  }

  lemma FoldLast(op: AggOp, vals: seq<Field>)
    requires |vals| > 1
    ensures Fold(op, vals) ==
      match Fold(op, vals[..|vals| - 1])
      case None => None
      case Some(acc) => MergeField(op, vals[|vals| - 1], acc)
  {
  }

  lemma {:induction false} FoldsSnoc(ops: seq<AggOp>, g: seq<seq<Field>>, vals: seq<Field>, n: nat)
    requires Rows(|ops|, g) && |vals| == |ops| && n <= |ops|
    ensures Rows(|ops|, g + [vals])
    ensures FoldsTo(ops, g + [vals], n) ==
      match FoldsTo(ops, g, n)
      case None => None
      case Some(acc) => MergeTo(ops, vals, acc, n)
  {
    hide MergeField, Fold;
    if n == 0 {
    } else {
      FoldsSnoc(ops, g, vals, n - 1);
      var i := n - 1;
      assert Column(g + [vals], i)[..|g|] == Column(g, i) && Column(g + [vals], i)[|g|] == vals[i];
      FoldLast(ops[i], Column(g + [vals], i));
      var rest, v := FoldsTo(ops, g, i), Fold(ops[i], Column(g, i));
      if rest.Some? && v.Some? {
        MergeToPrefix(ops, vals, rest.value, [v.value], i);
      }
    }
  }

  lemma {:induction false} FoldsOne(ops: seq<AggOp>, vals: seq<Field>, n: nat)
    requires |vals| == |ops| && n <= |ops|
    ensures Rows(|ops|, [vals]) && FoldsTo(ops, [vals], n) == Some(FirstsTo(ops, vals, n))
  {
    if n == 0 {
    } else {
      FoldsOne(ops, vals, n - 1);
    }
  }

  /** What is known of group `k` after `items`. */
  ghost predicate GroupIs(ops: seq<AggOp>, items: seq<Item>, acc: Acc, k: Key)
    requires Wide(|ops|, items)
  {
    GroupWide(|ops|, items, k);
    var g := Group(items, k);
    if g == [] then k !in acc
    else k in acc && acc[k].0 == |g| && Folds(ops, g) == Some(acc[k].1)
  }

  /** The accumulator holds, for exactly the keys that occur, the group's size and its aggregates. */
  ghost predicate Accumulated(ops: seq<AggOp>, items: seq<Item>, acc: Acc)
    requires Wide(|ops|, items)
  {
    forall k: Key :: GroupIs(ops, items, acc, k)
  }

  ghost predicate Computes(ops: seq<AggOp>, items: seq<Item>, k: Key)
    requires Wide(|ops|, items)
  {
    GroupWide(|ops|, items, k);
    Group(items, k) == [] || Folds(ops, Group(items, k)).Some?
  }

  /** No aggregate of any group fails. */
  ghost predicate Computable(ops: seq<AggOp>, items: seq<Item>)
    requires Wide(|ops|, items)
  {
    forall k: Key :: Computes(ops, items, k)
  }

  /** The accumulator after one more row, or nothing if an addition fails. */
  function Absorb(ops: seq<AggOp>, acc: Acc, x: Item): (r: Option<Acc>)
    requires |x.vals| == |ops| && (x.key in acc ==> |acc[x.key].1| == |ops|)
  {
    if x.key !in acc then Some(acc[x.key := (1, FirstsTo(ops, x.vals, |ops|))])
    else
      var merged := MergeAll(ops, x.vals, acc[x.key].1);
      if merged.Some? then Some(acc[x.key := (acc[x.key].0 + 1, merged.value)]) else None
  }

  lemma GroupSnoc(items: seq<Item>, x: Item, k: Key)
    ensures Group(items + [x], k) == Group(items, k) + if x.key == k then [x.vals] else []
  {
    assert (items + [x])[..|items|] == items;
  }

  lemma AbsorbKey(ops: seq<AggOp>, items: seq<Item>, x: Item, acc: Acc)
    requires Wide(|ops|, items) && Wide(|ops|, items + [x]) && |x.vals| == |ops| && GroupIs(ops, items, acc, x.key)
    ensures x.key in acc ==> |acc[x.key].1| == |ops|
    ensures match Absorb(ops, acc, x)
      case Some(acc') => GroupIs(ops, items + [x], acc', x.key)
      case None => !Computes(ops, items + [x], x.key)
  {
    hide FoldsTo, MergeTo, FirstsTo, Group;
    var k := x.key;
    GroupWide(|ops|, items, k);
    GroupWide(|ops|, items + [x], k);
    GroupSnoc(items, x, k);
    var g := Group(items, k);
    if g == [] {
      FoldsOne(ops, x.vals, |ops|);
      assert g + [x.vals] == [x.vals];
    } else {
      FoldsSnoc(ops, g, x.vals, |ops|);
    }
  }

  lemma AbsorbOther(ops: seq<AggOp>, items: seq<Item>, x: Item, acc: Acc, acc': Acc, k: Key)
    requires Wide(|ops|, items) && Wide(|ops|, items + [x]) && k != x.key && GroupIs(ops, items, acc, k)
    requires k in acc' <==> k in acc
    requires k in acc ==> acc'[k] == acc[k]
    ensures GroupIs(ops, items + [x], acc', k)
  {
    hide FoldsTo, Group;
    GroupSnoc(items, x, k);
    assert Group(items + [x], k) == Group(items, k);
  }

  /** One more row keeps the accumulator in step with the groups; it fails only if an aggregate does. */
  lemma AbsorbStep(ops: seq<AggOp>, items: seq<Item>, x: Item, acc: Acc)
    requires Wide(|ops|, items) && |x.vals| == |ops| && Accumulated(ops, items, acc)
    ensures Wide(|ops|, items + [x])
    ensures x.key in acc ==> |acc[x.key].1| == |ops|
    ensures match Absorb(ops, acc, x)
      case Some(acc') => Accumulated(ops, items + [x], acc')
      case None => !Computable(ops, items + [x])
  {
    hide GroupIs, Computes, MergeAll, FirstsTo;
    assert GroupIs(ops, items, acc, x.key);
    AbsorbKey(ops, items, x, acc);
    match Absorb(ops, acc, x)
    case None =>
    case Some(acc') =>
      forall k ensures GroupIs(ops, items + [x], acc', k) {
        if k != x.key {
          assert GroupIs(ops, items, acc, k);
          AbsorbOther(ops, items, x, acc, acc', k);
        }
      }
  }

  /** If an aggregate fails, it fails whatever rows follow. */
  lemma ComputablePrefix(ops: seq<AggOp>, items: seq<Item>, x: Item)
    requires Wide(|ops|, items) && Wide(|ops|, items + [x])
    ensures Computable(ops, items + [x]) ==> Computable(ops, items)
  {
    hide Folds, FoldsTo, Group;
    if Computable(ops, items + [x]) {
      forall k ensures Computes(ops, items, k) {
        assert Computes(ops, items + [x], k);
        ComputesPrefix(ops, items, x, k);
      }
    }
  }

  lemma ComputesPrefix(ops: seq<AggOp>, items: seq<Item>, x: Item, k: Key)
    requires Wide(|ops|, items) && Wide(|ops|, items + [x]) && Computes(ops, items + [x], k)
    ensures Computes(ops, items, k)
  {
    hide FoldsTo, Group;
    GroupWide(|ops|, items, k);
    GroupSnoc(items, x, k);
    assert x.key != k ==> Group(items + [x], k) == Group(items, k);
    assert (items + [x])[|items|] == x;
    if Group(items, k) != [] && x.key == k {
      FoldsSnoc(ops, Group(items, k), x.vals, |ops|);
    }
  }

  // ------------------------------------------------------------------ the group keys in order

  ghost predicate Ascending(ks: seq<Key>) {
    forall i, j | 0 <= i < j < |ks| :: KeyLe(ks[i], ks[j]) && ks[i] != ks[j]
  }

  /** Where a key goes among ascending keys. */
  function PlaceKey(ks: seq<Key>, k: Key): (r: seq<Key>)
    ensures |r| == |ks| + 1 && forall x :: x in r <==> x == k || x in ks
  {
    if ks == [] || KeyLe(k, ks[0]) then [k] + ks else [ks[0]] + PlaceKey(ks[1..], k)
  }

  lemma {:induction false} PlaceKeyAscending(ks: seq<Key>, k: Key)
    requires Ascending(ks) && k !in ks
    ensures Ascending(PlaceKey(ks, k))
  {
    KeyTotal();
    if ks == [] {
    } else {
      if KeyLe(k, ks[0]) {
        forall j | 0 <= j < |ks| ensures KeyLe(k, ks[j]) && k != ks[j] {
          assert KeyLe(ks[0], ks[j]);
        }
      } else {
        PlaceKeyAscending(ks[1..], k);
        var r := PlaceKey(ks[1..], k);
        forall j | 0 <= j < |r| ensures KeyLe(ks[0], r[j]) && ks[0] != r[j] {
          assert r[j] in r;
        }
      }
    }
  }

  lemma Inhabited(ks: seq<Key>)
    ensures ks != [] ==> exists k :: k in ks
  {
    if ks != [] {
      assert ks[0] in ks;
    }
  }

  /** Ascending keys are determined by which keys they are. */
  lemma {:induction false} AscendingUnique(a: seq<Key>, b: seq<Key>)
    requires Ascending(a) && Ascending(b) && forall k :: k in a <==> k in b
    ensures a == b
  {
    Inhabited(a);
    Inhabited(b);
    if a != [] && b != [] {
      KeyTotal();
      assert a[0] in b && b[0] in a;
      assert a[0] == b[0];
      forall k ensures k in a[1..] <==> k in b[1..] {
        assert k in a <==> k == a[0] || k in a[1..];
        assert k in b <==> k == b[0] || k in b[1..];
      }
      AscendingUnique(a[1..], b[1..]);
    }
  }

  /** The distinct group keys, ascending. */
  function KeysOf(items: seq<Item>): (ks: seq<Key>) {
    if items == [] then []
    else
      var n := |items| - 1;
      var ks := KeysOf(items[..n]);
      if items[n].key in ks then ks else PlaceKey(ks, items[n].key)
  }

  lemma {:induction false} KeysOfAre(items: seq<Item>)
    ensures Ascending(KeysOf(items)) && forall k :: k in KeysOf(items) <==> Group(items, k) != []
  {
    if items == [] {
    } else {
      var n := |items| - 1;
      KeysOfAre(items[..n]);
      if items[n].key !in KeysOf(items[..n]) {
        PlaceKeyAscending(KeysOf(items[..n]), items[n].key);
      }
    }
  }

  // ------------------------------------------------------------------ sizes

  function Sizes(ks: seq<Key>, items: seq<Item>): (n: nat) {
    if ks == [] then 0 else |Group(items, ks[0])| + Sizes(ks[1..], items)
  }

  lemma {:induction false} SizesSnoc(ks: seq<Key>, items: seq<Item>, x: Item)
    requires Ascending(ks)
    ensures Sizes(ks, items + [x]) == Sizes(ks, items) + if x.key in ks then 1 else 0
  {
    if ks == [] {
    } else {
      SizesSnoc(ks[1..], items, x);
      GroupSnoc(items, x, ks[0]);
      assert x.key in ks <==> x.key == ks[0] || x.key in ks[1..];
    }
  }

  lemma {:induction false} SizesPlaced(ks: seq<Key>, k: Key, items: seq<Item>)
    ensures Sizes(PlaceKey(ks, k), items) == Sizes(ks, items) + |Group(items, k)|
  {
    if ks != [] && !KeyLe(k, ks[0]) {
      SizesPlaced(ks[1..], k, items);
    }
  }

  /** The groups partition the rows: their sizes add up to the number of rows. */
  lemma {:induction false} SizesTotal(items: seq<Item>)
    ensures Sizes(KeysOf(items), items) == |items|
  {
    if items == [] {
    } else {
      var n := |items| - 1;
      var before, x := items[..n], items[n];
      assert items == before + [x];
      SizesTotal(before);
      KeysOfAre(before);
      SizesSnoc(KeysOf(before), before, x);
      if x.key !in KeysOf(before) {
        SizesPlaced(KeysOf(before), x.key, items);
        GroupSnoc(before, x, x.key);
      }
    }
  }

  // ------------------------------------------------------------------ the result

  /** The average of an accumulated sum over a number of rows; rounded, so not spelled out here. */
  type Average = (Field, nat) -> Field

  /** Only integers are averaged; any other sum, a decimal too, aborts. */
  predicate Averaged(f: Field) {
    f.SmallInt? || f.Int? || f.BigInt?
  }

  predicate AllAveraged(ops: seq<AggOp>, acc: seq<Field>)
    requires |acc| == |ops|
  {
    forall i | 0 <= i < |ops| :: ops[i].Avg? ==> Averaged(acc[i])
  }

  ghost predicate GroupFinishes(ops: seq<AggOp>, items: seq<Item>, k: Key)
    requires Wide(|ops|, items) && Computable(ops, items)
  {
    assert Computes(ops, items, k);
    GroupWide(|ops|, items, k);
    Group(items, k) == [] || AllAveraged(ops, Folds(ops, Group(items, k)).value)
  }

  /** No aggregate of any group fails, and every sum that is to be averaged is an integer. */
  ghost predicate Finishes(ops: seq<AggOp>, items: seq<Item>)
    requires Wide(|ops|, items)
  {
    Computable(ops, items) && forall k: Key :: GroupFinishes(ops, items, k)
  }

  function FinalsTo(ops: seq<AggOp>, avg: Average, count: nat, acc: seq<Field>, n: nat): (r: seq<Field>)
    requires n <= |ops| && n <= |acc|
  {
    if n == 0 then []
    else FinalsTo(ops, avg, count, acc, n - 1) + [if ops[n - 1].Avg? then avg(acc[n - 1], count) else acc[n - 1]]
  }

  /** The row of group `k`: its key, then its aggregates. */
  function GroupRow(ops: seq<AggOp>, avg: Average, items: seq<Item>, k: Key): (row: Row)
    requires Wide(|ops|, items) && Computable(ops, items) && Group(items, k) != []
  {
    assert Computes(ops, items, k);
    GroupWide(|ops|, items, k);
    k + FinalsTo(ops, avg, |Group(items, k)|, Folds(ops, Group(items, k)).value, |ops|)
  }

  function GroupRows(ops: seq<AggOp>, avg: Average, items: seq<Item>, ks: seq<Key>): (rows: seq<Row>)
    requires Wide(|ops|, items) && Computable(ops, items) && forall i | 0 <= i < |ks| :: Group(items, ks[i]) != []
    ensures |rows| == |ks|
  {
    seq(|ks|, i requires 0 <= i < |ks| => GroupRow(ops, avg, items, ks[i]))
  }

  /** One row per distinct group key, in key order. */
  function AggRows(ops: seq<AggOp>, avg: Average, items: seq<Item>): (rows: seq<Row>)
    requires Wide(|ops|, items) && Computable(ops, items)
  {
    KeysOfAre(items);
    GroupRows(ops, avg, items, KeysOf(items))
  }
}
