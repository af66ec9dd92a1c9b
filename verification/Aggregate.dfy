/** The aggregation operator and its hash map. */
module Aggregate {
  import opened Base
  import opened AggSpec

  function EvalAll(exprs: seq<Row -> Field>, row: Row): (vals: seq<Field>)
    ensures |vals| == |exprs|
  {
    seq(|exprs|, i requires 0 <= i < |exprs| => exprs[i](row))
  }

  function ItemsOf(groups: seq<Row -> Field>, aggs: seq<Row -> Field>, rows: seq<Row>): (items: seq<Item>)
    ensures |items| == |rows| && Wide(|aggs|, items)
  {
    seq(|rows|, i requires 0 <= i < |rows| => Item(EvalAll(groups, rows[i]), EvalAll(aggs, rows[i])))
  }

  /** Merge a row's values into its group's, one aggregate after the other. */
  method MergeFields(ops: seq<AggOp>, vals: seq<Field>, acc: seq<Field>) returns (r: Option<seq<Field>>)
    requires |vals| == |acc| == |ops|
    ensures r == MergeAll(ops, vals, acc)
  {
    var out: seq<Field> := [];
    for i := 0 to |ops|
      invariant MergeTo(ops, vals, acc, i) == Some(out)
    {
      var v := MergeField(ops[i], vals[i], acc[i]);
      if v.None? {
        FailsOn(ops, vals, acc, i, |ops|);
        return None;
      }
      out := out + [v.value];
    }
    r := Some(out);
  }

  lemma {:induction false} FailsOn(ops: seq<AggOp>, vals: seq<Field>, acc: seq<Field>, i: nat, n: nat)
    requires |vals| == |acc| == |ops| && i < n <= |ops| && MergeField(ops[i], vals[i], acc[i]).None?
    ensures MergeTo(ops, vals, acc, n).None?
  {
    if i < n - 1 {
      FailsOn(ops, vals, acc, i, n - 1);
    }
  }

  class Aggregate {
    const groupExprs: seq<Row -> Field>
    const aggExprs: seq<Row -> Field>
    const ops: seq<AggOp>
    const avg: Average
    var willRewind: bool
    var isOpen: bool
    var acc: Acc
    var accIter: seq<Row>
    var index: nat

    constructor (groupExprs: seq<Row -> Field>, aggExprs: seq<Row -> Field>, ops: seq<AggOp>, avg: Average)
      requires |ops| == |aggExprs|
      ensures this.groupExprs == groupExprs && this.aggExprs == aggExprs && this.ops == ops && this.avg == avg
      ensures willRewind && !isOpen && acc == map[] && accIter == []
    {
      this.groupExprs, this.aggExprs, this.ops, this.avg := groupExprs, aggExprs, ops, avg;
      willRewind, isOpen, acc, accIter, index := true, false, map[], [], 0;
    }

    /** Take one row into its group; fails where an addition fails. */
    method MergeTupleIntoGroup(row: Row, ghost items: seq<Item>) returns (ok: bool)
      requires |ops| == |aggExprs| && Wide(|ops|, items) && Accumulated(ops, items, acc)
      modifies this`acc
      ensures var x := Item(EvalAll(groupExprs, row), EvalAll(aggExprs, row));
        && Wide(|ops|, items + [x])
        && if ok then Accumulated(ops, items + [x], acc) else !Computable(ops, items + [x])
    {
      hide Accumulated, Computable, MergeAll, FirstsTo;
      var key, vals := EvalAll(groupExprs, row), EvalAll(aggExprs, row);
      AbsorbStep(ops, items, Item(key, vals), acc);
      if key in acc {
        var merged := MergeFields(ops, vals, acc[key].1);
        ok := merged.Some?;
        if ok {
          acc := acc[key := (acc[key].0 + 1, merged.value)];
        }
      } else {
        acc := acc[key := (1, FirstsTo(ops, vals, |ops|))];
        ok := true;
      }
    }

    /** Aggregate every row of the child; fails where an addition does, or where a sum to be averaged is no integer. */
    method Open(rows: seq<Row>) returns (ok: bool)
      requires |ops| == |aggExprs| && !isOpen && acc == map[] && accIter == []
      modifies this
      ensures ok <==> Finishes(ops, ItemsOf(groupExprs, aggExprs, rows))
      ensures ok ==> Valid() && accIter == AggRows(ops, avg, ItemsOf(groupExprs, aggExprs, rows)) && index == 0
      ensures willRewind == old(willRewind)
    {
      ghost var items := ItemsOf(groupExprs, aggExprs, rows);
      ok := MergeAllRows(rows);
      if ok {
        hide Accumulated, Computable, Group, GroupRows, KeysOf, GroupFinishes;
        KeysInAcc(ops, items, acc);
        var keys := SortedKeys(acc.Keys);
        KeysAre(items, keys);
        var out := ResultRows(keys, items);
        if out.None? {
          return false;
        }
        OnlyGroups(ops, items, keys);
        accIter := out.value;
        index, isOpen := 0, true;
      }
    }

    ghost predicate Valid()
      reads this
    {
      isOpen && index <= |accIter|
    }

    method MergeAllRows(rows: seq<Row>) returns (ok: bool)
      requires |ops| == |aggExprs| && acc == map[]
      modifies this`acc
      ensures var items := ItemsOf(groupExprs, aggExprs, rows);
        if ok then Accumulated(ops, items, acc) && Computable(ops, items) else !Computable(ops, items)
    {
      ghost var items := ItemsOf(groupExprs, aggExprs, rows);
      NoItems(ops, items[..0]);
      for i := 0 to |rows|
        invariant Accumulated(ops, items[..i], acc)
      {
        hide Accumulated, Computable;
        ok := MergeTupleIntoGroup(rows[i], items[..i]);
        assert items[..i + 1] == items[..i] + [items[i]];
        if !ok {
          StillFails(ops, items, i + 1);
          return;
        }
      }
      assert items[..|rows|] == items;
      ok := true;
      AccumulatedComputes(ops, items, acc);
    }

    /** The result rows, one per key; nothing if the sum of a key is not to be averaged. */
    method ResultRows(keys: seq<Key>, ghost items: seq<Item>) returns (out: Option<seq<Row>>)
      requires Wide(|ops|, items) && Accumulated(ops, items, acc) && Computable(ops, items)
      requires forall k :: k in keys <==> Group(items, k) != []
      requires forall k | k in keys :: k in acc && |acc[k].1| == |ops|
      ensures out.Some? <==> forall k | k in keys :: GroupFinishes(ops, items, k)
      ensures out.Some? ==> out.value == GroupRows(ops, avg, items, keys)
    {
      hide Accumulated, Computable, Group, GroupRow, FinalsTo, GroupFinishes, AllAveraged;
      var rows := [];
      for i := 0 to |keys|
        invariant rows == GroupRows(ops, avg, items, keys)[..i]
        invariant forall k | k in keys[..i] :: GroupFinishes(ops, items, k)
      {
        var k := keys[i];
        assert k in keys;
        var (count, vals) := acc[k];
        RowIs(ops, avg, items, acc, k);
        if !AllAveraged(ops, vals) {
          return None;
        }
        rows := rows + [k + FinalsTo(ops, avg, count, vals, |ops|)];
      }
      assert keys[..|keys|] == keys;
      return Some(rows);
    }

    method Next() returns (row: Option<Row>)
      requires Valid()
      modifies this`index
      ensures Valid()
      ensures row == if old(index) < |accIter| then Some(accIter[old(index)]) else None
      ensures accIter[index..] == if old(index) < |accIter| then accIter[old(index)..][1..] else []
    {
      if index < |accIter| {
        row := Some(accIter[index]);
        index := index + 1;
      } else {
        row := None;
      }
    }

    /** Start over; allowed only when rewinding was asked for. */
    method Rewind()
      requires Valid() && willRewind
      modifies this`index
      ensures Valid() && accIter[index..] == accIter
    {
      index := 0;
    }
  }

  /** The keys of the hash map, taken in any order and sorted. */
  method SortedKeys(keys: set<Key>) returns (ks: seq<Key>)
    ensures Ascending(ks) && forall k :: k in ks <==> k in keys
  {
    ks := [];
    var left := keys;
    while left != {}
      invariant left <= keys && Ascending(ks) && forall k :: k in ks <==> k in keys - left
      decreases left
    {
      var k :| k in left;
      PlaceKeyAscending(ks, k);
      ks := PlaceKey(ks, k);
      left := left - {k};
    }
  }

  lemma KeysAre(items: seq<Item>, ks: seq<Key>)
    requires Ascending(ks) && forall k :: k in ks <==> Group(items, k) != []
    ensures ks == KeysOf(items)
  {
    KeysOfAre(items);
    AscendingUnique(ks, KeysOf(items));
  }

  lemma RowIs(ops: seq<AggOp>, avg: Average, items: seq<Item>, acc: Acc, k: Key)
    requires Wide(|ops|, items) && Accumulated(ops, items, acc) && Computable(ops, items)
    requires Group(items, k) != [] && k in acc && |acc[k].1| == |ops|
    ensures k + FinalsTo(ops, avg, acc[k].0, acc[k].1, |ops|) == GroupRow(ops, avg, items, k)
    ensures GroupFinishes(ops, items, k) <==> AllAveraged(ops, acc[k].1)
  {
    hide Group, Folds, FinalsTo, AllAveraged;
    assert GroupIs(ops, items, acc, k);
  }

  lemma OnlyGroups(ops: seq<AggOp>, items: seq<Item>, keys: seq<Key>)
    requires Wide(|ops|, items) && Computable(ops, items)
    requires forall k :: k in keys <==> Group(items, k) != []
    ensures (forall k | k in keys :: GroupFinishes(ops, items, k)) <==> Finishes(ops, items)
  {
    hide Folds, Group, Computable;
    if forall k | k in keys :: GroupFinishes(ops, items, k) {
      forall k: Key ensures GroupFinishes(ops, items, k) {
        assert k !in keys ==> Group(items, k) == [];
      }
    }
  }

  lemma KeysInAcc(ops: seq<AggOp>, items: seq<Item>, acc: Acc)
    requires Wide(|ops|, items) && Accumulated(ops, items, acc)
    ensures forall k :: k in acc <==> Group(items, k) != []
    ensures forall k | k in acc :: |acc[k].1| == |ops|
  {
    forall k: Key ensures (k in acc <==> Group(items, k) != []) && (k in acc ==> |acc[k].1| == |ops|) {
      assert GroupIs(ops, items, acc, k);
    }
  }

  lemma NoItems(ops: seq<AggOp>, items: seq<Item>)
    requires items == []
    ensures Accumulated(ops, items, map[])
  {
    forall k ensures GroupIs(ops, items, map[], k) {
    }
  }

  lemma {:induction false} StillFails(ops: seq<AggOp>, items: seq<Item>, i: nat)
    requires Wide(|ops|, items) && i <= |items| && !Computable(ops, items[..i])
    ensures !Computable(ops, items)
    decreases |items| - i
  {
    if i == |items| {
      assert items[..i] == items;
    } else {
      assert items[..i + 1] == items[..i] + [items[i]];
      ComputablePrefix(ops, items[..i], items[i]);
      StillFails(ops, items, i + 1);
    }
  }

  lemma AccumulatedComputes(ops: seq<AggOp>, items: seq<Item>, acc: Acc)
    requires Wide(|ops|, items) && Accumulated(ops, items, acc)
    ensures Computable(ops, items)
  {
    forall k ensures Computes(ops, items, k) {
      assert GroupIs(ops, items, acc, k);
    }
  }
}
