/** Aggregates that cannot fail. */
module AggSafe {
  import opened Bags
  import opened Base
  import opened Exprs
  import opened Decimals
  import opened AggSpec
  import opened Sums
  import opened AggOrder

  // ------------------------------------------------------------------ averages

  /** A sum is an integer, so that it can be averaged, if and only if every value is. */
  lemma AverageIff(vals: seq<Field>)
    requires vals != [] && Fold(Avg, vals).Some?
    ensures Averaged(Fold(Avg, vals).value) <==> forall i | 0 <= i < |vals| :: Averaged(vals[i])
  {
    hide AddSub;
    if |vals| > 1 {
      SumIs(Avg, vals);
    }
  }

  /** What an aggregate asks of its values: they add up, and those of an average are integers. */
  ghost predicate ColumnFinishes(op: AggOp, vals: seq<Field>)
    requires vals != []
  {
    Fold(op, vals).Some? && (op.Avg? ==> forall i | 0 <= i < |vals| :: Averaged(vals[i]))
  }

  lemma {:induction false} FoldsSome(ops: seq<AggOp>, g: seq<seq<Field>>, n: nat)
    requires Rows(|ops|, g) && n <= |ops|
    ensures FoldsTo(ops, g, n).Some? <==> forall i | 0 <= i < n :: Fold(ops[i], Column(g, i)).Some?
  {
    hide Fold;
    if n == 0 {
    } else {
      FoldsSome(ops, g, n - 1);
    }
  }

  ghost predicate RowsFinish(ops: seq<AggOp>, g: seq<seq<Field>>)
    requires Rows(|ops|, g)
  {
    forall i | 0 <= i < |ops| :: ColumnFinishes(ops[i], Column(g, i))
  }

  lemma GroupIff(ops: seq<AggOp>, g: seq<seq<Field>>)
    requires Rows(|ops|, g)
    ensures RowsFinish(ops, g) <==> Folds(ops, g).Some? && AllAveraged(ops, Folds(ops, g).value)
  {
    hide Fold, FoldsTo;
    FoldsSome(ops, g, |ops|);
    if Folds(ops, g).Some? {
      forall i | 0 <= i < |ops|
        ensures ColumnFinishes(ops[i], Column(g, i)) <==> (ops[i].Avg? ==> Averaged(Folds(ops, g).value[i]))
      {
        FoldsAt(ops, g, |ops|, i);
        if ops[i].Avg? {
          AverageIff(Column(g, i));
        }
      }
    }
  }

  ghost predicate KeyFinishes(ops: seq<AggOp>, items: seq<Item>, k: Key)
    requires AggSpec.Wide(|ops|, items)
  {
    GroupWide(|ops|, items, k);
    Group(items, k) == [] || RowsFinish(ops, Group(items, k))
  }

  /** An aggregation finishes if and only if every column of every group adds up, and integers are averaged. */
  lemma FinishesIff(ops: seq<AggOp>, items: seq<Item>)
    requires AggSpec.Wide(|ops|, items)
    ensures Finishes(ops, items) <==> forall k: Key :: KeyFinishes(ops, items, k)
  {
    hide Group, RowsFinish, Folds, AllAveraged;
    forall k: Key
      ensures KeyFinishes(ops, items, k) ==> Computes(ops, items, k)
      ensures Computable(ops, items) ==> (GroupFinishes(ops, items, k) <==> KeyFinishes(ops, items, k))
    {
      GroupWide(|ops|, items, k);
      if Group(items, k) != [] {
        GroupIff(ops, Group(items, k));
      }
      assert Computable(ops, items) ==> Computes(ops, items, k);
    }
    if forall k: Key :: KeyFinishes(ops, items, k) {
      forall k: Key ensures Computes(ops, items, k) {
        assert KeyFinishes(ops, items, k);
      }
    }
  }

  /** The average of a decimal: every addition has a value, and the query aborts. */
  lemma DecimalAverage(key: Key)
    ensures var items := [Item(key, [Decimal(5, 1)])];
      Computable([Avg], items) && !Finishes([Avg], items)
  {
    var items := [Item(key, [Decimal(5, 1)])];
    assert items[..0] == [];
    assert Group(items, key) == [[Decimal(5, 1)]];
    var g := [[Decimal(5, 1)]];
    assert Column(g, 0) == [Decimal(5, 1)] && Fold(Avg, [Decimal(5, 1)]) == Some(Decimal(5, 1));
    forall k: Key ensures Computes([Avg], items, k) {
      if k == key {
        FoldsSome([Avg], g, 1);
      }
    }
    assert !ColumnFinishes(Avg, Column(g, 0));
    assert !KeyFinishes([Avg], items, key);
    FinishesIff([Avg], items);
  }

  // ------------------------------------------------------------------ sums that fit in any order

  function Abs(x: int): (n: nat) {
    if x < 0 then -x else x
  }

  /** The total of the absolute values in units of scale `s`. */
  function AbsUnits(vals: seq<Field>, s: nat): (n: nat) {
    if vals == [] then 0 else AbsUnits(vals[..|vals| - 1], s) + Abs(UnitsOf(vals[|vals| - 1], s))
  }

  lemma {:induction false} AbsBounds(vals: seq<Field>, s: nat)
    ensures Abs(UnitsAt(vals, s)) <= AbsUnits(vals, s)
  {
    hide UnitsOf;
    if vals == [] {
    } else {
      AbsBounds(vals[..|vals| - 1], s);
    }
  }

  lemma Magnified(x: int, p: nat, y: int)
    requires p >= 1 && y == x * p
    ensures Abs(x) <= Abs(y)
  {
    if x < 0 {
      assert -y == -x * p;
      assert -x * p >= -x * 1;
    } else {
      assert x * p >= x * 1;
    }
  }

  /** At a smaller scale a total has no more units. */
  lemma SmallerTotal(vals: seq<Field>, s: nat, top: nat)
    requires AllNumeric(vals) && TopScale(vals) <= s <= top
    ensures Abs(UnitsAt(vals, s)) <= Abs(UnitsAt(vals, top))
    ensures UnitsAt(vals, s) == UnitsAt(vals, TopScale(vals)) * Pow10(s - TopScale(vals))
  {
    hide Pow10, UnitsAt, TopScale, Abs;
    UnitsRescaled(vals, s, top - s);
    UnitsRescaled(vals, TopScale(vals), s - TopScale(vals));
    Magnified(UnitsAt(vals, s), Pow10(top - s), UnitsAt(vals, top));
  }

  lemma {:induction false} PowGrows(a: nat, b: nat)
    requires a <= b
    ensures Pow10(a) <= Pow10(b)
  {
    if a == b {
    } else {
      PowGrows(a, b - 1);
    }
  }

  lemma SmallerOne(f: Field, s: nat, top: nat)
    requires Numeric(f) && Units(f).1 <= s <= top
    ensures Abs(Units(f).0 * Pow10(s - Units(f).1)) <= Abs(UnitsOf(f, top))
  {
    hide Pow10, Abs;
    OneRescaled(f, s, top - s);
    Magnified(UnitsOf(f, s), Pow10(top - s), UnitsOf(f, top));
  }

  lemma Fits64(x: int)
    requires Abs(x) <= MAX64
    ensures Fit(x).Some?
  {
  }

  /** Values whose absolute units add up within 64 bits never overflow on the way. */
  lemma {:induction false} AbsRunningFits(vals: seq<Field>, top: nat)
    requires AllNumeric(vals) && TopScale(vals) <= top && Pow10(top) <= MAX64 && AbsUnits(vals, top) <= MAX64
    ensures RunningFits(vals)
  {
    if |vals| > 1 {
      hide Pow10, UnitsAt, UnitsOf, Abs, Fit;
      var n := |vals| - 1;
      var before, last, s := vals[..n], vals[n], TopScale(vals);
      var t, u := TopScale(before), Units(last).1;
      TopIs(vals);
      AbsRunningFits(before, top);
      AbsBounds(before, top);
      AbsBounds(vals, top);
      SmallerTotal(before, s, top);
      SmallerTotal(vals, s, top);
      SmallerOne(last, s, top);
      PowGrows(s - t, top);
      PowGrows(s - u, top);
      PowFits(s - t);
      PowFits(s - u);
      Fits64(UnitsAt(before, t) * Pow10(s - t));
      Fits64(Units(last).0 * Pow10(s - u));
      Fits64(UnitsAt(vals, s));
    }
  }

  lemma PowFits(n: nat)
    requires Pow10(n) <= MAX64
    ensures Fit(Pow10(n)).Some?
  {
  }

  /**
   * Values that an aggregate takes in any order: a count within 64 bits; for sums numbers whose absolute units
   * at the largest scale add up within 64 bits, and whose scale is one of a 64-bit power of ten; for averages
   * integers besides.
   */
  ghost predicate SafeColumn(op: AggOp, vals: seq<Field>) {
    match op
    case Count => |vals| <= MAX64
    case Max => true
    case Min => true
    case Sum => SafeSum(vals)
    case Avg => SafeSum(vals) && forall i | 0 <= i < |vals| :: Averaged(vals[i])
  }

  ghost predicate SafeSum(vals: seq<Field>) {
    && AllNumeric(vals) && (forall i | 0 <= i < |vals| :: Decimals.Wide(vals[i]))
    && Pow10(TopScale(vals)) <= MAX64 && AbsUnits(vals, TopScale(vals)) <= MAX64
  }

  lemma SafeFinishes(op: AggOp, vals: seq<Field>)
    requires vals != [] && SafeColumn(op, vals)
    ensures ColumnFinishes(op, vals)
  {
    hide Fold, Pow10, AbsUnits, TopScale, RunningFits;
    match op
    case Count => FoldCount(vals);
    case Max => FoldMax(vals);
    case Min => FoldMin(vals);
    case Sum =>
      AbsRunningFits(vals, TopScale(vals));
      SumIff(Sum, vals);
    case Avg =>
      AbsRunningFits(vals, TopScale(vals));
      SumIff(Avg, vals);
  }

  lemma {:induction false} AbsTakeOut(vals: seq<Field>, s: nat, i: nat)
    requires i < |vals|
    ensures AbsUnits(vals, s) == Abs(UnitsOf(vals[i], s)) + AbsUnits(vals[..i] + vals[i + 1..], s)
  {
    hide UnitsOf, Abs;
    var n := |vals| - 1;
    var rest := vals[..i] + vals[i + 1..];
    if i == n {
      assert rest == vals[..n];
    } else {
      AbsTakeOut(vals[..n], s, i);
      assert rest[..n - 1] == vals[..n][..i] + vals[..n][i + 1..] && rest[n - 1] == vals[n];
    }
  }

  lemma {:induction false} AbsPermuted(a: seq<Field>, b: seq<Field>, s: nat)
    requires multiset(a) == multiset(b)
    ensures AbsUnits(a, s) == AbsUnits(b, s)
    decreases |a|
  {
    hide AbsUnits;
    if a == [] {
      EmptyBag(a, b);
    } else {
      var i := IndexOf(b, a[0]);
      SameRest(a, b, i);
      AbsPermuted(a[1..], b[..i] + b[i + 1..], s);
      AbsTakeOut(b, s, i);
      AbsTakeOut(a, s, 0);
      assert a[..0] + a[1..] == a[1..];
    }
  }

  lemma SafePermuted(op: AggOp, a: seq<Field>, b: seq<Field>)
    requires multiset(a) == multiset(b) && a != [] && SafeColumn(op, a)
    ensures SafeColumn(op, b)
  {
    hide Pow10, AbsUnits, TopScale, Fit;
    assert |a| == |multiset(a)| && |b| == |multiset(b)|;
    if op.Sum? || op.Avg? {
      forall j | 0 <= j < |b| ensures Decimals.Wide(b[j]) && (op.Avg? ==> Averaged(b[j])) {
        var i := SameMember(b, a, j);
      }
      TopNoLess(a, b);
      TopNoLess(b, a);
      AbsPermuted(a, b, TopScale(a));
    }
  }

  ghost predicate SafeKey(ops: seq<AggOp>, items: seq<Item>, k: Key)
    requires AggSpec.Wide(|ops|, items)
  {
    GroupWide(|ops|, items, k);
    Group(items, k) == [] || forall i | 0 <= i < |ops| :: SafeColumn(ops[i], Column(Group(items, k), i))
  }

  /** Every aggregate of every group is safe. */
  ghost predicate Safe(ops: seq<AggOp>, items: seq<Item>)
    requires AggSpec.Wide(|ops|, items)
  {
    forall k: Key :: SafeKey(ops, items, k)
  }

  lemma SafeKeyPermuted(ops: seq<AggOp>, a: seq<Item>, b: seq<Item>, k: Key)
    requires multiset(a) == multiset(b) && AggSpec.Wide(|ops|, a) && AggSpec.Wide(|ops|, b) && SafeKey(ops, a, k)
    ensures KeyFinishes(ops, b, k)
  {
    hide Group, SafeColumn, ColumnFinishes;
    GroupPermuted(a, b, k);
    GroupWide(|ops|, a, k);
    GroupWide(|ops|, b, k);
    if Group(b, k) != [] {
      forall i | 0 <= i < |ops| ensures ColumnFinishes(ops[i], Column(Group(b, k), i)) {
        ColumnPermuted(Group(a, k), Group(b, k), i);
        SafePermuted(ops[i], Column(Group(a, k), i), Column(Group(b, k), i));
        SafeFinishes(ops[i], Column(Group(b, k), i));
      }
    }
  }

  /** Safe aggregates finish, in whatever order the rows come. */
  lemma SafeAnyOrder(ops: seq<AggOp>, a: seq<Item>, b: seq<Item>)
    requires multiset(a) == multiset(b) && AggSpec.Wide(|ops|, a) && AggSpec.Wide(|ops|, b) && Safe(ops, a)
    ensures Finishes(ops, b)
  {
    hide SafeKey, KeyFinishes, Finishes;
    forall k: Key ensures KeyFinishes(ops, b, k) {
      assert SafeKey(ops, a, k);
      SafeKeyPermuted(ops, a, b, k);
    }
    FinishesIff(ops, b);
  }
}
