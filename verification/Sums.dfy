/** Sums of integers and decimals of mixed scales: when they overflow, and that their order does not matter. */
module Sums {
  import opened Bags
  import opened Base
  import opened Exprs
  import opened Decimals
  import opened AggSpec

  predicate Numeric(f: Field) {
    f.BigInt? || f.Decimal?
  }

  predicate AllNumeric(vals: seq<Field>) {
    forall i | 0 <= i < |vals| :: Numeric(vals[i])
  }

  function Larger(a: nat, b: nat): (c: nat) {
    if a > b then a else b
  }

  /** The largest scale among the values. */
  function TopScale(vals: seq<Field>): (s: nat)
    requires AllNumeric(vals)
  {
    if vals == [] then 0 else Larger(TopScale(vals[..|vals| - 1]), Units(vals[|vals| - 1]).1)
  }

  /** One value in units of scale `s`. */
  function UnitsOf(f: Field, s: nat): (n: int) {
    if Numeric(f) && Units(f).1 <= s then Units(f).0 * Pow10(s - Units(f).1) else 0
  }

  /** The total of the values in units of scale `s`. */
  function UnitsAt(vals: seq<Field>, s: nat): (n: int) {
    if vals == [] then 0 else UnitsAt(vals[..|vals| - 1], s) + UnitsOf(vals[|vals| - 1], s)
  }

  predicate HasDecimal(vals: seq<Field>) {
    exists i | 0 <= i < |vals| :: vals[i].Decimal?
  }

  lemma Distribute(x: int, y: int, p: int)
    ensures (x + y) * p == x * p + y * p
  {
  }

  lemma OneRescaled(f: Field, s: nat, d: nat)
    requires Numeric(f) && Units(f).1 <= s
    ensures UnitsOf(f, s + d) == UnitsOf(f, s) * Pow10(d)
  {
    hide Pow10;
    PowAdd(s - Units(f).1, d);
    var u, a, b := Units(f).0, Pow10(s - Units(f).1), Pow10(d);
    assert s + d - Units(f).1 == s - Units(f).1 + d;
    assert u * (a * b) == u * a * b;
  }

  lemma {:induction false} UnitsRescaled(vals: seq<Field>, s: nat, d: nat)
    requires AllNumeric(vals) && TopScale(vals) <= s
    ensures UnitsAt(vals, s + d) == UnitsAt(vals, s) * Pow10(d)
  {
    hide Pow10, UnitsOf;
    if vals == [] {
    } else {
      var n := |vals| - 1;
      UnitsRescaled(vals[..n], s, d);
      OneRescaled(vals[n], s, d);
      Distribute(UnitsAt(vals[..n], s), UnitsOf(vals[n], s), Pow10(d));
    }
  }

  // ------------------------------------------------------------------ what a sum is

  /** Where an addition has a value, it is the total at the larger scale. */
  lemma AddUnits(a: Field, b: Field)
    ensures var r := AddSub((x, y) => x + y, a, b);
      r.Some? ==> (
        && Numeric(a) && Numeric(b) && Numeric(r.value)
        && (r.value.Decimal? <==> a.Decimal? || b.Decimal?)
        && var s := Larger(Units(a).1, Units(b).1); Units(r.value) == (UnitsOf(a, s) + UnitsOf(b, s), s))
  {
    assert Pow10(0) == 1;
  }

  predicate Summing(op: AggOp) {
    op.Sum? || op.Avg?
  }

  lemma TopIs(vals: seq<Field>)
    requires vals != [] && AllNumeric(vals)
    ensures AllNumeric(vals[..|vals| - 1])
    ensures TopScale(vals) == Larger(TopScale(vals[..|vals| - 1]), Units(vals[|vals| - 1]).1)
  {
  }

  /** A sum that has a value is the total of its values, at their largest scale. */
  lemma {:induction false} SumIs(op: AggOp, vals: seq<Field>)
    requires Summing(op) && |vals| >= 2 && Fold(op, vals).Some?
    ensures AllNumeric(vals) && Numeric(Fold(op, vals).value)
    ensures Units(Fold(op, vals).value) == (UnitsAt(vals, TopScale(vals)), TopScale(vals))
    ensures Fold(op, vals).value.Decimal? <==> HasDecimal(vals)
  {
    hide AddSub, UnitsOf, Pow10;
    var n := |vals| - 1;
    var before, last := vals[..n], vals[n];
    var acc := Fold(op, before).value;
    AddUnits(acc, last);
    if n == 1 {
      assert before == [vals[0]];
      OneIs(vals[0]);
    } else {
      SumIs(op, before);
    }
    TopIs(vals);
    SumStep(before, last, acc);
  }

  lemma OneIs(f: Field)
    requires Numeric(f)
    ensures AllNumeric([f]) && TopScale([f]) == Units(f).1 && UnitsAt([f], Units(f).1) == Units(f).0
    ensures HasDecimal([f]) <==> f.Decimal?
  {
    assert [f][..0] == [] && Pow10(0) == 1;
    assert [f][0] == f;
  }

  lemma SumStep(before: seq<Field>, last: Field, acc: Field)
    requires AllNumeric(before) && Numeric(last) && Numeric(acc)
    requires Units(acc) == (UnitsAt(before, TopScale(before)), TopScale(before)) && (acc.Decimal? <==> HasDecimal(before))
    ensures var s := Larger(TopScale(before), Units(last).1);
      UnitsOf(acc, s) + UnitsOf(last, s) == UnitsAt(before + [last], s)
    ensures HasDecimal(before + [last]) <==> acc.Decimal? || last.Decimal?
  {
    hide Pow10;
    var s, t := Larger(TopScale(before), Units(last).1), TopScale(before);
    UnitsRescaled(before, t, s - t);
    assert (before + [last])[..|before|] == before && (before + [last])[|before|] == last;
    if HasDecimal(before) {
      var i :| 0 <= i < |before| && before[i].Decimal?;
      assert (before + [last])[i].Decimal?;
    }
  }

  // ------------------------------------------------------------------ when it overflows

  /** Every running total, at the largest scale so far, and every power of ten it takes, stays within 64 bits. */
  predicate RunningFits(vals: seq<Field>)
    requires AllNumeric(vals)
  {
    |vals| <= 1 ||
    var n := |vals| - 1;
    var before, s, t := vals[..n], TopScale(vals), TopScale(vals[..n]);
    && RunningFits(before)
    && (t <= s ==> Scales(UnitsAt(before, t), s - t))
    && (Units(vals[n]).1 <= s ==> Scales(Units(vals[n]).0, s - Units(vals[n]).1))
    && Fit(UnitsAt(vals, s)).Some?
  }

  /** A sum has a value if and only if every number on the way fits 64 bits. */
  lemma {:induction false} SumIff(op: AggOp, vals: seq<Field>)
    requires Summing(op) && vals != [] && AllNumeric(vals) && forall i | 0 <= i < |vals| :: Decimals.Wide(vals[i])
    ensures Fold(op, vals).Some? <==> RunningFits(vals)
    ensures Fold(op, vals).Some? ==> Decimals.Wide(Fold(op, vals).value)
  {
    hide AddSub, Scales, Pow10;
    var n := |vals| - 1;
    if n == 0 {
    } else {
      var before, last := vals[..n], vals[n];
      SumIff(op, before);
      TopIs(vals);
      if Fold(op, before).Some? {
        var acc := Fold(op, before).value;
        if n == 1 {
          assert before == [vals[0]];
          OneIs(vals[0]);
        } else {
          SumIs(op, before);
        }
        AddSubUnits((x, y) => x + y, acc, last);
        StepUnits(before, last, acc);
        assert vals == before + [last];
      }
    }
  }

  lemma StepUnits(before: seq<Field>, last: Field, acc: Field)
    requires AllNumeric(before) && Numeric(last) && Numeric(acc)
    requires Units(acc) == (UnitsAt(before, TopScale(before)), TopScale(before)) && (acc.Decimal? <==> HasDecimal(before))
    ensures var (x, a) := Units(acc); var (y, b) := Units(last); var s := Larger(a, b);
      x * Pow10(s - a) + y * Pow10(s - b) == UnitsAt(before + [last], s)
  {
    SumStep(before, last, acc);
  }

  // ------------------------------------------------------------------ the order does not matter

  lemma {:induction false} UnitsTakeOut(vals: seq<Field>, s: nat, i: nat)
    requires i < |vals|
    ensures UnitsAt(vals, s) == UnitsOf(vals[i], s) + UnitsAt(vals[..i] + vals[i + 1..], s)
  {
    hide UnitsOf;
    var n := |vals| - 1;
    var rest := vals[..i] + vals[i + 1..];
    if i == n {
      assert rest == vals[..n];
    } else {
      UnitsTakeOut(vals[..n], s, i);
      assert rest[..n - 1] == vals[..n][..i] + vals[..n][i + 1..] && rest[n - 1] == vals[n];
    }
  }

  lemma {:induction false} UnitsPermuted(a: seq<Field>, b: seq<Field>, s: nat)
    requires multiset(a) == multiset(b)
    ensures UnitsAt(a, s) == UnitsAt(b, s)
    decreases |a|
  {
    if a == [] {
      EmptyBag(a, b);
    } else {
      var i := IndexOf(b, a[0]);
      SameRest(a, b, i);
      UnitsPermuted(a[1..], b[..i] + b[i + 1..], s);
      UnitsTakeOut(b, s, i);
      UnitsTakeOut(a, s, 0);
      assert a[..0] + a[1..] == a[1..];
    }
  }

  lemma {:induction false} TopMost(vals: seq<Field>)
    requires AllNumeric(vals)
    ensures forall i | 0 <= i < |vals| :: Units(vals[i]).1 <= TopScale(vals)
    ensures vals != [] ==> exists i | 0 <= i < |vals| :: Units(vals[i]).1 == TopScale(vals)
  {
    if vals == [] {
    } else {
      var n := |vals| - 1;
      TopMost(vals[..n]);
      if n == 0 {
        assert vals[..n] == [];
      } else if Units(vals[n]).1 < TopScale(vals) {
        assert vals[..n] != [];
        var i :| 0 <= i < n && Units(vals[..n][i]).1 == TopScale(vals[..n]);
        assert Units(vals[i]).1 == TopScale(vals);
      }
    }
  }

  lemma SameMember(a: seq<Field>, b: seq<Field>, i: nat) returns (j: nat)
    requires multiset(a) == multiset(b) && i < |a|
    ensures j < |b| && b[j] == a[i]
  {
    assert a[i] in multiset(b);
    j :| j < |b| && b[j] == a[i];
  }

  lemma TopNoLess(a: seq<Field>, b: seq<Field>)
    requires multiset(a) == multiset(b) && AllNumeric(a) && AllNumeric(b) && a != []
    ensures TopScale(a) <= TopScale(b)
  {
    TopMost(a);
    TopMost(b);
    var i :| 0 <= i < |a| && Units(a[i]).1 == TopScale(a);
    var j := SameMember(a, b, i);
  }

  lemma DecimalToo(a: seq<Field>, b: seq<Field>)
    requires multiset(a) == multiset(b) && HasDecimal(a)
    ensures HasDecimal(b)
  {
    var i :| 0 <= i < |a| && a[i].Decimal?;
    var j := SameMember(a, b, i);
  }

  /** Two orders of the same values that both have a sum have the same sum. */
  lemma SumPermuted(op: AggOp, a: seq<Field>, b: seq<Field>)
    requires Summing(op) && multiset(a) == multiset(b) && a != [] && b != []
    requires Fold(op, a).Some? && Fold(op, b).Some?
    ensures Fold(op, a) == Fold(op, b)
  {
    hide UnitsAt, TopScale, AddSub;
    assert |a| == |multiset(a)| && |b| == |multiset(b)|;
    if |a| == 1 {
      var j := SameMember(a, b, 0);
    } else {
      SumIs(op, a);
      SumIs(op, b);
      TopNoLess(a, b);
      TopNoLess(b, a);
      UnitsPermuted(a, b, TopScale(a));
      if HasDecimal(a) {
        DecimalToo(a, b);
      }
      if HasDecimal(b) {
        DecimalToo(b, a);
      }
    }
  }
}
