/** The translated operator tree yields, read through its offset map, exactly the rows the plan means. */
module PlanRows {
  import opened Base
  import opened Exprs
  import opened Bytecode
  import opened PlanModel
  import opened PlanCompile

  ghost predicate Inside(m: map<ColId, nat>, n: nat) {
    forall id | id in m :: m[id] < n
  }

  ghost predicate AllWide(rows: seq<Row>, n: nat) {
    forall i | 0 <= i < |rows| :: |rows[i]| == n
  }

  function ReadRows(m: map<ColId, nat>, rows: seq<Row>): (rs: seq<Named>)
    ensures |rs| == |rows|
  {
    seq(|rows|, i requires 0 <= i < |rows| => Read(m, rows[i]))
  }

  // ------------------------------------------------------------------ expressions

  /** A compiled expression computes, on a positional row, the value it has on the named one. */
  lemma ValueAgrees(fp: Rounded, e: Expr, m: map<ColId, nat>, row: Row)
    requires Bound(e, m.Keys) && Inside(m, |row|)
    ensures Eval(fp, Bytecode.Compiled(e, m), row) == Value(fp, e, EnvOf(Read(m, row)))
  {
    CompileCorrect(fp, e, m, row);
    ValueLocal(fp, e, Through(m, RowEnv(row)), EnvOf(Read(m, row)));
  }

  // ------------------------------------------------------------------ filters

  lemma {:induction false} PassingReads(fp: Rounded, e: Expr, m: map<ColId, nat>, rows: seq<Row>, n: nat)
    requires Bound(e, m.Keys) && Inside(m, n) && AllWide(rows, n)
    ensures AllWide(Passing(fp, Bytecode.Compiled(e, m), rows), n)
    ensures ReadRows(m, Passing(fp, Bytecode.Compiled(e, m), rows)) == Filtered(fp, [e], ReadRows(m, rows))
  {
    hide Eval, Value, Bytecode.Compiled, Read;
    if rows == [] {
    } else {
      PassingReads(fp, e, m, rows[1..], n);
      ValueAgrees(fp, e, m, rows[0]);
      OneHolds(fp, e, EnvOf(Read(m, rows[0])));
      assert ReadRows(m, rows)[1..] == ReadRows(m, rows[1..]);
    }
  }

  lemma {:induction false} FilteredTwice(fp: Rounded, a: seq<Expr>, e: Expr, rows: seq<Named>)
    ensures Filtered(fp, [e], Filtered(fp, a, rows)) == Filtered(fp, a + [e], rows)
  {
    hide AllHold;
    if rows == [] {
    } else {
      var r := rows[0];
      FilteredTwice(fp, a, e, rows[1..]);
      AllHoldCat(fp, a, [e], EnvOf(r));
      var rest := Filtered(fp, a, rows[1..]);
      if AllHold(fp, a, EnvOf(r)) {
        assert ([r] + rest)[1..] == rest;
      } else {
        assert Filtered(fp, a, rows) == rest;
      }
    }
  }

  lemma {:induction false} FilteredByNone(fp: Rounded, rows: seq<Named>)
    ensures Filtered(fp, [], rows) == rows
  {
    if rows == [] {
    } else {
      FilteredByNone(fp, rows[1..]);
      assert AllHold(fp, [], EnvOf(rows[0]));
    }
  }

  lemma FiltersLast(w: World, t: Tree, preds: seq<Expr>, m: map<ColId, nat>)
    requires preds != [] && forall e | e in preds :: Supported(e)
    ensures Output(w, Filters(t, preds, m))
      == Passing(w.fp, Bytecode.Compiled(preds[|preds| - 1], m), Output(w, Filters(t, preds[..|preds| - 1], m)))
  {
    hide Bytecode.Compiled, Passing, Supported;
  }

  /** A stack of filters keeps the rows on which all predicates hold. */
  lemma {:induction false} FiltersRead(w: World, t: Tree, preds: seq<Expr>, m: map<ColId, nat>, n: nat)
    requires forall e | e in preds :: Supported(e) && Bound(e, m.Keys)
    requires Inside(m, n) && AllWide(Output(w, t), n)
    ensures AllWide(Output(w, Filters(t, preds, m)), n)
    ensures ReadRows(m, Output(w, Filters(t, preds, m))) == Filtered(w.fp, preds, ReadRows(m, Output(w, t)))
  {
    hide Free, Supported, Bytecode.Compiled, AllWide, ReadRows, Filtered, Passing, Bound;
    if preds == [] {
      FilteredByNone(w.fp, ReadRows(m, Output(w, t)));
    } else {
      var k := |preds| - 1;
      assert preds == preds[..k] + [preds[k]];
      FiltersRead(w, t, preds[..k], m, n);
      assert preds[k] in preds;
      FiltersLast(w, t, preds, m);
      hide Filters, Output;
      PassingReads(w.fp, preds[k], m, Output(w, Filters(t, preds[..k], m)), n);
      FilteredTwice(w.fp, preds[..k], preds[k], ReadRows(m, Output(w, t)));
    }
  }

  // ------------------------------------------------------------------ scans, projections, renamings

  lemma ColumnAt(fp: Rounded, id: ColId, m: map<ColId, nat>, row: Row)
    requires id in m && m[id] < |row|
    ensures Eval(fp, Bytecode.Compiled(ColRef(id), m), row) == Some(row[m[id]])
  {
    CompileCorrect(fp, ColRef(id), m, row);
  }

  lemma PlaceAt(fp: Rounded, i: nat, row: Row)
    requires i < |row|
    ensures Eval(fp, Bytecode.Compiled(ColRef(i), map[]), row) == Some(row[i])
  {
    CompileCorrect(fp, ColRef(i), map[], row);
  }

  lemma ScanReads(fp: Rounded, cols: seq<ColId>, row: Row)
    requires forall id | id in cols :: ColumnIndex(id) < |row|
    ensures var places := seq(|cols|, i requires 0 <= i < |cols| => ColumnIndex(cols[i]));
      Read(Offsets(cols), Computed(fp, ColPrograms(places, map[]), row)) == ScanRow(cols, row)
  {
    hide Eval, Bytecode.Compiled;
    OffsetsAt(cols);
    var places := seq(|cols|, i requires 0 <= i < |cols| => ColumnIndex(cols[i]));
    var out := Computed(fp, ColPrograms(places, map[]), row);
    forall i | 0 <= i < |cols| ensures out[i] == row[ColumnIndex(cols[i])] {
      assert cols[i] in cols;
      PlaceAt(fp, ColumnIndex(cols[i]), row);
    }
  }

  lemma ProjectReads(fp: Rounded, cols: seq<ColId>, m: map<ColId, nat>, row: Row)
    requires (forall id | id in cols :: id in m) && Inside(m, |row|)
    ensures Read(Offsets(cols), Computed(fp, ColPrograms(cols, m), row)) == Projected(cols, Read(m, row))
  {
    hide Eval, Bytecode.Compiled;
    OffsetsAt(cols);
    var out := Computed(fp, ColPrograms(cols, m), row);
    forall i | 0 <= i < |cols| ensures out[i] == row[m[cols[i]]] {
      assert cols[i] in cols;
      ColumnAt(fp, cols[i], m, row);
    }
  }

  lemma RenameReads(names: map<ColId, ColId>, m: map<ColId, nat>, row: Row)
    ensures Read(Renamed(names, m), row) == Renamed(names, Read(m, row))
  {
  }
}
