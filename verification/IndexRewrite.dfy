/** Scans turned into index scans. */
module IndexRewrite {
  import opened Bags
  import opened Base
  import opened Exprs
  import opened PlanModel
  import opened QueryMeaning
  import opened Scopes

  function ReplaceScan(p: Logical, index: nat, key: Key): (r: Logical) {
    match p
    case LScan(t, cols) => LIndexScan(t, cols, index, Literals(key), None)
    case LRename(src, names) => LRename(ReplaceScan(src, index, key), names)
    case _ => p
  }

  // ------------------------------------------------------------------ meaning, one base row at a time

  /** What a scan makes of a base row. */
  ghost function RowOf(p: Logical, row: Row): (r: Named) {
    map id | id in Columns(p) :: At(row, Columns(p)[id])
  }

  ghost function RowsOf(p: Logical): (f: Row -> seq<Named>) {
    (row: Row) => [RowOf(p, row)]
  }

  lemma RenamedRow(names: map<ColId, ColId>, src: Logical, row: Row)
    ensures Renamed(names, RowOf(src, row)) == RowOf(LRename(src, names), row)
  {
  }

  lemma {:induction false} ScanFlat(t: TableId, cols: seq<ColId>, rows: seq<Row>)
    ensures ScanRows(cols, rows) == Flat(RowsOf(LScan(t, cols)), rows)
  {
    if rows == [] {
    } else {
      ScanFlat(t, cols, rows[1..]);
      ScanCons(cols, rows[0], rows[1..]);
      assert rows == [rows[0]] + rows[1..];
      assert ScanRow(cols, rows[0]) == RowOf(LScan(t, cols), rows[0]);
    }
  }

  lemma {:induction false} RenameFlat(names: map<ColId, ColId>, src: Logical, rows: seq<Row>)
    ensures Flat(Renaming(names), Flat(RowsOf(src), rows)) == Flat(RowsOf(LRename(src, names)), rows)
  {
    hide RowOf, Renamed, Columns;
    if rows == [] {
    } else {
      RenameFlat(names, src, rows[1..]);
      RenamedRow(names, src, rows[0]);
      FlatCat(Renaming(names), [RowOf(src, rows[0])], Flat(RowsOf(src), rows[1..]));
      FlatOne(Renaming(names), RowOf(src, rows[0]));
    }
  }

  /** A scan yields its table row by row, before the rewrite and, for the rows with the key, after it. */
  lemma {:induction false} SourceRows(w: World, outer: Named, p: Logical, index: nat, key: Key)
    requires FindScan(p).Some?
    ensures LogicalRows(w, outer, p) == Flat(RowsOf(p), w.db(FindScan(p).value))
    ensures LogicalRows(w, outer, ReplaceScan(p, index, key))
      == Flat(RowsOf(p), RowsWithKey(w.db(FindScan(p).value), w.keyColumns(index), key))
  {
    hide RowsWithKey, RowsOf, Flat, ScanRows;
    var rows := w.db(FindScan(p).value);
    var found := RowsWithKey(rows, w.keyColumns(index), key);
    match p
    case LScan(t, cols) =>
      ScanFlat(t, cols, rows);
      ScanFlat(t, cols, found);
    case LRename(src, names) =>
      SourceRows(w, outer, src, index, key);
      RenameFlat(names, src, rows);
      RenameFlat(names, src, found);
  }

  // ------------------------------------------------------------------ what the conjuncts say

  /** `column = literal`, in either order. */
  function ColumnEq(e: Expr): (r: Option<(ColId, Field)>) {
    if e.Binary? && e.op == Eq then
      if e.left.ColRef? && e.right.Lit? then Some((e.left.id, e.right.val))
      else if e.left.Lit? && e.right.ColRef? then Some((e.right.id, e.left.val))
      else None
    else None
  }

  /** Conjunct `i` was found to say that position `c` of table `t` has value `v`. */
  predicate Constrains(found: seq<Answer>, t: TableId, conjs: seq<Expr>, i: nat, c: nat, v: Field) {
    && i < |conjs| == |found| && ColumnEq(conjs[i]).Some? && ColumnEq(conjs[i]).value.1 == v
    && found[i] == BaseColumn(t, c)
  }

  /** The answers that lead to the scanned table are right: each column is the plan's own, at that position. */
  ghost predicate Honest(found: seq<Answer>, conjs: seq<Expr>, p: Logical) {
    && |found| == |conjs|
    && forall i, c: nat | 0 <= i < |conjs| && ColumnEq(conjs[i]).Some? && FindScan(p).Some?
       && found[i] == BaseColumn(FindScan(p).value, c) ::
       ColumnEq(conjs[i]).value.0 in Columns(p) && Columns(p)[ColumnEq(conjs[i]).value.0] == c
  }

  lemma EqHolds(fp: Rounded, conj: Expr, r: Named)
    requires ColumnEq(conj).Some? && ColumnEq(conj).value.0 in r
    ensures Holds(fp, conj, EnvOf(r)) <==> r[ColumnEq(conj).value.0] == ColumnEq(conj).value.1
  {
    var (id, v) := ColumnEq(conj).value;
    assert Value(fp, ColRef(id), EnvOf(r)) == Some(r[id]) && Value(fp, Lit(v), EnvOf(r)) == Some(v);
  }

  lemma ConstrainsMeans(fp: Rounded, outer: Named, found: seq<Answer>, p: Logical, conjs: seq<Expr>, i: nat, c: nat,
      v: Field, row: Row)
    requires FindScan(p).Some? && Honest(found, conjs, p) && Constrains(found, FindScan(p).value, conjs, i, c, v)
    ensures Holds(fp, conjs[i], EnvOf(outer + RowOf(p, row))) <==> At(row, c) == v
  {
    hide Holds;
    EqHolds(fp, conjs[i], outer + RowOf(p, row));
  }

  // ------------------------------------------------------------------ the rewrite

  type Resolved = map<nat, (Field, nat)>

  /** For each position of the table constrained by the first `n` conjuncts, the value and the conjunct; a later one wins. */
  function ResolvedTo(found: seq<Answer>, t: TableId, conjs: seq<Expr>, n: nat): (m: Resolved)
    requires n <= |conjs| == |found|
  {
    if n == 0 then map[]
    else
      var m, pair := ResolvedTo(found, t, conjs, n - 1), ColumnEq(conjs[n - 1]);
      if pair.Some? && found[n - 1].BaseColumn? && found[n - 1].table == t then
        m[found[n - 1].index := (pair.value.1, n - 1)]
      else m
  }

  /** Every entry names one of the first `n` conjuncts, which says what the entry says. */
  ghost predicate Backed(found: seq<Answer>, t: TableId, conjs: seq<Expr>, m: Resolved, n: nat) {
    forall c: nat | c in m :: m[c].1 < n && Constrains(found, t, conjs, m[c].1, c, m[c].0)
  }

  lemma {:induction false} ResolvedBacked(found: seq<Answer>, t: TableId, conjs: seq<Expr>, n: nat)
    requires n <= |conjs| == |found|
    ensures Backed(found, t, conjs, ResolvedTo(found, t, conjs, n), n)
  {
    if n == 0 {
    } else {
      ResolvedBacked(found, t, conjs, n - 1);
      var m0 := ResolvedTo(found, t, conjs, n - 1);
      assert Backed(found, t, conjs, m0, n);
      var pair, a := ColumnEq(conjs[n - 1]), found[n - 1];
      if pair.Some? && a.BaseColumn? && a.table == t {
        assert Constrains(found, t, conjs, n - 1, a.index, pair.value.1);
        assert Backed(found, t, conjs, m0[a.index := (pair.value.1, n - 1)], n);
      }
    }
  }

  predicate Covers(m: Resolved, columns: seq<nat>) {
    forall c | c in columns :: c in m
  }

  /** The first index all of whose columns are constrained. */
  function FirstCovered(m: Resolved, infos: seq<IndexInfo>): (r: Option<IndexInfo>)
    ensures r.Some? ==> r.value in infos && Covers(m, r.value.columns)
  {
    if infos == [] then None
    else if Covers(m, infos[0].columns) then Some(infos[0])
    else FirstCovered(m, infos[1..])
  }

  /** The key made up from the constraints on an index's columns. */
  function KeyFor(m: Resolved, columns: seq<nat>): (key: Key)
    requires Covers(m, columns)
    ensures |key| == |columns|
  {
    seq(|columns|, j requires 0 <= j < |columns| => assert columns[j] in columns; m[columns[j]].0)
  }

  /** The conjuncts that make up the key. */
  function UsedBy(m: Resolved, columns: seq<nat>): (used: set<nat>)
    requires Covers(m, columns)
  {
    set c | c in columns :: m[c].1
  }

  /** The conjuncts before `n` that are not used. */
  function Residual(conjs: seq<Expr>, used: set<nat>, n: nat): (r: seq<Expr>)
    requires n <= |conjs|
  {
    if n == 0 then [] else Residual(conjs, used, n - 1) + if n - 1 in used then [] else [conjs[n - 1]]
  }

  lemma {:induction false} ResidualHolds(fp: Rounded, conjs: seq<Expr>, used: set<nat>, n: nat, env: Env)
    requires n <= |conjs|
    ensures AllHold(fp, conjs[..n], env)
      <==> AllHold(fp, Residual(conjs, used, n), env) && forall i | i in used && i < n :: Holds(fp, conjs[i], env)
  {
    hide Holds;
    if n == 0 {
    } else {
      ResidualHolds(fp, conjs, used, n - 1, env);
      assert conjs[..n] == conjs[..n - 1] + [conjs[n - 1]];
      AllHoldCat(fp, conjs[..n - 1], [conjs[n - 1]], env);
      AllHoldCat(fp, Residual(conjs, used, n - 1), [conjs[n - 1]], env);
      assert [conjs[n - 1]][0] == conjs[n - 1];
      assert Residual(conjs, used, n - 1) + [] == Residual(conjs, used, n - 1);
    }
  }

  /** One index, fully constrained: its key holds on a row exactly when the used conjuncts do. */
  lemma KeyMeans(fp: Rounded, outer: Named, found: seq<Answer>, p: Logical, conjs: seq<Expr>, m: Resolved,
      cols: seq<nat>, row: Row)
    requires FindScan(p).Some? && Honest(found, conjs, p) && Covers(m, cols)
    requires Backed(found, FindScan(p).value, conjs, m, |conjs|)
    ensures ExtractKey(row, cols) == KeyFor(m, cols)
      <==> forall i | i in UsedBy(m, cols) && i < |conjs| :: Holds(fp, conjs[i], EnvOf(outer + RowOf(p, row)))
  {
    hide Holds, Honest, RowOf;
    var key := KeyFor(m, cols);
    forall j | 0 <= j < |cols|
      ensures Holds(fp, conjs[m[cols[j]].1], EnvOf(outer + RowOf(p, row))) <==> At(row, cols[j]) == key[j]
    {
      assert cols[j] in cols;
      ConstrainsMeans(fp, outer, found, p, conjs, m[cols[j]].1, cols[j], m[cols[j]].0, row);
    }
    if ExtractKey(row, cols) == key {
      forall i | i in UsedBy(m, cols) && i < |conjs| ensures Holds(fp, conjs[i], EnvOf(outer + RowOf(p, row))) {
        var c :| c in cols && m[c].1 == i;
        var j :| 0 <= j < |cols| && cols[j] == c;
        assert ExtractKey(row, cols)[j] == At(row, cols[j]);
      }
    } else {
      var j :| 0 <= j < |cols| && ExtractKey(row, cols)[j] != key[j];
      assert cols[j] in cols && m[cols[j]].1 in UsedBy(m, cols);
    }
  }

  /** The rewritten plan and the conjuncts that remain. */
  function Rewrite(p: Logical, conjs: seq<Expr>, found: seq<Answer>, infos: seq<IndexInfo>): (r: (Logical, seq<Expr>))
    requires |found| == |conjs|
  {
    var t := FindScan(p);
    if t.None? then (p, conjs)
    else
      var m := ResolvedTo(found, t.value, conjs, |conjs|);
      var info := FirstCovered(m, infos);
      if m == map[] || info.None? then (p, conjs)
      else
        var cols := info.value.columns;
        (ReplaceScan(p, info.value.id, KeyFor(m, cols)), Residual(conjs, UsedBy(m, cols), |conjs|))
  }

  ghost predicate InfosAgree(w: World, infos: seq<IndexInfo>) {
    forall info | info in infos :: w.keyColumns(info.id) == info.columns
  }

  /** On one base row the conjuncts hold exactly when the row has the key and the residual holds. */
  ghost predicate Decides(fp: Rounded, outer: Named, p: Logical, conjs: seq<Expr>, residual: seq<Expr>,
      cols: seq<nat>, key: Key, row: Row) {
    var env := EnvOf(outer + RowOf(p, row));
    AllHold(fp, conjs, env) <==> (ExtractKey(row, cols) == key && AllHold(fp, residual, env))
  }

  /** On one base row: the conjuncts hold exactly when the row has the key and the residual holds. */
  lemma RewriteRow(fp: Rounded, outer: Named, p: Logical, conjs: seq<Expr>, found: seq<Answer>, m: Resolved,
      cols: seq<nat>, row: Row)
    requires FindScan(p).Some? && Honest(found, conjs, p) && Covers(m, cols)
    requires Backed(found, FindScan(p).value, conjs, m, |conjs|)
    ensures Decides(fp, outer, p, conjs, Residual(conjs, UsedBy(m, cols), |conjs|), cols, KeyFor(m, cols), row)
  {
    hide Honest, Holds, AllHold, KeyFor, UsedBy, Residual, RowOf, Backed, Covers;
    KeyMeans(fp, outer, found, p, conjs, m, cols, row);
    ResidualHolds(fp, conjs, UsedBy(m, cols), |conjs|, EnvOf(outer + RowOf(p, row)));
    assert conjs[..|conjs|] == conjs;
  }

  /** Looking the key up and filtering by the residual is filtering all rows by the conjuncts. */
  lemma {:induction false} FilteredAlike(fp: Rounded, outer: Named, p: Logical, conjs: seq<Expr>,
      residual: seq<Expr>, cols: seq<nat>, key: Key, rows: seq<Row>)
    requires forall i | 0 <= i < |rows| :: Decides(fp, outer, p, conjs, residual, cols, key, rows[i])
    ensures Flat(Keeping(fp, outer, residual), Flat(RowsOf(p), RowsWithKey(rows, cols, key)))
      == Flat(Keeping(fp, outer, conjs), Flat(RowsOf(p), rows))
  {
    hide AllHold, RowOf, ExtractKey;
    if rows == [] {
    } else {
      FilteredAlike(fp, outer, p, conjs, residual, cols, key, rows[1..]);
      assert Decides(fp, outer, p, conjs, residual, cols, key, rows[0]);
      var r := RowOf(p, rows[0]);
      FlatCat(Keeping(fp, outer, conjs), [r], Flat(RowsOf(p), rows[1..]));
      FlatOne(Keeping(fp, outer, conjs), r);
      var rest := RowsWithKey(rows[1..], cols, key);
      if ExtractKey(rows[0], cols) == key {
        assert ([rows[0]] + rest)[1..] == rest;
        FlatCat(Keeping(fp, outer, residual), [r], Flat(RowsOf(p), rest));
        FlatOne(Keeping(fp, outer, residual), r);
      } else {
        assert [] + rest == rest;
      }
    }
  }

  /**
   * Where the answers are right, the rewritten query yields what the query yields: for every table content,
   * every enclosing row, every list of conjuncts and every set of indexes.
   */
  lemma RewritePreserves(w: World, outer: Named, p: Logical, conjs: seq<Expr>, found: seq<Answer>,
      infos: seq<IndexInfo>)
    requires InfosAgree(w, infos) && Honest(found, conjs, p)
    ensures var (p', residual) := Rewrite(p, conjs, found, infos);
      LogicalRows(w, outer, LSelect(p', residual)) == LogicalRows(w, outer, LSelect(p, conjs))
  {
    var t := FindScan(p);
    if t.Some? {
      var m := ResolvedTo(found, t.value, conjs, |conjs|);
      ResolvedBacked(found, t.value, conjs, |conjs|);
      var info := FirstCovered(m, infos);
      if info.Some? {
        LookedUp(w, outer, p, conjs, found, m, info.value);
      }
    }
  }

  lemma LookedUp(w: World, outer: Named, p: Logical, conjs: seq<Expr>, found: seq<Answer>, m: Resolved, info: IndexInfo)
    requires FindScan(p).Some? && Honest(found, conjs, p) && Covers(m, info.columns) && w.keyColumns(info.id) == info.columns
    requires Backed(found, FindScan(p).value, conjs, m, |conjs|)
    ensures LogicalRows(w, outer,
        LSelect(ReplaceScan(p, info.id, KeyFor(m, info.columns)), Residual(conjs, UsedBy(m, info.columns), |conjs|)))
      == LogicalRows(w, outer, LSelect(p, conjs))
  {
    hide Honest, AllHold, KeyFor, UsedBy, Residual, RowOf, Backed, Covers, Flat, RowsWithKey, ReplaceScan;
    var cols, key := info.columns, KeyFor(m, info.columns);
    var residual, rows := Residual(conjs, UsedBy(m, cols), |conjs|), w.db(FindScan(p).value);
    SourceRows(w, outer, p, info.id, key);
    forall i | 0 <= i < |rows| ensures Decides(w.fp, outer, p, conjs, residual, cols, key, rows[i]) {
      RewriteRow(w.fp, outer, p, conjs, found, m, cols, rows[i]);
    }
    FilteredAlike(w.fp, outer, p, conjs, residual, cols, key, rows);
  }

  // ------------------------------------------------------------------ the loops

  /** What asking for the origins of the conjuncts' columns can give. */
  ghost predicate Asked(tables: Tables, s: Scope, conjs: seq<Expr>, found: seq<Answer>)
    requires Grounded(s)
  {
    |found| == |conjs| &&
    forall i | 0 <= i < |conjs| && ColumnEq(conjs[i]).Some? :: Leads(tables, s, ColumnEq(conjs[i]).value.0, found[i])
  }

  ghost predicate Panicked(conjs: seq<Expr>, found: seq<Answer>)
    requires |found| == |conjs|
  {
    exists i | 0 <= i < |conjs| :: ColumnEq(conjs[i]).Some? && found[i] == Panics
  }

  method Resolve(tables: Tables, s: Scope, t: TableId, conjs: seq<Expr>)
    returns (m: Option<Resolved>, ghost found: seq<Answer>)
    requires Grounded(s)
    ensures m.Some? ==> Asked(tables, s, conjs, found) && !Panicked(conjs, found) && m.value == ResolvedTo(found, t, conjs, |conjs|)
    ensures m.None? ==> exists i | 0 <= i < |conjs| ::
      ColumnEq(conjs[i]).Some? && Leads(tables, s, ColumnEq(conjs[i]).value.0, Panics)
  {
    var resolved: Resolved := map[];
    found := [];
    for i := 0 to |conjs|
      invariant |found| == i
      invariant forall j | 0 <= j < i && ColumnEq(conjs[j]).Some? ::
        Leads(tables, s, ColumnEq(conjs[j]).value.0, found[j]) && found[j] != Panics
      invariant resolved == ResolvedTo(found, t, conjs[..i], i)
    {
      ghost var before := found;
      var pair := ColumnEq(conjs[i]);
      if pair.Some? {
        var a := GetOrigin(tables, s, pair.value.0);
        if a == Panics {
          return None, found;
        }
        if a.BaseColumn? && a.table == t {
          resolved := resolved[a.index := (pair.value.1, i)];
        }
        found := found + [a];
      } else {
        found := found + [NoColumn];
      }
      ResolvedMore(before, found[i], t, conjs, i);
    }
    assert conjs[..|conjs|] == conjs;
    m := Some(resolved);
  }

  lemma {:induction false} ResolvedPrefix(found: seq<Answer>, more: seq<Answer>, t: TableId, conjs: seq<Expr>,
      others: seq<Expr>, n: nat)
    requires n <= |found| == |conjs| && |more| == |others|
    ensures ResolvedTo(found + more, t, conjs + others, n) == ResolvedTo(found, t, conjs, n)
  {
    if n == 0 {
    } else {
      ResolvedPrefix(found, more, t, conjs, others, n - 1);
    }
  }

  lemma ResolvedMore(found: seq<Answer>, a: Answer, t: TableId, conjs: seq<Expr>, i: nat)
    requires |found| == i < |conjs|
    ensures ResolvedTo(found + [a], t, conjs[..i + 1], i) == ResolvedTo(found, t, conjs[..i], i)
  {
    assert conjs[..i + 1] == conjs[..i] + [conjs[i]];
    ResolvedPrefix(found, [a], t, conjs[..i], [conjs[i]], i);
  }

  /** The loops that carry the rewrite out; nothing when an origin cannot be found, which panics. */
  method TryIndexRewrite(tables: Tables, s: Scope, p: Logical, conjs: seq<Expr>, infos: seq<IndexInfo>)
    returns (r: Option<(Logical, seq<Expr>)>, ghost found: seq<Answer>)
    requires Grounded(s)
    ensures FindScan(p).None? ==> r == Some((p, conjs))
    ensures FindScan(p).Some? && r.Some? ==>
      Asked(tables, s, conjs, found) && !Panicked(conjs, found) && r.value == Rewrite(p, conjs, found, infos)
    ensures r.None? ==> exists i | 0 <= i < |conjs| ::
      ColumnEq(conjs[i]).Some? && Leads(tables, s, ColumnEq(conjs[i]).value.0, Panics)
  {
    found := [];
    var t := FindScan(p);
    if t.None? {
      return Some((p, conjs)), found;
    }
    var resolved;
    resolved, found := Resolve(tables, s, t.value, conjs);
    if resolved.None? {
      return None, found;
    }
    var m := resolved.value;
    if m == map[] {
      return Some((p, conjs)), found;
    }
    for k := 0 to |infos|
      invariant FirstCovered(m, infos) == FirstCovered(m, infos[k..])
    {
      var info := infos[k];
      if Covers(m, info.columns) {
        var key, used := BuildKey(m, info.columns);
        var residual := [];
        for i := 0 to |conjs|
          invariant residual == Residual(conjs, used, i)
        {
          if i !in used {
            residual := residual + [conjs[i]];
          }
        }
        return Some((ReplaceScan(p, info.id, key), residual)), found;
      }
    }
    return Some((p, conjs)), found;
  }

  method BuildKey(m: Resolved, columns: seq<nat>) returns (key: Key, used: set<nat>)
    requires Covers(m, columns)
    ensures key == KeyFor(m, columns) && used == UsedBy(m, columns)
  {
    key, used := [], {};
    for j := 0 to |columns|
      invariant key == KeyFor(m, columns)[..j]
      invariant forall i :: i in used <==> exists k :: 0 <= k < j && m[columns[k]].1 == i
    {
      assert columns[j] in columns;
      var (val, i) := m[columns[j]];
      key, used := key + [val], used + {i};
    }
  }
}
