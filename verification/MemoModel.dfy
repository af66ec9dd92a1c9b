/** Candidates and costs. */
module MemoModel {
  import opened Base
  import opened Exprs
  import opened AggSpec
  import opened PlanModel

  // ------------------------------------------------------------------ alternatives from the catalog

  function FindIndex(infos: seq<IndexInfo>, id: nat): (r: Option<IndexInfo>) {
    if infos == [] then None else if infos[0].id == id then Some(infos[0]) else FindIndex(infos[1..], id)
  }

  /** Equality predicates for the first key columns, by plan column and by table position; nothing if a column is missing. */
  function AltPreds(cols: seq<ColId>, columns: seq<nat>, keys: seq<Expr>): (r: Option<(seq<Expr>, seq<Expr>)>) {
    if columns == [] || keys == [] then Some(([], []))
    else if columns[0] >= |cols| then None
    else
      var rest := AltPreds(cols, columns[1..], keys[1..]);
      if rest.None? then None
      else
        Some(([Binary(Eq, ColRef(cols[columns[0]]), keys[0])] + rest.value.0,
              [Binary(Eq, ColRef(columns[0]), keys[0])] + rest.value.1))
  }

  function AltOf(cat: Option<Catalog>, cid: TableId, cols: seq<ColId>, index: nat,
      keys: seq<Expr>): (r: Option<ScanSelectAlt>) {
    if cat.None? then None
    else
      var info := FindIndex(cat.value(cid), index);
      if info.None? then None
      else
        var preds := AltPreds(cols, info.value.columns, keys);
        if preds.None? then None else Some(ScanSelectAlt(cols, preds.value.0, preds.value.1))
  }

  /** The plan with the alternatives of its index scans; the plan below a mutation is left alone. */
  function Annotate(cat: Option<Catalog>, p: Logical): (r: Logical) {
    match p
    case LScan(_, _) => p
    case LIndexScan(cid, cols, index, keys, _) => LIndexScan(cid, cols, index, keys, AltOf(cat, cid, cols, index, keys))
    case LSelect(src, preds) => LSelect(Annotate(cat, src), preds)
    case LJoin(t, l, r, preds) => LJoin(t, Annotate(cat, l), Annotate(cat, r), preds)
    case LProject(src, cols) => LProject(Annotate(cat, src), cols)
    case LOrderBy(src, order) => LOrderBy(Annotate(cat, src), order)
    case LAggregate(src, groupBy, aggrs) => LAggregate(Annotate(cat, src), groupBy, aggrs)
    case LMap(src, exprs) => LMap(Annotate(cat, src), exprs)
    case LFlatMap(l, r) => LFlatMap(Annotate(cat, l), Annotate(cat, r))
    case LRename(src, names) => LRename(Annotate(cat, src), names)
    case LMutation(_, _) => p
  }

  /** The plan without alternatives. */
  function Strip(p: Logical): (r: Logical) {
    match p
    case LScan(_, _) => p
    case LIndexScan(cid, cols, index, keys, _) => LIndexScan(cid, cols, index, keys, None)
    case LSelect(src, preds) => LSelect(Strip(src), preds)
    case LJoin(t, l, r, preds) => LJoin(t, Strip(l), Strip(r), preds)
    case LProject(src, cols) => LProject(Strip(src), cols)
    case LOrderBy(src, order) => LOrderBy(Strip(src), order)
    case LAggregate(src, groupBy, aggrs) => LAggregate(Strip(src), groupBy, aggrs)
    case LMap(src, exprs) => LMap(Strip(src), exprs)
    case LFlatMap(l, r) => LFlatMap(Strip(l), Strip(r))
    case LRename(src, names) => LRename(Strip(src), names)
    case LMutation(_, _) => p
  }

  lemma {:induction false} StripAnnotate(cat: Option<Catalog>, p: Logical)
    ensures Strip(Annotate(cat, p)) == Strip(p)
  {
    match p
    case LJoin(_, l, r, _) => StripAnnotate(cat, l); StripAnnotate(cat, r);
    case LFlatMap(l, r) => StripAnnotate(cat, l); StripAnnotate(cat, r);
    case LSelect(src, _) => StripAnnotate(cat, src);
    case LProject(src, _) => StripAnnotate(cat, src);
    case LOrderBy(src, _) => StripAnnotate(cat, src);
    case LAggregate(src, _, _) => StripAnnotate(cat, src);
    case LMap(src, _) => StripAnnotate(cat, src);
    case LRename(src, _) => StripAnnotate(cat, src);
    case _ =>
  }

  // ------------------------------------------------------------------ candidates

  predicate Equality(e: Expr) {
    e.Binary? && e.op == Eq
  }

  /** The physical forms of a node over given physical inputs; the first is always there. */
  function Forms(p: Logical, l: Plan, r: Plan): (ps: seq<Plan>)
    ensures ps != []
  {
    match p
    case LScan(cid, cols) => [Scan(cid, cols)]
    case LIndexScan(cid, cols, index, keys, alt) =>
      [IndexScan(cid, cols, index, keys)]
      + if alt.Some? then [Select(Scan(cid, alt.value.planColumns), alt.value.planPreds)] else []
    case LSelect(_, preds) => [Select(l, preds)]
    case LJoin(t, _, _, preds) =>
      var combined := Combine(preds);
      [NestedLoopJoin(t, l, r, [combined])] + if t.Inner? && Equality(combined) then [HashJoin(t, l, r, [combined])] else []
    case LProject(_, cols) => [Project(l, cols)]
    case LOrderBy(_, order) => [Sort(l, order)]
    case LAggregate(_, groupBy, aggrs) => [HashAggregate(l, groupBy, aggrs)]
    case LMap(_, exprs) => [Map(l, exprs)]
    case LFlatMap(_, _) => [FlatMap(l, r)]
    case LRename(_, names) => [Rename(l, names)]
    case LMutation(_, _) => [Mutation(p)]
  }

  predicate TwoInputs(p: Logical) {
    p.LJoin? || p.LFlatMap?
  }

  predicate OneInput(p: Logical) {
    p.LSelect? || p.LProject? || p.LOrderBy? || p.LAggregate? || p.LMap? || p.LRename?
  }

  predicate HasTwo(q: Plan) {
    q.NestedLoopJoin? || q.HashJoin? || q.FlatMap?
  }

  predicate HasOne(q: Plan) {
    q.Select? || q.Project? || q.Sort? || q.HashAggregate? || q.Map? || q.Rename?
  }

  /** Stands for the inputs of a node that has none. */
  function NoInput(): (q: Plan) {
    Scan(0, [])
  }

  /** `q` arises from `p` by choosing one physical form in every group. */
  predicate Candidate(p: Logical, q: Plan) {
    if TwoInputs(p) then
      HasTwo(q) && q in Forms(p, q.left, q.right) && Candidate(p.left, q.left) && Candidate(p.right, q.right)
    else if OneInput(p) then
      HasOne(q) && q in Forms(p, q.src, q.src) && Candidate(p.src, q.src)
    else
      q in Forms(p, NoInput(), NoInput())
  }

  // ------------------------------------------------------------------ costs

  /**
   * The statistics a cost rests on: rows of a table, rows matching predicates given by query column
   * or by table position, and the depth of an index over so many rows.
   */
  datatype Stats = Stats(
    rows: TableId -> real,
    matching: (TableId, seq<Expr>) -> real,
    rawMatching: (TableId, seq<Expr>) -> real,
    depth: real -> real
  ) {
    ghost predicate Valid() {
      && (forall c :: rows(c) >= 0.0)
      && (forall c, ps :: matching(c, ps) >= 0.0)
      && (forall c, ps :: rawMatching(c, ps) >= 0.0)
      && (forall n :: depth(n) >= 0.0)
    }
  }

  const RANDOM_ACCESS_PENALTY: real := 4.0

  function Max(a: real, b: real): (c: real) {
    if a < b then b else a
  }

  /** The tables a plan reads, in the order it names them. */
  function Tables(q: Plan): (ts: seq<TableId>) {
    match q
    case Scan(cid, _) => [cid]
    case IndexScan(cid, _, _, _) => [cid]
    case NestedLoopJoin(_, l, r, _) => Tables(l) + Tables(r)
    case HashJoin(_, l, r, _) => Tables(l) + Tables(r)
    case FlatMap(l, r) => Tables(l) + Tables(r)
    case CrossJoin(l, r, _) => Tables(l) + Tables(r)
    case Mutation(p) => LogicalTables(p)
    case Select(src, _) => Tables(src)
    case Project(src, _) => Tables(src)
    case Sort(src, _) => Tables(src)
    case HashAggregate(src, _, _) => Tables(src)
    case Map(src, _) => Tables(src)
    case Rename(src, _) => Tables(src)
  }

  function LogicalTables(p: Logical): (ts: seq<TableId>) {
    match p
    case LScan(cid, _) => [cid]
    case LIndexScan(cid, _, _, _, _) => [cid]
    case LJoin(_, l, r, _) => LogicalTables(l) + LogicalTables(r)
    case LFlatMap(l, r) => LogicalTables(l) + LogicalTables(r)
    case LSelect(src, _) => LogicalTables(src)
    case LProject(src, _) => LogicalTables(src)
    case LOrderBy(src, _) => LogicalTables(src)
    case LAggregate(src, _, _) => LogicalTables(src)
    case LMap(src, _) => LogicalTables(src)
    case LRename(src, _) => LogicalTables(src)
    case LMutation(_, src) => LogicalTables(src)
  }

  /** The one table named, if no two neighbours in the list differ. */
  function Single(ts: seq<TableId>): (t: Option<TableId>) {
    if ts == [] then None
    else if |ts| == 1 then Some(ts[0])
    else if ts[0] == ts[1] then Single(ts[1..])
    else None
  }

  /** The rows an input brings: its table's, or else everything its siblings and it cost. */
  function InputRows(m: Stats, ts: seq<TableId>, total: real): (n: real) {
    var t := Single(ts);
    if t.Some? then m.rows(t.value) else total
  }

  function OwnCost(m: Stats, q: Plan, total: real): (c: real) {
    match q
    case Scan(cid, _) => m.rows(cid)
    case IndexScan(cid, _, _, _) => m.depth(Max(m.rows(cid), 2.0)) + RANDOM_ACCESS_PENALTY
    case Select(src, preds) =>
      var t := Single(Tables(src));
      if t.Some? then m.matching(t.value, preds) else total
    case NestedLoopJoin(_, l, r, _) => InputRows(m, Tables(l), total) * Max(InputRows(m, Tables(r), total), 1.0)
    case HashJoin(_, l, r, _) => InputRows(m, Tables(l), total) + InputRows(m, Tables(r), total)
    case _ => total
  }

  function CostOf(m: Stats, q: Plan, total: real): (c: real) {
    total + OwnCost(m, q, total)
  }

  function ProbeCost(m: Stats, cid: TableId, raw: seq<Expr>): (c: real) {
    m.depth(Max(m.rows(cid), 2.0)) + m.rawMatching(cid, raw) * RANDOM_ACCESS_PENALTY
  }

  function ScanCost(m: Stats, cid: TableId, raw: seq<Expr>): (c: real) {
    m.rows(cid) + m.rawMatching(cid, raw)
  }

  /** The price of a form of `p` whose inputs cost `total`; an index scan with an alternative is priced by its predicates. */
  function Price(m: Stats, p: Logical, q: Plan, total: real): (c: real) {
    if p.LIndexScan? && p.alt.Some? then
      if q.IndexScan? then ProbeCost(m, p.table, p.alt.value.rawPreds) else ScanCost(m, p.table, p.alt.value.rawPreds)
    else CostOf(m, q, total)
  }

  /** The cost of a whole candidate, from the leaves up. */
  function PlanCost(m: Stats, p: Logical, q: Plan): (c: real)
    requires Candidate(p, q)
  {
    if TwoInputs(p) then Price(m, p, q, PlanCost(m, p.left, q.left) + PlanCost(m, p.right, q.right))
    else if OneInput(p) then Price(m, p, q, PlanCost(m, p.src, q.src))
    else Price(m, p, q, 0.0)
  }

  // ------------------------------------------------------------------ the choice

  /** The first cheapest of the forms. */
  function Pick(m: Stats, p: Logical, forms: seq<Plan>, total: real): (best: (Plan, real))
    requires forms != []
  {
    var n := |forms| - 1;
    var cost := Price(m, p, forms[n], total);
    if n == 0 then (forms[0], cost)
    else
      var best := Pick(m, p, forms[..n], total);
      if cost < best.1 then (forms[n], cost) else best
  }

  lemma {:induction false} PickCheapest(m: Stats, p: Logical, forms: seq<Plan>, total: real)
    requires forms != []
    ensures var best := Pick(m, p, forms, total);
      && best.0 in forms && best.1 == Price(m, p, best.0, total)
      && forall i | 0 <= i < |forms| :: best.1 <= Price(m, p, forms[i], total)
  {
    hide Price;
    var n := |forms| - 1;
    if n == 0 {
    } else {
      PickCheapest(m, p, forms[..n], total);
      assert forall i | 0 <= i < n :: forms[..n][i] == forms[i];
    }
  }

  /** The plan and cost a group resolves to, its inputs resolved first. */
  function Best(m: Stats, p: Logical): (best: (Plan, real)) {
    if TwoInputs(p) then
      var l, r := Best(m, p.left), Best(m, p.right);
      Pick(m, p, Forms(p, l.0, r.0), l.1 + r.1)
    else if OneInput(p) then
      var l := Best(m, p.src);
      Pick(m, p, Forms(p, l.0, l.0), l.1)
    else
      Pick(m, p, Forms(p, NoInput(), NoInput()), 0.0)
  }

  // ------------------------------------------------------------------ the choice is optimal

  lemma {:induction false} SameTables(p: Logical, q: Plan)
    requires Candidate(p, q)
    ensures Tables(q) == LogicalTables(p)
  {
    if TwoInputs(p) {
      SameTables(p.left, q.left);
      SameTables(p.right, q.right);
    } else if OneInput(p) {
      SameTables(p.src, q.src);
    }
  }

  lemma Times(a: real, b: real, c: real, d: real)
    requires 0.0 <= a <= c && 0.0 <= b <= d
    ensures a * b <= c * d
  {
    assert (c - a) * b >= 0.0 && c * (d - b) >= 0.0;
  }

  /** Costs do not fall when the inputs get dearer. */
  lemma JoinMonotone(m: Stats, q: Plan, q': Plan, total: real, total': real)
    requires m.Valid() && HasTwo(q) && HasTwo(q') && 0.0 <= total <= total'
    requires q.NestedLoopJoin? == q'.NestedLoopJoin? && q.HashJoin? == q'.HashJoin?
    requires Tables(q.left) == Tables(q'.left) && Tables(q.right) == Tables(q'.right)
    ensures CostOf(m, q, total) <= CostOf(m, q', total')
  {
    hide Tables, InputRows, Max;
    RowsMonotone(m, Tables(q.left), total, total');
    RowsMonotone(m, Tables(q.right), total, total');
    if q.NestedLoopJoin? {
      LoopMonotone(InputRows(m, Tables(q.left), total), InputRows(m, Tables(q.right), total),
        InputRows(m, Tables(q.left), total'), InputRows(m, Tables(q.right), total'));
    }
  }

  lemma RowsMonotone(m: Stats, ts: seq<TableId>, total: real, total': real)
    requires m.Valid() && 0.0 <= total <= total'
    ensures 0.0 <= InputRows(m, ts, total) <= InputRows(m, ts, total')
  {
  }

  lemma LoopMonotone(l: real, r: real, l': real, r': real)
    requires 0.0 <= l <= l' && 0.0 <= r <= r'
    ensures l * Max(r, 1.0) <= l' * Max(r', 1.0)
  {
    Times(l, Max(r, 1.0), l', Max(r', 1.0));
  }

  lemma UnaryMonotone(m: Stats, q: Plan, q': Plan, total: real, total': real)
    requires m.Valid() && HasOne(q) && HasOne(q') && 0.0 <= total <= total'
    requires q.Select? == q'.Select? && (q.Select? ==> q.preds == q'.preds)
    requires Tables(q.src) == Tables(q'.src)
    ensures CostOf(m, q, total) <= CostOf(m, q', total')
  {
  }

  lemma PriceNonNegative(m: Stats, p: Logical, q: Plan, total: real)
    requires m.Valid() && total >= 0.0
    ensures Price(m, p, q, total) >= 0.0
  {
    if HasTwo(q) {
      Times(0.0, 0.0, InputRows(m, Tables(q.left), total), Max(InputRows(m, Tables(q.right), total), 1.0));
    }
  }

  lemma {:induction false} CostNonNegative(m: Stats, p: Logical, q: Plan)
    requires m.Valid() && Candidate(p, q)
    ensures PlanCost(m, p, q) >= 0.0
  {
    hide Price, Forms;
    if TwoInputs(p) {
      CostNonNegative(m, p.left, q.left);
      CostNonNegative(m, p.right, q.right);
      PriceNonNegative(m, p, q, PlanCost(m, p.left, q.left) + PlanCost(m, p.right, q.right));
    } else if OneInput(p) {
      CostNonNegative(m, p.src, q.src);
      PriceNonNegative(m, p, q, PlanCost(m, p.src, q.src));
    } else {
      PriceNonNegative(m, p, q, 0.0);
    }
  }

  lemma FormInputs(p: Logical, l: Plan, r: Plan, q: Plan)
    requires q in Forms(p, l, r)
    ensures TwoInputs(p) ==> HasTwo(q) && q.left == l && q.right == r
    ensures OneInput(p) ==> HasOne(q) && q.src == l
  {
  }

  /** The same form over other inputs. */
  lemma SameForm2(p: Logical, q: Plan, l: Plan, r: Plan) returns (i: nat)
    requires TwoInputs(p) && HasTwo(q) && q in Forms(p, q.left, q.right)
    ensures i < |Forms(p, l, r)| && HasTwo(Forms(p, l, r)[i])
    ensures var q0 := Forms(p, l, r)[i];
      q0.NestedLoopJoin? == q.NestedLoopJoin? && q0.HashJoin? == q.HashJoin? && q0.left == l && q0.right == r
  {
    i := if q.HashJoin? then 1 else 0;
  }

  lemma SameForm1(p: Logical, q: Plan, l: Plan)
    requires OneInput(p) && HasOne(q) && q in Forms(p, q.src, q.src)
    ensures |Forms(p, l, l)| == 1 && HasOne(Forms(p, l, l)[0])
    ensures var q0 := Forms(p, l, l)[0];
      q0.Select? == q.Select? && (q0.Select? ==> q0.preds == q.preds) && q0.src == l
  {
  }

  /** What the memo resolves to is a candidate, and its cost is that candidate's. */
  lemma {:induction false} BestIsCandidate(m: Stats, p: Logical)
    ensures Candidate(p, Best(m, p).0) && Best(m, p).1 == PlanCost(m, p, Best(m, p).0)
  {
    hide Price, Forms, Pick;
    var q := Best(m, p).0;
    if TwoInputs(p) {
      BestIsCandidate(m, p.left);
      BestIsCandidate(m, p.right);
      PickCheapest(m, p, Forms(p, Best(m, p.left).0, Best(m, p.right).0), Best(m, p.left).1 + Best(m, p.right).1);
      FormInputs(p, Best(m, p.left).0, Best(m, p.right).0, q);
    } else if OneInput(p) {
      BestIsCandidate(m, p.src);
      PickCheapest(m, p, Forms(p, Best(m, p.src).0, Best(m, p.src).0), Best(m, p.src).1);
      FormInputs(p, Best(m, p.src).0, Best(m, p.src).0, q);
    } else {
      PickCheapest(m, p, Forms(p, NoInput(), NoInput()), 0.0);
    }
  }

  /** No candidate is cheaper than what the memo resolves to. */
  lemma {:induction false} BestIsCheapest(m: Stats, p: Logical, q: Plan)
    requires m.Valid() && Candidate(p, q)
    ensures Best(m, p).1 <= PlanCost(m, p, q)
  {
    hide CostOf, Pick, Forms, Tables, LogicalTables, ProbeCost, ScanCost;
    if TwoInputs(p) {
      var l, r := Best(m, p.left), Best(m, p.right);
      BestIsCheapest(m, p.left, q.left);
      BestIsCheapest(m, p.right, q.right);
      ResolvedInput(m, p.left, q.left);
      ResolvedInput(m, p.right, q.right);
      PickCheapest(m, p, Forms(p, l.0, r.0), l.1 + r.1);
      var i := SameForm2(p, q, l.0, r.0);
      JoinMonotone(m, Forms(p, l.0, r.0)[i], q, l.1 + r.1, PlanCost(m, p.left, q.left) + PlanCost(m, p.right, q.right));
    } else if OneInput(p) {
      var l := Best(m, p.src);
      BestIsCheapest(m, p.src, q.src);
      ResolvedInput(m, p.src, q.src);
      PickCheapest(m, p, Forms(p, l.0, l.0), l.1);
      SameForm1(p, q, l.0);
      UnaryMonotone(m, Forms(p, l.0, l.0)[0], q, l.1, PlanCost(m, p.src, q.src));
    } else {
      PickCheapest(m, p, Forms(p, NoInput(), NoInput()), 0.0);
    }
  }

  lemma ResolvedInput(m: Stats, p: Logical, q: Plan)
    requires m.Valid() && Candidate(p, q)
    ensures Best(m, p).1 >= 0.0 && Tables(Best(m, p).0) == Tables(q)
  {
    hide Forms, Pick, Price;
    BestIsCandidate(m, p);
    CostNonNegative(m, p, Best(m, p).0);
    SameTables(p, q);
    SameTables(p, Best(m, p).0);
  }

  // ------------------------------------------------------------------ hash join or nested loop

  lemma ProductBeatsSum(l: nat, r: nat)
    ensures l + r < l * r <==> l >= 2 && r >= 2 && l + r > 4
  {
    if l >= 2 && r >= 2 {
      Expand(l - 2, r - 2);
    } else if l >= 2 {
      assert r == 0 || r == 1;
    }
  }

  lemma Expand(a: nat, b: nat)
    ensures (a + 2) * (b + 2) == a * b + 2 * a + 2 * b + 4 && a * b >= 0
  {
  }

  lemma RealProduct(l: nat, r: nat)
    ensures (l as real) * Max(r as real, 1.0) == (l * if r == 0 then 1 else r) as real
  {
    assert (l as real) * (r as real) == (l * r) as real;
  }

  /**
   * With `l` and `r` rows on the two sides, the hash join is the cheaper form exactly when both have two
   * rows or more and not both have just two; otherwise the nested loop is kept.
   */
  lemma HashWinsIff(m: Stats, t: JoinType, a: Plan, b: Plan, preds: seq<Expr>, total: real, l: nat, r: nat)
    requires InputRows(m, Tables(a), total) == l as real && InputRows(m, Tables(b), total) == r as real
    ensures CostOf(m, HashJoin(t, a, b, preds), total) < CostOf(m, NestedLoopJoin(t, a, b, preds), total)
      <==> l >= 2 && r >= 2 && l + r > 4
  {
    hide Tables;
    RealProduct(l, r);
    ProductBeatsSum(l, if r == 0 then 1 else r);
  }

  /** Two tables with two rows each: the hash join costs as much as the nested loop, which is kept. */
  lemma HashDoesNotWin(m: Stats, t: JoinType, a: TableId, b: TableId, cols: seq<ColId>, preds: seq<Expr>)
    requires m.rows(a) == 2.0 && m.rows(b) == 2.0
    ensures CostOf(m, HashJoin(t, Scan(a, cols), Scan(b, cols), preds), 4.0)
      == CostOf(m, NestedLoopJoin(t, Scan(a, cols), Scan(b, cols), preds), 4.0)
    ensures !(CostOf(m, HashJoin(t, Scan(a, cols), Scan(b, cols), preds), 4.0)
      < CostOf(m, NestedLoopJoin(t, Scan(a, cols), Scan(b, cols), preds), 4.0))
  {
    assert Single([a]) == Some(a) && Single([b]) == Some(b);
    HashWinsIff(m, t, Scan(a, cols), Scan(b, cols), preds, 4.0, 2, 2);
  }
}
