/** From plans to rows. */
module Pipeline {
  import opened Bags
  import opened Base
  import opened Exprs
  import opened AggSpec
  import opened PlanModel
  import opened PlanCompile
  import opened PlanRows
  import opened PlanJoins
  import opened PlanTheorem
  import opened PlanAnswers
  import opened MemoModel
  import opened QueryMeaning

  // ------------------------------------------------------------------ one meaning of physical plans

  const NONE: Named := map[]

  lemma NoOuter(r: Named)
    ensures NONE + r == r
  {
  }

  lemma {:induction false} KeepingIs(fp: Rounded, preds: seq<Expr>, rows: seq<Named>)
    ensures Flat(Keeping(fp, NONE, preds), rows) == Filtered(fp, preds, rows)
  {
    hide AllHold;
    if rows == [] {
    } else {
      KeepingIs(fp, preds, rows[1..]);
      NoOuter(rows[0]);
    }
  }

  lemma {:induction false} ProjectingIs(cols: seq<ColId>, rows: seq<Named>)
    ensures Flat(Projecting(cols), rows) == ProjectedRows(cols, rows)
  {
    hide Projected;
    if rows == [] {
    } else {
      ProjectingIs(cols, rows[1..]);
      assert ProjectedRows(cols, rows) == [Projected(cols, rows[0])] + ProjectedRows(cols, rows[1..]);
    }
  }

  lemma {:induction false} RenamingIs(names: map<ColId, ColId>, rows: seq<Named>)
    ensures Flat(Renaming(names), rows) == RenamedRows(names, rows)
  {
    hide Renamed;
    if rows == [] {
    } else {
      RenamingIs(names, rows[1..]);
      assert RenamedRows(names, rows) == [Renamed(names, rows[0])] + RenamedRows(names, rows[1..]);
    }
  }

  lemma {:induction false} ExtendingIs(fp: Rounded, exprs: seq<(ColId, Expr)>, rows: seq<Named>)
    ensures Flat(Extending(fp, NONE, exprs), rows) == ExtendedRows(fp, exprs, rows)
  {
    hide Extend, ExprVals, ExprIds;
    if rows == [] {
    } else {
      ExtendingIs(fp, exprs, rows[1..]);
      NoOuter(rows[0]);
      assert ExtendedRows(fp, exprs, rows) == [Extended(fp, exprs, rows[0])] + ExtendedRows(fp, exprs, rows[1..]);
    }
  }

  lemma {:induction false} MatchesIs(fp: Rounded, preds: seq<Expr>, l: Named, rs: seq<Named>)
    ensures Flat(Fixed(Matching(fp, NONE, preds), l), rs) == Filtered(fp, preds, WithEach(l, rs))
  {
    hide AllHold;
    if rs == [] {
    } else {
      MatchesIs(fp, preds, l, rs[1..]);
      NoOuter(l + rs[0]);
      assert ([l + rs[0]] + WithEach(l, rs[1..]))[1..] == WithEach(l, rs[1..]);
    }
  }

  lemma {:induction false} LoopIs(fp: Rounded, preds: seq<Expr>, ls: seq<Named>, rs: seq<Named>)
    ensures NestedFlat(Matching(fp, NONE, preds), ls, rs) == Filtered(fp, preds, Pairs(ls, rs))
  {
    hide Matching, Filtered, WithEach;
    if ls == [] {
      NoneFiltered(fp, preds);
    } else {
      LoopIs(fp, preds, ls[1..], rs);
      MatchesIs(fp, preds, ls[0], rs);
      FilteredCat(fp, preds, WithEach(ls[0], rs), Pairs(ls[1..], rs));
    }
  }

  lemma NoneFiltered(fp: Rounded, preds: seq<Expr>)
    ensures Filtered(fp, preds, []) == []
  {
  }

  lemma {:induction false} ProbesIs(fp: Rounded, preds: seq<Expr>, ls: seq<Named>, r: Named)
    ensures Flat(Fixed(Flipped(Matching(fp, NONE, preds)), r), ls) == Filtered(fp, preds, EachWith(ls, r))
  {
    hide AllHold;
    if ls == [] {
    } else {
      ProbesIs(fp, preds, ls[1..], r);
      NoOuter(ls[0] + r);
      assert ([ls[0] + r] + EachWith(ls[1..], r))[1..] == EachWith(ls[1..], r);
    }
  }

  lemma {:induction false} HashIs(fp: Rounded, preds: seq<Expr>, ls: seq<Named>, rs: seq<Named>)
    ensures NestedFlat(Flipped(Matching(fp, NONE, preds)), rs, ls) == Filtered(fp, preds, PairsByRight(ls, rs))
  {
    hide Matching, Filtered, EachWith;
    if rs == [] {
      NoneFiltered(fp, preds);
    } else {
      HashIs(fp, preds, ls, rs[1..]);
      ProbesIs(fp, preds, ls, rs[0]);
      FilteredCat(fp, preds, EachWith(ls, rs[0]), PairsByRight(ls, rs[1..]));
    }
  }

  /** Outside any enclosing query the two meanings of a physical plan are the same rows in the same order. */
  lemma {:induction false} PhysicalIsMeaning(w: World, width: TableId -> nat, q: Plan)
    requires WellFormed(width, q)
    ensures PhysicalRows(w, NONE, q) == Meaning(w, q)
  {
    hide Flat, Matching, Keeping, Projecting, Renaming, Extending, Filtered, ProjectedRows, RenamedRows, ExtendedRows,
      NestedFlat, JoinPred, PlanModel.Bound, Pairs, PairsByRight, LabelRows, ScanRows;
    match q
    case Scan(_, _) =>
    case IndexScan(_, _, _, _) =>
    case Rename(src, names) =>
      PhysicalIsMeaning(w, width, src);
      RenamingIs(names, Meaning(w, src));
    case Project(src, cols) =>
      PhysicalIsMeaning(w, width, src);
      ProjectingIs(cols, Meaning(w, src));
    case Select(src, preds) =>
      PhysicalIsMeaning(w, width, src);
      KeepingIs(w.fp, preds, Meaning(w, src));
    case CrossJoin(l, r, preds) =>
      PhysicalIsMeaning(w, width, l);
      PhysicalIsMeaning(w, width, r);
      LoopIs(w.fp, preds, Meaning(w, l), Meaning(w, r));
    case NestedLoopJoin(_, l, r, preds) =>
      PhysicalIsMeaning(w, width, l);
      PhysicalIsMeaning(w, width, r);
      LoopIs(w.fp, preds, Meaning(w, l), Meaning(w, r));
    case HashJoin(_, l, r, preds) =>
      PhysicalIsMeaning(w, width, l);
      PhysicalIsMeaning(w, width, r);
      HashIs(w.fp, preds, Meaning(w, l), Meaning(w, r));
    case HashAggregate(src, _, _) => PhysicalIsMeaning(w, width, src);
    case Map(src, exprs) =>
      PhysicalIsMeaning(w, width, src);
      ExtendingIs(w.fp, exprs, Meaning(w, src));
  }

  // ------------------------------------------------------------------ logical plans that translate

  /** The columns of a logical plan. */
  ghost function LogicalCols(p: Logical): (ids: set<ColId>) {
    match p
    case LScan(_, cols) => Ids(cols)
    case LIndexScan(_, cols, _, _, _) => Ids(cols)
    case LSelect(src, _) => LogicalCols(src)
    case LJoin(_, l, r, _) => LogicalCols(l) + LogicalCols(r)
    case LProject(_, cols) => Ids(cols)
    case LAggregate(_, groupBy, aggrs) => Ids(groupBy + Dests(aggrs))
    case LMap(src, exprs) => LogicalCols(src) + Ids(ExprIds(exprs))
    case LRename(_, names) => names.Values
    case _ => {}
  }

  /** Logical plans whose columns resolve, and whose joins have one comparison with an operand on each side. */
  ghost predicate Formed(width: TableId -> nat, p: Logical) {
    match p
    case LScan(t, cols) => forall id | id in cols :: ColumnIndex(id) < width(t)
    case LIndexScan(t, cols, _, keys, _) =>
      |cols| == width(t) && AllLiterals(keys) && forall id | id in cols :: ColumnIndex(id) < width(t)
    case LSelect(src, preds) => Formed(width, src) && forall e | e in preds :: PlanModel.Bound(e, LogicalCols(src))
    case LJoin(t, l, r, preds) =>
      && t.Inner? && Formed(width, l) && Formed(width, r)
      && JoinPred(Combine(preds), LogicalCols(l), LogicalCols(r)) && Compares(Combine(preds).op)
      && (Aligned(Combine(preds), LogicalCols(l)) || Symmetric(Combine(preds).op))
    case LProject(src, cols) => Formed(width, src) && forall id | id in cols :: id in LogicalCols(src)
    case LAggregate(src, groupBy, aggrs) =>
      && Formed(width, src) && (forall id | id in groupBy :: id in LogicalCols(src))
      && (forall id | id in Sources(aggrs) :: id in LogicalCols(src))
    case LMap(src, exprs) => Formed(width, src) && forall x | x in exprs :: PlanModel.Bound(x.1, LogicalCols(src))
    case LRename(src, names) => Formed(width, src) && names.Keys == LogicalCols(src) && Injective(names)
    case _ => false
  }

  lemma {:induction false} AltBound(cols: seq<ColId>, columns: seq<nat>, keys: seq<Expr>)
    requires AltPreds(cols, columns, keys).Some? && AllLiterals(keys)
    ensures forall e | e in AltPreds(cols, columns, keys).value.0 :: PlanModel.Bound(e, Ids(cols))
  {
    if columns == [] || keys == [] {
    } else {
      AltBound(cols, columns[1..], keys[1..]);
      assert cols[columns[0]] in Ids(cols);
      assert PlanModel.Bound(Binary(Eq, ColRef(cols[columns[0]]), keys[0]), Ids(cols));
    }
  }

  lemma LeafFormed(width: TableId -> nat, cat: Option<Catalog>, p: Logical, q: Plan)
    requires (p.LScan? || p.LIndexScan?) && Formed(width, p) && Candidate(Annotate(cat, p), q)
    ensures WellFormed(width, q) && Cols(q) == LogicalCols(p)
  {
    hide AltPreds, FindIndex;
    if p.LIndexScan? {
      IndexForms(cat, p, q);
      if q.Select? {
        AltBound(p.cols, FindIndex(cat.value(p.table), p.index).value.columns, p.keys);
      }
    }
  }

  /** Every candidate of such a plan is well formed. */
  lemma {:induction false} CandidateFormed(width: TableId -> nat, cat: Option<Catalog>, p: Logical, q: Plan)
    requires Formed(width, p) && Candidate(Annotate(cat, p), q)
    ensures WellFormed(width, q) && Cols(q) == LogicalCols(p)
  {
    hide Candidate, Annotate, PlanModel.Bound, JoinPred, Aligned, Combine;
    SameKind(cat, p, q);
    if p.LScan? || p.LIndexScan? {
      LeafFormed(width, cat, p, q);
    } else if p.LJoin? {
      CandidateFormed(width, cat, p.left, q.left);
      CandidateFormed(width, cat, p.right, q.right);
      JoinForms(cat, p, q);
      if q.HashJoin? {
        HashIsEquality(cat, p, q);
      }
    } else {
      CandidateFormed(width, cat, p.src, q.src);
      UnaryIs(cat, p, q);
    }
  }

  lemma HashIsEquality(cat: Option<Catalog>, p: Logical, q: Plan)
    requires p.LJoin? && Candidate(Annotate(cat, p), q) && q.HashJoin?
    ensures Equality(Combine(p.preds))
  {
    hide Combine, Equality;
  }

  // ------------------------------------------------------------------ values that a logical plan needs

  ghost predicate JoinRuns(fp: Rounded, e: Expr, left: set<ColId>, ls: seq<Named>, rs: seq<Named>) {
    && e.Binary?
    && var (le, re) := Sides(e, left);
       Defined(fp, le, ls) && Defined(fp, re, rs) && PairsCompare(fp, e.op, le, re, ls, rs)
  }

  /** Every expression of the plan has the value it needs on every row it may be evaluated on. */
  ghost predicate LogicalRuns(w: World, p: Logical) {
    match p
    case LSelect(src, preds) => LogicalRuns(w, src) && AllDecided(w.fp, preds, LogicalRows(w, NONE, src))
    case LJoin(_, l, r, preds) =>
      && LogicalRuns(w, l) && LogicalRuns(w, r)
      && JoinRuns(w.fp, Combine(preds), LogicalCols(l), LogicalRows(w, NONE, l), LogicalRows(w, NONE, r))
    case LProject(src, _) => LogicalRuns(w, src)
    case LAggregate(src, groupBy, aggrs) => LogicalRuns(w, src) && AnyOrder(groupBy, aggrs, LogicalRows(w, NONE, src))
    case LMap(src, exprs) => LogicalRuns(w, src) && AllExprs(w.fp, exprs, LogicalRows(w, NONE, src))
    case LRename(src, _) => LogicalRuns(w, src)
    case _ => true
  }

  lemma {:induction false} RunsNoneFails(w: World, width: TableId -> nat, p: Logical)
    requires Formed(width, p) && LogicalRuns(w, p)
    ensures NoneFails(w, NONE, p)
  {
    hide LogicalRows, AllDecided, JoinRuns, AnyOrder, AllExprs, PlanModel.Bound, JoinPred;
    if p.LJoin? {
      RunsNoneFails(w, width, p.left);
      RunsNoneFails(w, width, p.right);
    } else if OneInput(p) {
      RunsNoneFails(w, width, p.src);
    }
  }

  // The conditions are about which rows there are, not about their order.

  lemma Member<T>(a: seq<T>, b: seq<T>, i: nat) returns (j: nat)
    requires multiset(a) == multiset(b) && i < |a|
    ensures j < |b| && b[j] == a[i]
  {
    assert a[i] in multiset(b);
    j :| j < |b| && b[j] == a[i];
  }

  lemma DefinedPermuted(fp: Rounded, e: Expr, a: seq<Named>, b: seq<Named>)
    requires multiset(a) == multiset(b)
    ensures Defined(fp, e, a) ==> Defined(fp, e, b)
    ensures Decided(fp, e, a) ==> Decided(fp, e, b)
  {
    hide Value;
    forall j | 0 <= j < |b|
      ensures Defined(fp, e, a) ==> Value(fp, e, EnvOf(b[j])).Some?
      ensures Decided(fp, e, a) ==> Value(fp, e, EnvOf(b[j])).Some? && Value(fp, e, EnvOf(b[j])).value.Bool?
    {
      var i := Member(b, a, j);
    }
  }

  lemma FilteredPermuted(fp: Rounded, preds: seq<Expr>, a: seq<Named>, b: seq<Named>)
    requires multiset(a) == multiset(b)
    ensures multiset(Filtered(fp, preds, a)) == multiset(Filtered(fp, preds, b))
  {
    hide Flat, Filtered, Keeping;
    KeepingIs(fp, preds, a);
    KeepingIs(fp, preds, b);
    FlatPermuted(Keeping(fp, NONE, preds), a, b);
  }

  lemma {:induction false} DecidedPermuted(fp: Rounded, preds: seq<Expr>, a: seq<Named>, b: seq<Named>)
    requires multiset(a) == multiset(b) && AllDecided(fp, preds, a)
    ensures AllDecided(fp, preds, b)
  {
    hide Filtered, Decided;
    if preds == [] {
    } else {
      var n := |preds| - 1;
      DecidedPermuted(fp, preds[..n], a, b);
      FilteredPermuted(fp, preds[..n], a, b);
      DefinedPermuted(fp, preds[n], Filtered(fp, preds[..n], a), Filtered(fp, preds[..n], b));
    }
  }

  lemma ComparesPermuted(fp: Rounded, op: Op, le: Expr, re: Expr, ls: seq<Named>, rs: seq<Named>, ls': seq<Named>, rs': seq<Named>)
    requires multiset(ls) == multiset(ls') && multiset(rs) == multiset(rs') && PairsCompare(fp, op, le, re, ls, rs)
    ensures PairsCompare(fp, op, le, re, ls', rs')
  {
    hide Value, ComparesOne;
    forall i, j | 0 <= i < |ls'| && 0 <= j < |rs'|
      ensures ComparesOne(op, Value(fp, le, EnvOf(ls'[i])), Value(fp, re, EnvOf(rs'[j])))
    {
      var x := Member(ls', ls, i);
      var y := Member(rs', rs, j);
    }
  }

  lemma ExprsPermuted(fp: Rounded, exprs: seq<(ColId, Expr)>, a: seq<Named>, b: seq<Named>)
    requires multiset(a) == multiset(b) && AllExprs(fp, exprs, a)
    ensures AllExprs(fp, exprs, b)
  {
    hide Defined;
    forall j | 0 <= j < |exprs| ensures Defined(fp, exprs[j].1, b) {
      DefinedPermuted(fp, exprs[j].1, a, b);
    }
  }

  // ------------------------------------------------------------------ the whole way

  /** The operators of the plan run without aborting, and their rows are the bag. */
  ghost predicate Yields(w: World, width: TableId -> nat, q: Plan, rows: seq<Named>) {
    && Compile(width, q).Some? && Answers(w, Compile(width, q).value.tree)
    && var c := Compile(width, q).value; multiset(ReadRows(c.offsets, Output(w, c.tree))) == multiset(rows)
  }

  /** What is asked of a logical plan, the tables and the indexes. */
  ghost predicate Prepared(w: World, width: TableId -> nat, cat: Option<Catalog>, p: Logical) {
    Fits(w, width) && CatalogAgrees(w, cat) && IndexScansSound(w, width, p) && Formed(width, p) && LogicalRuns(w, p)
  }

  /** The rows a candidate means are those of the plan, as a bag. */
  lemma SameMeaning(w: World, width: TableId -> nat, cat: Option<Catalog>, p: Logical, q: Plan)
    requires Prepared(w, width, cat, p) && Candidate(Annotate(cat, p), q)
    ensures WellFormed(width, q) && Cols(q) == LogicalCols(p)
    ensures multiset(Meaning(w, q)) == multiset(LogicalRows(w, NONE, p))
  {
    hide Candidate, NoneFails, IndexScansSound, CatalogAgrees, ProbesFind, WellFormed, LogicalRows, PhysicalRows, Meaning, Cols,
      Formed, LogicalRuns;
    RunsNoneFails(w, width, p);
    CandidateFormed(width, cat, p, q);
    CandidateMeans(w, width, cat, NONE, p, q);
    PhysicalIsMeaning(w, width, q);
  }

  lemma PreparedParts(w: World, width: TableId -> nat, cat: Option<Catalog>, p: Logical)
    requires Prepared(w, width, cat, p)
    ensures p.LJoin? ==> Prepared(w, width, cat, p.left) && Prepared(w, width, cat, p.right)
    ensures OneInput(p) ==> Prepared(w, width, cat, p.src)
    ensures p.LScan? || p.LIndexScan? || p.LJoin? || OneInput(p)
  {
    hide Fits, CatalogAgrees, LogicalRows, AllDecided, JoinRuns, AnyOrder, AllExprs, PlanModel.Bound, JoinPred, InOrder;
  }

  lemma {:induction false} AltDecided(fp: Rounded, cols: seq<ColId>, columns: seq<nat>, keys: seq<Expr>, e: Expr, r: Named)
    requires AltPreds(cols, columns, keys).Some? && AllLiterals(keys) && e in AltPreds(cols, columns, keys).value.0
    requires forall id | id in cols :: id in r
    ensures Value(fp, e, EnvOf(r)).Some? && Value(fp, e, EnvOf(r)).value.Bool?
  {
    if columns == [] || keys == [] {
    } else if e == Binary(Eq, ColRef(cols[columns[0]]), keys[0]) {
      assert Value(fp, e.left, EnvOf(r)).Some? && Value(fp, e.right, EnvOf(r)).Some?;
    } else {
      AltDecided(fp, cols, columns[1..], keys[1..], e, r);
    }
  }

  lemma {:induction false} EachDecided(fp: Rounded, preds: seq<Expr>, rows: seq<Named>)
    requires forall e | e in preds :: Decided(fp, e, rows)
    ensures AllDecided(fp, preds, rows)
  {
    hide Value, Filtered;
    if preds == [] {
    } else {
      var n := |preds| - 1;
      assert preds[n] in preds && forall e | e in preds[..n] :: e in preds;
      EachDecided(fp, preds[..n], rows);
      var kept := Filtered(fp, preds[..n], rows);
      forall i | 0 <= i < |kept| ensures Value(fp, preds[n], EnvOf(kept[i])).Some? && Value(fp, preds[n], EnvOf(kept[i])).value.Bool? {
        KeptFrom(fp, preds[..n], rows, kept[i]);
        var j :| 0 <= j < |rows| && rows[j] == kept[i];
      }
    }
  }

  lemma {:induction false} KeptFrom(fp: Rounded, preds: seq<Expr>, rows: seq<Named>, r: Named)
    requires r in Filtered(fp, preds, rows)
    ensures r in rows
  {
    hide AllHold;
    if r !in (if AllHold(fp, preds, EnvOf(rows[0])) then [rows[0]] else []) {
      KeptFrom(fp, preds, rows[1..], r);
    }
  }

  lemma LeafRuns(w: World, cat: Option<Catalog>, p: Logical, q: Plan)
    requires (p.LScan? || p.LIndexScan?) && Candidate(Annotate(cat, p), q) && (p.LIndexScan? ==> AllLiterals(p.keys))
    ensures PlanRuns(w, q)
  {
    hide AltPreds, FindIndex, Value, AllDecided;
    if p.LIndexScan? {
      IndexForms(cat, p, q);
      if q.Select? {
        var columns, rows := FindIndex(cat.value(p.table), p.index).value.columns, Meaning(w, q.src);
        forall e | e in q.preds ensures Decided(w.fp, e, rows) {
          forall i | 0 <= i < |rows| ensures Value(w.fp, e, EnvOf(rows[i])).Some? && Value(w.fp, e, EnvOf(rows[i])).value.Bool? {
            AltDecided(w.fp, p.cols, columns, p.keys, e, rows[i]);
          }
        }
        EachDecided(w.fp, q.preds, rows);
      }
    }
  }

  lemma JoinsRun(w: World, width: TableId -> nat, cat: Option<Catalog>, p: Logical, q: Plan)
    requires p.LJoin? && Prepared(w, width, cat, p) && Candidate(Annotate(cat, p), q) && HasTwo(q)
    requires Cols(q.left) == LogicalCols(p.left) && PlanRuns(w, q.left) && PlanRuns(w, q.right)
    requires multiset(Meaning(w, q.left)) == multiset(LogicalRows(w, NONE, p.left))
    requires multiset(Meaning(w, q.right)) == multiset(LogicalRows(w, NONE, p.right))
    ensures PlanRuns(w, q)
  {
    hide Candidate, Annotate, Meaning, LogicalRows, Fits, CatalogAgrees, IndexScansSound, Formed,
      Combine, Defined, PairsCompare, Sides, Cols;
    JoinForms(cat, p, q);
    var e := Combine(p.preds);
    var (le, re) := Sides(e, LogicalCols(p.left));
    var ls, rs := LogicalRows(w, NONE, p.left), LogicalRows(w, NONE, p.right);
    DefinedPermuted(w.fp, le, ls, Meaning(w, q.left));
    DefinedPermuted(w.fp, re, rs, Meaning(w, q.right));
    ComparesPermuted(w.fp, e.op, le, re, ls, rs, Meaning(w, q.left), Meaning(w, q.right));
  }

  lemma UnaryRuns(w: World, width: TableId -> nat, cat: Option<Catalog>, p: Logical, q: Plan)
    requires OneInput(p) && Prepared(w, width, cat, p) && Candidate(Annotate(cat, p), q) && HasOne(q) && PlanRuns(w, q.src)
    requires multiset(Meaning(w, q.src)) == multiset(LogicalRows(w, NONE, p.src))
    ensures PlanRuns(w, q)
  {
    hide Candidate, Annotate, Meaning, LogicalRows, Fits, CatalogAgrees, IndexScansSound, Formed,
      AllDecided, AllExprs, Finishes, NamedItems;
    UnaryIs(cat, p, q);
    var a, b := LogicalRows(w, NONE, p.src), Meaning(w, q.src);
    match p
    case LSelect(_, preds) => DecidedPermuted(w.fp, preds, a, b);
    case LAggregate(_, groupBy, aggrs) => assert Aggregates(groupBy, aggrs, b);
    case LMap(_, exprs) => ExprsPermuted(w.fp, exprs, a, b);
    case _ =>
  }

  lemma {:induction false} CandidateAnswers(w: World, width: TableId -> nat, cat: Option<Catalog>, p: Logical, q: Plan)
    requires Prepared(w, width, cat, p) && Candidate(Annotate(cat, p), q)
    ensures PlanRuns(w, q)
    decreases p
  {
    hide Prepared, Candidate, Annotate, PlanRuns, Meaning, LogicalRows, Cols, WellFormed;
    PreparedParts(w, width, cat, p);
    SameKind(cat, p, q);
    if p.LJoin? {
      CandidateAnswers(w, width, cat, p.left, q.left);
      CandidateAnswers(w, width, cat, p.right, q.right);
      SameMeaning(w, width, cat, p.left, q.left);
      SameMeaning(w, width, cat, p.right, q.right);
      JoinsRun(w, width, cat, p, q);
    } else if OneInput(p) {
      CandidateAnswers(w, width, cat, p.src, q.src);
      SameMeaning(w, width, cat, p.src, q.src);
      UnaryRuns(w, width, cat, p, q);
    } else {
      if p.LIndexScan? {
        PreparedLiterals(w, width, cat, p);
      }
      LeafRuns(w, cat, p, q);
    }
  }

  lemma PreparedLiterals(w: World, width: TableId -> nat, cat: Option<Catalog>, p: Logical)
    requires Prepared(w, width, cat, p) && p.LIndexScan?
    ensures AllLiterals(p.keys)
  {
  }

  /**
   * Any candidate of a logical plan, so also the cheapest: it translates to operators that run without
   * aborting, and whose rows, read through the offset map, are the bag the logical plan asks for. All that is
   * asked is asked of the logical plan.
   */
  lemma CandidateRuns(w: World, width: TableId -> nat, cat: Option<Catalog>, p: Logical, q: Plan)
    requires Prepared(w, width, cat, p) && Candidate(Annotate(cat, p), q)
    ensures Yields(w, width, q, LogicalRows(w, NONE, p))
  {
    hide Candidate, Annotate, PlanRuns, WellFormed, Compile, LogicalRows, Meaning, Cols, ReadRows, Output, Answers,
      IndexScansSound, Formed, LogicalRuns, CatalogAgrees, ProbesFind;
    SameMeaning(w, width, cat, p, q);
    CandidateAnswers(w, width, cat, p, q);
    AnswersIff(w, width, q);
  }
}
