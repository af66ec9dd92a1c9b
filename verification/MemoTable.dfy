/** The memo and its winners. */
module MemoTable {
  import opened Base
  import opened Exprs
  import opened PlanModel
  import opened MemoModel
  import opened QueryMeaning

  /** A plan node whose inputs are group numbers. */
  datatype Node =
    | NScan(table: TableId, cols: seq<ColId>)
    | NIndexScan(table: TableId, cols: seq<ColId>, index: nat, keys: seq<Expr>, alt: Option<ScanSelectAlt>)
    | NSelect(src: nat, preds: seq<Expr>)
    | NJoin(joinType: JoinType, left: nat, right: nat, preds: seq<Expr>)
    | NProject(src: nat, cols: seq<ColId>)
    | NOrderBy(src: nat, order: seq<(ColId, bool, bool)>)
    | NAggregate(src: nat, groupBy: seq<ColId>, aggrs: seq<Aggregation>)
    | NMap(src: nat, exprs: seq<(ColId, Expr)>)
    | NFlatMap(left: nat, right: nat)
    | NRename(src: nat, names: map<ColId, ColId>)
    | NWhole(plan: Logical)

  datatype Group = Group(node: Node, winner: Option<(Plan, real)>)

  predicate TwoGroups(n: Node) {
    n.NJoin? || n.NFlatMap?
  }

  predicate OneGroup(n: Node) {
    n.NSelect? || n.NProject? || n.NOrderBy? || n.NAggregate? || n.NMap? || n.NRename?
  }

  /** The inputs of a group are groups before it. */
  predicate Below(n: Node, i: nat) {
    (TwoGroups(n) ==> n.left < i && n.right < i) && (OneGroup(n) ==> n.src < i) && (n.NWhole? ==> n.plan.LMutation?)
  }

  ghost predicate Ordered(gs: seq<Group>) {
    forall i | 0 <= i < |gs| :: Below(gs[i].node, i)
  }

  /** A node over the plans its inputs stand for. */
  function Rebuilt(n: Node, l: Logical, r: Logical): (p: Logical) {
    match n
    case NScan(cid, cols) => LScan(cid, cols)
    case NIndexScan(cid, cols, index, keys, alt) => LIndexScan(cid, cols, index, keys, alt)
    case NSelect(_, preds) => LSelect(l, preds)
    case NJoin(t, _, _, preds) => LJoin(t, l, r, preds)
    case NProject(_, cols) => LProject(l, cols)
    case NOrderBy(_, order) => LOrderBy(l, order)
    case NAggregate(_, groupBy, aggrs) => LAggregate(l, groupBy, aggrs)
    case NMap(_, exprs) => LMap(l, exprs)
    case NFlatMap(_, _) => LFlatMap(l, r)
    case NRename(_, names) => LRename(l, names)
    case NWhole(plan) => plan
  }

  const NONE := LScan(0, [])

  /** The plan a group stands for, alternatives included. */
  function Unfold(gs: seq<Group>, gid: nat): (p: Logical)
    requires Ordered(gs) && gid < |gs|
    decreases gid
  {
    var n := gs[gid].node;
    if TwoGroups(n) then Rebuilt(n, Unfold(gs, n.left), Unfold(gs, n.right))
    else if OneGroup(n) then Rebuilt(n, Unfold(gs, n.src), NONE)
    else Rebuilt(n, NONE, NONE)
  }

  /** The logical plan of a group; alternatives are dropped. */
  function Reconstruct(gs: seq<Group>, gid: nat): (p: Logical)
    requires Ordered(gs) && gid < |gs|
    decreases gid
  {
    match gs[gid].node
    case NScan(cid, cols) => LScan(cid, cols)
    case NIndexScan(cid, cols, index, keys, _) => LIndexScan(cid, cols, index, keys, None)
    case NSelect(src, preds) => LSelect(Reconstruct(gs, src), preds)
    case NJoin(t, l, r, preds) => LJoin(t, Reconstruct(gs, l), Reconstruct(gs, r), preds)
    case NProject(src, cols) => LProject(Reconstruct(gs, src), cols)
    case NOrderBy(src, order) => LOrderBy(Reconstruct(gs, src), order)
    case NAggregate(src, groupBy, aggrs) => LAggregate(Reconstruct(gs, src), groupBy, aggrs)
    case NMap(src, exprs) => LMap(Reconstruct(gs, src), exprs)
    case NFlatMap(l, r) => LFlatMap(Reconstruct(gs, l), Reconstruct(gs, r))
    case NRename(src, names) => LRename(Reconstruct(gs, src), names)
    case NWhole(plan) => plan
  }

  lemma {:induction false} ReconstructStrips(gs: seq<Group>, gid: nat)
    requires Ordered(gs) && gid < |gs|
    ensures Reconstruct(gs, gid) == Strip(Unfold(gs, gid))
    decreases gid
  {
    var n := gs[gid].node;
    if TwoGroups(n) {
      ReconstructStrips(gs, n.left);
      ReconstructStrips(gs, n.right);
    } else if OneGroup(n) {
      ReconstructStrips(gs, n.src);
    }
  }

  /** The groups agree on their nodes up to `gid`. */
  ghost predicate SameNodes(a: seq<Group>, b: seq<Group>, n: nat) {
    n <= |a| && n <= |b| && forall i | 0 <= i < n :: a[i].node == b[i].node
  }

  /** What a group stands for depends only on the nodes up to it: not on later groups, nor on winners. */
  lemma {:induction false} UnfoldLocal(a: seq<Group>, b: seq<Group>, gid: nat)
    requires Ordered(a) && Ordered(b) && gid < |a| && gid < |b| && SameNodes(a, b, gid + 1)
    ensures Unfold(a, gid) == Unfold(b, gid)
    decreases gid
  {
    hide Rebuilt;
    var n := a[gid].node;
    if TwoGroups(n) {
      UnfoldLocal(a, b, n.left);
      UnfoldLocal(a, b, n.right);
    } else if OneGroup(n) {
      UnfoldLocal(a, b, n.src);
    }
  }

  // ------------------------------------------------------------------ forms and prices of a node

  /** The physical forms of a group's node: those of its operator over any logical inputs. */
  function NodeForms(n: Node, l: Plan, r: Plan): (ps: seq<Plan>)
    ensures ps != []
  {
    Forms(Rebuilt(n, NONE, NONE), l, r)
  }

  lemma {:induction false} NodeFormsAre(n: Node, l: Logical, r: Logical, a: Plan, b: Plan)
    requires n.NWhole? ==> n.plan.LMutation?
    ensures NodeForms(n, a, b) == Forms(Rebuilt(n, l, r), a, b)
  {
    hide Combine, Equality;
    match n
    case NIndexScan(_, _, _, _, _) =>
    case NJoin(_, _, _, _) =>
    case NWhole(_) =>
    case _ =>
  }

  function NodePrice(m: Stats, n: Node, q: Plan, total: real): (c: real) {
    if n.NIndexScan? && n.alt.Some? then
      if q.IndexScan? then ProbeCost(m, n.table, n.alt.value.rawPreds) else ScanCost(m, n.table, n.alt.value.rawPreds)
    else CostOf(m, q, total)
  }

  lemma NodePriceIs(m: Stats, n: Node, l: Logical, r: Logical, q: Plan, total: real)
    requires n.NWhole? ==> n.plan.LMutation?
    ensures NodePrice(m, n, q, total) == Price(m, Rebuilt(n, l, r), q, total)
  {
  }

  /** The scoring loop: the first cheapest candidate. */
  method Score(m: Stats, n: Node, cands: seq<Plan>, total: real, ghost p: Logical) returns (best: (Plan, real))
    requires cands != []
    requires forall q :: NodePrice(m, n, q, total) == Price(m, p, q, total)
    ensures best == Pick(m, p, cands, total)
  {
    hide NodePrice, Price;
    best := (cands[0], NodePrice(m, n, cands[0], total));
    assert cands[..1] == [cands[0]];
    for i := 1 to |cands|
      invariant best == Pick(m, p, cands[..i], total)
    {
      var cost := NodePrice(m, n, cands[i], total);
      assert cands[..i + 1][..i] == cands[..i];
      if cost < best.1 {
        best := (cands[i], cost);
      }
    }
    assert cands[..|cands|] == cands;
  }

  // ------------------------------------------------------------------ the table

  /** A winner is what recomputation would give. */
  ghost predicate WinnerIs(m: Stats, gs: seq<Group>, i: nat)
    requires Ordered(gs) && i < |gs|
  {
    gs[i].winner.Some? ==> gs[i].winner.value == Best(m, Unfold(gs, i))
  }

  ghost predicate WinnersAre(m: Stats, gs: seq<Group>)
    requires Ordered(gs)
  {
    forall i: nat | i < |gs| :: WinnerIs(m, gs, i)
  }

  /** Appending a group changes nothing about the others. */
  lemma Appended(m: Stats, gs: seq<Group>, n: Node)
    requires Ordered(gs) && Below(n, |gs|)
    ensures var gs' := gs + [Group(n, None)];
      && Ordered(gs') && (forall i: nat | i < |gs| :: Unfold(gs', i) == Unfold(gs, i))
      && (WinnersAre(m, gs) ==> WinnersAre(m, gs'))
  {
    hide Unfold, Best;
    var gs' := gs + [Group(n, None)];
    forall i: nat | i < |gs| ensures Unfold(gs', i) == Unfold(gs, i) {
      UnfoldLocal(gs', gs, i);
    }
    if WinnersAre(m, gs) {
      forall i: nat | i < |gs'| ensures WinnerIs(m, gs', i) {
        if i < |gs| {
          assert WinnerIs(m, gs, i);
        }
      }
    }
  }

  /** Recording a winner changes no plan. */
  lemma Recorded(m: Stats, gs: seq<Group>, gid: nat, w: (Plan, real))
    requires Ordered(gs) && gid < |gs| && WinnersAre(m, gs) && w == Best(m, Unfold(gs, gid))
    ensures var gs' := gs[gid := gs[gid].(winner := Some(w))];
      Ordered(gs') && WinnersAre(m, gs') && forall i: nat | i < |gs| :: Unfold(gs', i) == Unfold(gs, i)
  {
    hide Unfold, Best;
    var gs' := gs[gid := gs[gid].(winner := Some(w))];
    forall i: nat | i < |gs| ensures Unfold(gs', i) == Unfold(gs, i) {
      UnfoldLocal(gs', gs, i);
    }
    forall i: nat | i < |gs'| ensures WinnerIs(m, gs', i) {
      assert WinnerIs(m, gs, i);
    }
  }

  lemma RebuiltInputs(n: Node, l: Logical, r: Logical)
    requires n.NWhole? ==> n.plan.LMutation?
    ensures var p := Rebuilt(n, l, r);
      && TwoInputs(p) == TwoGroups(n) && OneInput(p) == OneGroup(n)
      && (TwoGroups(n) ==> p.left == l && p.right == r) && (OneGroup(n) ==> p.src == l)
  {
  }

  /** The winners of the inputs of a group, and what they cost together. */
  function Inputs(m: Stats, gs: seq<Group>, gid: nat): (r: (Plan, Plan, real))
    requires Ordered(gs) && gid < |gs|
  {
    var n := gs[gid].node;
    if TwoGroups(n) then
      var a, b := Best(m, Unfold(gs, n.left)), Best(m, Unfold(gs, n.right));
      (a.0, b.0, a.1 + b.1)
    else if OneGroup(n) then
      var a := Best(m, Unfold(gs, n.src));
      (a.0, a.0, a.1)
    else (NoInput(), NoInput(), 0.0)
  }

  lemma UnfoldParts(gs: seq<Group>, gid: nat) returns (a: Logical, b: Logical)
    requires Ordered(gs) && gid < |gs|
    ensures var n := gs[gid].node;
      && Unfold(gs, gid) == Rebuilt(n, a, b) && (n.NWhole? ==> n.plan.LMutation?)
      && (TwoGroups(n) ==> a == Unfold(gs, n.left) && b == Unfold(gs, n.right))
      && (OneGroup(n) ==> a == Unfold(gs, n.src))
  {
    hide Rebuilt;
    var n := gs[gid].node;
    a := if TwoGroups(n) then Unfold(gs, n.left) else if OneGroup(n) then Unfold(gs, n.src) else NONE;
    b := if TwoGroups(n) then Unfold(gs, n.right) else NONE;
  }

  /** A group resolves to the best of its node's forms over the winners of its inputs. */
  lemma {:induction false} BestOfGroup(m: Stats, gs: seq<Group>, gid: nat)
    requires Ordered(gs) && gid < |gs|
    ensures var (l, r, total) := Inputs(m, gs, gid);
      Best(m, Unfold(gs, gid)) == Pick(m, Unfold(gs, gid), NodeForms(gs[gid].node, l, r), total)
  {
    hide NodeForms, Rebuilt, Pick, Price, Best, Unfold;
    var a, b := UnfoldParts(gs, gid);
    BestOfNode(m, gs[gid].node, a, b);
  }

  lemma {:induction false} PriceOfGroup(m: Stats, gs: seq<Group>, gid: nat, total: real)
    requires Ordered(gs) && gid < |gs|
    ensures forall q :: NodePrice(m, gs[gid].node, q, total) == Price(m, Unfold(gs, gid), q, total)
  {
    hide Rebuilt, NodePrice, Price, Unfold;
    var a, b := UnfoldParts(gs, gid);
    forall q ensures NodePrice(m, gs[gid].node, q, total) == Price(m, Unfold(gs, gid), q, total) {
      NodePriceIs(m, gs[gid].node, a, b, q, total);
    }
  }

  lemma {:induction false} BestOfNode(m: Stats, n: Node, a: Logical, b: Logical)
    requires n.NWhole? ==> n.plan.LMutation?
    ensures var l, r := Best(m, a), Best(m, b); var p := Rebuilt(n, a, b);
      Best(m, p) ==
      if TwoGroups(n) then Pick(m, p, NodeForms(n, l.0, r.0), l.1 + r.1)
      else if OneGroup(n) then Pick(m, p, NodeForms(n, l.0, l.0), l.1)
      else Pick(m, p, NodeForms(n, NoInput(), NoInput()), 0.0)
  {
    hide NodeForms, Forms, Rebuilt, Pick, Price;
    var l, r := Best(m, a), Best(m, b);
    RebuiltInputs(n, a, b);
    NodeFormsAre(n, a, b, l.0, r.0);
    NodeFormsAre(n, a, b, l.0, l.0);
    NodeFormsAre(n, a, b, NoInput(), NoInput());
  }

  /** The same plans under the same numbers. */
  ghost predicate SamePlans(a: seq<Group>, b: seq<Group>) {
    && Ordered(a) && Ordered(b) && |a| == |b|
    && (forall i | 0 <= i < |a| :: a[i].node == b[i].node)
    && (forall i: nat | i < |a| :: Unfold(a, i) == Unfold(b, i))
    && (forall i | 0 <= i < |a| && a[i].winner.Some? :: b[i].winner == a[i].winner)
  }

  class Memo {
    var groups: seq<Group>

    ghost predicate Valid()
      reads this
    {
      Ordered(groups)
    }

    constructor ()
      ensures Valid() && groups == []
    {
      groups := [];
    }

    method NewGroup(n: Node) returns (gid: nat)
      requires Valid() && Below(n, |groups|)
      modifies this
      ensures Valid() && groups == old(groups) + [Group(n, None)] && gid == |old(groups)|
    {
      gid := |groups|;
      groups := groups + [Group(n, None)];
    }

    /** Resolve a group, its inputs first; a group that has a winner keeps it. */
    method ResolveCosted(m: Stats, gid: nat) returns (w: (Plan, real))
      requires Valid() && gid < |groups| && WinnersAre(m, groups)
      modifies this
      ensures Valid() && WinnersAre(m, groups) && SamePlans(old(groups), groups)
      ensures w == Best(m, Unfold(groups, gid)) && groups[gid].winner == Some(w)
      decreases gid
    {
      hide Unfold, Best, NodeForms, NodePrice, Price;
      if groups[gid].winner.Some? {
        assert WinnerIs(m, groups, gid);
        return groups[gid].winner.value;
      }
      var n := groups[gid].node;
      var l, r, total := ResolveInputs(m, gid);
      BestOfGroup(m, groups, gid);
      PriceOfGroup(m, groups, gid, total);
      w := Score(m, n, NodeForms(n, l, r), total, Unfold(groups, gid));
      Recorded(m, groups, gid, w);
      groups := groups[gid := groups[gid].(winner := Some(w))];
    }

    method ResolveInputs(m: Stats, gid: nat) returns (l: Plan, r: Plan, total: real)
      requires Valid() && gid < |groups| && WinnersAre(m, groups) && groups[gid].winner.None?
      modifies this
      ensures Valid() && WinnersAre(m, groups) && SamePlans(old(groups), groups)
      ensures (l, r, total) == Inputs(m, groups, gid)
      decreases gid, 0
    {
      hide Unfold, Best;
      var n := groups[gid].node;
      if TwoGroups(n) {
        var a := ResolveCosted(m, n.left);
        var b := ResolveCosted(m, n.right);
        l, r, total := a.0, b.0, a.1 + b.1;
      } else if OneGroup(n) {
        var a := ResolveCosted(m, n.src);
        l, r, total := a.0, a.0, a.1;
      } else {
        l, r, total := NoInput(), NoInput(), 0.0;
      }
    }

    /** Enter a plan, its inputs before it. The group stands for the plan, and no earlier group changes. */
    method AddGroup(p: Logical, cat: Option<Catalog>) returns (gid: nat)
      requires Valid()
      modifies this
      ensures Valid() && old(groups) <= groups && gid == |groups| - 1 && gid >= |old(groups)|
      ensures forall i | |old(groups)| <= i < |groups| :: groups[i].winner.None?
      ensures Unfold(groups, gid) == Annotate(cat, p)
      decreases p
    {
      hide Rebuilt, AltOf;
      if TwoInputs(p) {
        var l := AddGroup(p.left, cat);
        ghost var mid := groups;
        var r := AddGroup(p.right, cat);
        TwoNodeIs(p, cat, l, r);
        UnfoldLocal(mid, groups, l);
        UnfoldLocal(groups, groups + [Group(TwoNode(p, l, r), None)], l);
        UnfoldLocal(groups, groups + [Group(TwoNode(p, l, r), None)], r);
        gid := NewGroup(TwoNode(p, l, r));
      } else if OneInput(p) {
        var src := AddGroup(p.src, cat);
        OneNodeIs(p, cat, src);
        UnfoldLocal(groups, groups + [Group(OneNode(p, src), None)], src);
        gid := NewGroup(OneNode(p, src));
      } else {
        LeafNodeIs(p, cat);
        gid := NewGroup(LeafNode(p, cat));
      }
    }
  }

  /** The node of a plan with one input, in group `src`. */
  function OneNode(p: Logical, src: nat): (n: Node)
    requires OneInput(p)
  {
    match p
    case LSelect(_, preds) => NSelect(src, preds)
    case LProject(_, cols) => NProject(src, cols)
    case LOrderBy(_, order) => NOrderBy(src, order)
    case LAggregate(_, groupBy, aggrs) => NAggregate(src, groupBy, aggrs)
    case LMap(_, exprs) => NMap(src, exprs)
    case LRename(_, names) => NRename(src, names)
  }

  lemma OneNodeIs(p: Logical, cat: Option<Catalog>, src: nat)
    requires OneInput(p)
    ensures var n := OneNode(p, src);
      OneGroup(n) && !TwoGroups(n) && n.src == src && Rebuilt(n, Annotate(cat, p.src), NONE) == Annotate(cat, p)
  {
  }

  function TwoNode(p: Logical, left: nat, right: nat): (n: Node)
    requires TwoInputs(p)
  {
    match p
    case LJoin(t, _, _, preds) => NJoin(t, left, right, preds)
    case LFlatMap(_, _) => NFlatMap(left, right)
  }

  lemma TwoNodeIs(p: Logical, cat: Option<Catalog>, left: nat, right: nat)
    requires TwoInputs(p)
    ensures var n := TwoNode(p, left, right);
      TwoGroups(n) && n.left == left && n.right == right
      && Rebuilt(n, Annotate(cat, p.left), Annotate(cat, p.right)) == Annotate(cat, p)
  {
  }

  function LeafNode(p: Logical, cat: Option<Catalog>): (n: Node)
    requires !TwoInputs(p) && !OneInput(p)
  {
    match p
    case LScan(cid, cols) => NScan(cid, cols)
    case LIndexScan(cid, cols, index, keys, _) => NIndexScan(cid, cols, index, keys, AltOf(cat, cid, cols, index, keys))
    case LMutation(_, _) => NWhole(p)
  }

  lemma LeafNodeIs(p: Logical, cat: Option<Catalog>)
    requires !TwoInputs(p) && !OneInput(p)
    ensures var n := LeafNode(p, cat);
      !TwoGroups(n) && !OneGroup(n) && (n.NWhole? ==> n.plan.LMutation?) && Rebuilt(n, NONE, NONE) == Annotate(cat, p)
  {
  }

  // ------------------------------------------------------------------ whole use of the memo

  /** Entering a plan and reconstructing it gives the plan back, also once more groups were added. */
  lemma {:induction false} RoundTrip(gs: seq<Group>, more: seq<Group>, gid: nat, p: Logical, cat: Option<Catalog>)
    requires Ordered(gs) && Ordered(gs + more) && gid < |gs| && Unfold(gs, gid) == Annotate(cat, p) && Strip(p) == p
    ensures Reconstruct(gs, gid) == p && Reconstruct(gs + more, gid) == p
  {
    UnfoldLocal(gs, gs + more, gid);
    ReconstructStrips(gs, gid);
    ReconstructStrips(gs + more, gid);
    StripAnnotate(cat, p);
  }

  /**
   * A fresh memo resolves a plan to a cheapest candidate. It yields the rows the plan asks for, as long as
   * index scans list their columns in order and no aggregate overflows.
   */
  method Optimize(m: Stats, cat: Option<Catalog>, p: Logical, ghost w: World, ghost width: TableId -> nat, ghost outer: Named)
    returns (q: Plan, cost: real)
    requires m.Valid() && ProbesFind(w) && CatalogAgrees(w, cat)
    ensures Candidate(Annotate(cat, p), q) && cost == PlanCost(m, Annotate(cat, p), q)
    ensures forall q' | Candidate(Annotate(cat, p), q') :: cost <= PlanCost(m, Annotate(cat, p), q')
    ensures IndexScansSound(w, width, p) && NoneFails(w, outer, p) ==> SameBag(w, outer, p, q)
  {
    hide Annotate, Candidate, Best, ProbesFind, CatalogAgrees, IndexScansSound, NoneFails, SameBag;
    var memo := new Memo();
    var gid := memo.AddGroup(p, cat);
    var winner := memo.ResolveCosted(m, gid);
    q, cost := winner.0, winner.1;
    BestIsCandidate(m, Annotate(cat, p));
    forall q' | Candidate(Annotate(cat, p), q') ensures cost <= PlanCost(m, Annotate(cat, p), q') {
      BestIsCheapest(m, Annotate(cat, p), q');
    }
    if IndexScansSound(w, width, p) && NoneFails(w, outer, p) {
      CandidateMeans(w, width, cat, outer, p, q);
    }
  }
}
