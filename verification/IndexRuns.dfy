/** Lookups in trees. */
module IndexRuns {
  import opened Base
  import opened TreeModel
  import opened IndexUpkeep
  import opened Bags
  import Statements
  import Tree = TreeRuns

  /** The order in which a table is scanned when an index on it is created. */
  ghost predicate ScanOrder(scan: map<Rid, Row> -> seq<Rid>) {
    forall t :: multiset(scan(t)) == multiset(t.Keys)
  }

  // ------------------------------------------------------------------ what a statement does to one index

  function Entries(table: map<Rid, Row>, cols: seq<nat>, rids: seq<Rid>): (es: seq<Entry>) {
    if rids == [] then []
    else
      var n := |rids| - 1;
      Entries(table, cols, rids[..n]) + if rids[n] in table then [Entry(ExtractKey(table[rids[n]], cols), rids[n])] else []
  }

  /** The tree operations of a statement on index `id`. */
  ghost function OpsOf(scan: map<Rid, Row> -> seq<Rid>, s: State, width: nat, step: Step,
      id: IndexId): (ops: seq<Tree.Op>) {
    if !Shaped(s, width) || !Enabled(s, width, step) then []
    else if step.CreateIndex? then
      if step.id == id then Tree.InsertsOf(Entries(s.table, step.cols, scan(s.table))) else []
    else if id !in s.columns then []
    else
      var cols := s.columns[id];
      match step
      case Insert(rid, row) => [Tree.Ins(ExtractKey(row, cols), rid)]
      case Update(rid, newRid, row) =>
        [Tree.Del(ExtractKey(s.table[rid], cols), rid), Tree.Ins(ExtractKey(row, cols), newRid)]
      case Delete(rid) => [Tree.Del(ExtractKey(s.table[rid], cols), rid)]
  }

  /** The tree operations of a run of statements on index `id`. */
  ghost function Log(scan: map<Rid, Row> -> seq<Rid>, width: nat, steps: seq<Step>, id: IndexId): (ops: seq<Tree.Op>) {
    if steps == [] then []
    else
      var n := |steps| - 1;
      Log(scan, width, steps[..n], id) + OpsOf(scan, Run(width, steps[..n]), width, steps[n], id)
  }

  // ------------------------------------------------------------------ the entries

  ghost function EntriesOf(s: State, id: IndexId): (b: multiset<Entry>) {
    if id in s.columns && id in s.trees then s.trees[id] else multiset{}
  }

  lemma IdealDone(ops: seq<Tree.Op>, op: Tree.Op)
    ensures Tree.Ideal(ops + [op])
      == (if op.Ins? then Tree.Ideal(ops) + multiset{Entry(op.key, op.rid)} else Tree.Ideal(ops) - multiset{Entry(op.key, op.rid)})
  {
    assert (ops + [op])[..|ops|] == ops;
  }

  lemma InsertsLast(ops: seq<Tree.Op>, es: seq<Entry>)
    requires es != []
    ensures var n := |es| - 1;
      ops + Tree.InsertsOf(es) == ops + Tree.InsertsOf(es[..n]) + [Tree.Ins(es[n].key, es[n].rid)] && es == es[..n] + [es[n]]
  {
  }

  lemma LastBag<T>(b: multiset<T>, xs: seq<T>, x: T)
    ensures b + multiset(xs) + multiset{x} == b + multiset(xs + [x])
  {
  }

  lemma {:induction false} IdealInserts(ops: seq<Tree.Op>, es: seq<Entry>)
    ensures Tree.Ideal(ops + Tree.InsertsOf(es)) == Tree.Ideal(ops) + multiset(es)
  {
    hide Tree.Ideal;
    if es == [] {
      assert ops + Tree.InsertsOf(es) == ops;
    } else {
      hide Tree.InsertsOf;
      var n := |es| - 1;
      IdealInserts(ops, es[..n]);
      InsertsLast(ops, es);
      IdealDone(ops + Tree.InsertsOf(es[..n]), Tree.Ins(es[n].key, es[n].rid));
      LastBag(Tree.Ideal(ops), es[..n], es[n]);
      assert Entry(es[n].key, es[n].rid) == es[n];
    }
  }

  lemma {:induction false} EntryCount(table: map<Rid, Row>, cols: seq<nat>, rids: seq<Rid>, e: Entry)
    ensures multiset(Entries(table, cols, rids))[e]
      == if e.rid in table && ExtractKey(table[e.rid], cols) == e.key then multiset(rids)[e.rid] else 0
  {
    hide ExtractKey;
    if rids == [] {
    } else {
      var n := |rids| - 1;
      EntryCount(table, cols, rids[..n], e);
      assert rids == rids[..n] + [rids[n]];
    }
  }

  lemma ScannedIs(scan: map<Rid, Row> -> seq<Rid>, table: map<Rid, Row>, cols: seq<nat>, width: nat)
    requires ScanOrder(scan) && InRange(cols, width) && forall r | r in table :: |table[r]| == width
    ensures multiset(Entries(table, cols, scan(table))) == Scanned(table, cols, width)
  {
    hide ExtractKey, Entries, Scanned;
    ScannedAgrees(table, cols, width);
    forall e: Entry ensures multiset(Entries(table, cols, scan(table)))[e] == Scanned(table, cols, width)[e] {
      EntryCount(table, cols, scan(table), e);
    }
  }

  lemma CreateEntries(scan: map<Rid, Row> -> seq<Rid>, ops: seq<Tree.Op>, s: State, width: nat, i: IndexId,
      cols: seq<nat>, id: IndexId)
    requires ScanOrder(scan) && Shaped(s, width) && i !in s.columns && InRange(cols, width) && Tree.Ideal(ops) == EntriesOf(s, id)
    ensures Tree.Ideal(ops + if i == id then Tree.InsertsOf(Entries(s.table, cols, scan(s.table))) else [])
      == EntriesOf(s.(columns := s.columns[i := cols], trees := s.trees[i := Scanned(s.table, cols, width)]), id)
  {
    hide ExtractKey, Tree.Ideal, Entries, Tree.InsertsOf, Scanned, ScanOrder, InRange;
    if i == id {
      IdealInserts(ops, Entries(s.table, cols, scan(s.table)));
      ScannedIs(scan, s.table, cols, width);
    } else {
      assert ops + [] == ops;
    }
  }

  lemma AddEntries(ops: seq<Tree.Op>, s: State, width: nat, rid: Rid, row: Row, id: IndexId)
    requires Shaped(s, width) && |row| == width && id in s.columns && Tree.Ideal(ops) == EntriesOf(s, id)
    ensures Tree.Ideal(ops + [Tree.Ins(ExtractKey(row, s.columns[id]), rid)]) == EntriesOf(Added(s, width, rid, row), id)
  {
    hide ExtractKey, Tree.Ideal, InRange;
    IdealDone(ops, Tree.Ins(ExtractKey(row, s.columns[id]), rid));
  }

  lemma RemoveEntries(ops: seq<Tree.Op>, s: State, width: nat, rid: Rid, id: IndexId)
    requires Shaped(s, width) && rid in s.table && id in s.columns && Tree.Ideal(ops) == EntriesOf(s, id)
    ensures Tree.Ideal(ops + [Tree.Del(ExtractKey(s.table[rid], s.columns[id]), rid)]) == EntriesOf(Removed(s, width, rid), id)
  {
    hide ExtractKey, Tree.Ideal, InRange;
    IdealDone(ops, Tree.Del(ExtractKey(s.table[rid], s.columns[id]), rid));
  }

  lemma RemovedShaped(s: State, width: nat, rid: Rid)
    requires Shaped(s, width) && rid in s.table
    ensures Shaped(Removed(s, width, rid), width) && Removed(s, width, rid).columns == s.columns
  {
    hide InRange;
  }

  /** The log of a statement takes the entries of the index before it to those after it. */
  lemma StepEntries(scan: map<Rid, Row> -> seq<Rid>, ops: seq<Tree.Op>, s: State, width: nat, step: Step, id: IndexId)
    requires ScanOrder(scan) && Shaped(s, width) && Enabled(s, width, step) && Tree.Ideal(ops) == EntriesOf(s, id)
    ensures Tree.Ideal(ops + OpsOf(scan, s, width, step, id)) == EntriesOf(Apply(s, width, step), id)
  {
    hide ExtractKey, Tree.Ideal, Entries, Tree.InsertsOf, Scanned, ScanOrder, EntriesOf, Shaped, InRange, Added, Removed;
    if step.CreateIndex? {
      CreateEntries(scan, ops, s, width, step.id, step.cols, id);
    } else if id !in s.columns {
      NoIndexNoEntries(s, width, step, id);
      assert ops + [] == ops;
    } else {
      match step
      case Insert(rid, row) => AddEntries(ops, s, width, rid, row, id);
      case Update(rid, newRid, row) =>
        var del, ins := Tree.Del(ExtractKey(s.table[rid], s.columns[id]), rid), Tree.Ins(ExtractKey(row, s.columns[id]), newRid);
        RemoveEntries(ops, s, width, rid, id);
        RemovedShaped(s, width, rid);
        AddEntries(ops + [del], Removed(s, width, rid), width, newRid, row, id);
        assert ops + [del, ins] == ops + [del] + [ins];
      case Delete(rid) => RemoveEntries(ops, s, width, rid, id);
    }
  }

  lemma NoIndexNoEntries(s: State, width: nat, step: Step, id: IndexId)
    requires Shaped(s, width) && Enabled(s, width, step) && !step.CreateIndex? && id !in s.columns
    ensures EntriesOf(s, id) == EntriesOf(Apply(s, width, step), id) == multiset{}
  {
    if step.Update? {
      RemovedShaped(s, width, step.rid);
    }
  }

  /** After any run of statements the log of an index, played on an ideal index, leaves that index. */
  lemma {:induction false} LogEntries(scan: map<Rid, Row> -> seq<Rid>, width: nat, steps: seq<Step>, id: IndexId)
    requires ScanOrder(scan)
    ensures Tree.Ideal(Log(scan, width, steps, id)) == EntriesOf(Run(width, steps), id)
  {
    hide OpsOf, Apply, Agrees, Tree.Ideal;
    if steps == [] {
      NoneYet();
    } else {
      var n := |steps| - 1;
      var s, step := Run(width, steps[..n]), steps[n];
      LogEntries(scan, width, steps[..n], id);
      RunAgrees(width, steps[..n]);
      IsShaped(s, width);
      if Enabled(s, width, step) {
        StepEntries(scan, Log(scan, width, steps[..n], id), s, width, step, id);
      } else {
        NothingDone(scan, s, width, step, id);
        var ops := Log(scan, width, steps[..n], id);
        assert ops + [] == ops;
      }
    }
  }

  lemma NoneYet()
    ensures Tree.Ideal([]) == multiset{}
  {
  }

  lemma IsShaped(s: State, width: nat)
    requires Agrees(s, width)
    ensures Shaped(s, width)
  {
  }

  lemma NothingDone(scan: map<Rid, Row> -> seq<Rid>, s: State, width: nat, step: Step, id: IndexId)
    requires !Enabled(s, width, step)
    ensures OpsOf(scan, s, width, step, id) == []
  {
  }

  // ------------------------------------------------------------------ unique keys

  /** No two rows of the table have the same key in index `id`. */
  ghost predicate UniqueKeys(s: State, id: IndexId) {
    id in s.columns ==>
      forall a, b | a in s.table && b in s.table
        && ExtractKey(s.table[a], s.columns[id]) == ExtractKey(s.table[b], s.columns[id]) :: a == b
  }

  /** Keys are unique after every statement of the run. */
  ghost predicate UniqueRun(width: nat, steps: seq<Step>, id: IndexId) {
    UniqueKeys(Run(width, steps), id) && (steps == [] || UniqueRun(width, steps[..|steps| - 1], id))
  }

  lemma FreshDone(ops: seq<Tree.Op>, op: Tree.Op)
    requires Tree.FreshRun(ops) && (op.Ins? ==> forall e: Entry | e in Tree.Ideal(ops) :: e.key != op.key)
    ensures Tree.FreshRun(ops + [op])
  {
    assert (ops + [op])[..|ops|] == ops;
  }

  /** A row that comes with a new key: no entry of the index has it. */
  lemma NewKey(s: State, width: nat, rid: Rid, row: Row, id: IndexId)
    requires Agrees(s, width) && |row| == width && id in s.columns && rid !in s.table && UniqueKeys(Added(s, width, rid, row), id)
    ensures forall e | e in s.trees[id] :: e.key != ExtractKey(row, s.columns[id])
  {
    hide ExtractKey;
    var cols, s' := s.columns[id], Added(s, width, rid, row);
    forall e | e in s.trees[id] ensures e.key != ExtractKey(row, cols) {
      assert TreeAgrees(s.trees[id], cols, s.table, width) && e.rid in s.table;
      assert s'.table[e.rid] == s.table[e.rid] && s'.table[rid] == row;
    }
  }

  ghost predicate DistinctKeys(es: seq<Entry>) {
    forall i, j | 0 <= i < j < |es| :: es[i].key != es[j].key
  }

  lemma {:induction false} FreshInserts(ops: seq<Tree.Op>, es: seq<Entry>)
    requires Tree.FreshRun(ops) && Tree.Ideal(ops) == multiset{}
    requires DistinctKeys(es)
    ensures Tree.FreshRun(ops + Tree.InsertsOf(es))
  {
    hide Tree.Ideal, Tree.FreshRun;
    if es == [] {
      assert ops + Tree.InsertsOf(es) == ops;
    } else {
      hide Tree.InsertsOf;
      var n := |es| - 1;
      FreshInserts(ops, es[..n]);
      IdealInserts(ops, es[..n]);
      InsertsLast(ops, es);
      forall e | e in Tree.Ideal(ops + Tree.InsertsOf(es[..n])) ensures e.key != es[n].key {
        assert e in multiset(es[..n]);
        var i := IndexOf(es[..n], e);
      }
      FreshDone(ops + Tree.InsertsOf(es[..n]), Tree.Ins(es[n].key, es[n].rid));
    }
  }

  lemma ScannedKeys(scan: map<Rid, Row> -> seq<Rid>, s: State, width: nat, id: IndexId, cols: seq<nat>)
    requires ScanOrder(scan) && Shaped(s, width) && InRange(cols, width)
    requires forall a, b | a in s.table && b in s.table && ExtractKey(s.table[a], cols) == ExtractKey(s.table[b], cols) :: a == b
    ensures DistinctKeys(Entries(s.table, cols, scan(s.table)))
  {
    hide ExtractKey, Entries, Scanned;
    var es := Entries(s.table, cols, scan(s.table));
    forall i, j | 0 <= i < j < |es| ensures es[i].key != es[j].key {
      EntryCount(s.table, cols, scan(s.table), es[i]);
      EntryCount(s.table, cols, scan(s.table), es[j]);
      assert es[i] in multiset(es) && es[j] in multiset(es);
      if es[i].key == es[j].key {
        assert es[i] == Entry(es[i].key, es[i].rid) && es[j] == Entry(es[j].key, es[j].rid);
        TwiceCounts(es, i, j);
      }
    }
  }

  /** A statement that leaves keys unique only inserts keys that are not live. */
  lemma StepFresh(scan: map<Rid, Row> -> seq<Rid>, ops: seq<Tree.Op>, s: State, width: nat, step: Step, id: IndexId)
    requires ScanOrder(scan) && Agrees(s, width) && Enabled(s, width, step) && Tree.Ideal(ops) == EntriesOf(s, id)
    requires Tree.FreshRun(ops) && UniqueKeys(Apply(s, width, step), id)
    ensures Tree.FreshRun(ops + OpsOf(scan, s, width, step, id))
  {
    hide ExtractKey, Tree.Ideal, Tree.FreshRun, Entries, Tree.InsertsOf, Scanned, ScanOrder, TreeAgrees, InRange;
    hide Added, Removed, UniqueKeys;
    if step.CreateIndex? {
      if step.id == id {
        CreatedKeys(s, width, step.cols, id);
        ScannedKeys(scan, s, width, id, step.cols);
        FreshInserts(ops, Entries(s.table, step.cols, scan(s.table)));
      } else {
        assert ops + [] == ops;
      }
    } else if id !in s.columns {
      assert ops + [] == ops;
    } else {
      var cols := s.columns[id];
      match step
      case Insert(rid, row) =>
        NewKey(s, width, rid, row, id);
        FreshDone(ops, Tree.Ins(ExtractKey(row, cols), rid));
      case Update(rid, newRid, row) =>
        var del, ins := Tree.Del(ExtractKey(s.table[rid], cols), rid), Tree.Ins(ExtractKey(row, cols), newRid);
        FreshDone(ops, del);
        RemoveEntries(ops, s, width, rid, id);
        RemovedShaped(s, width, rid);
        RemovedKeeps(s, width, rid);
        RemovedTable(s, width, rid);
        NewKey(Removed(s, width, rid), width, newRid, row, id);
        FreshDone(ops + [del], ins);
        assert ops + [del, ins] == ops + [del] + [ins];
      case Delete(rid) => FreshDone(ops, Tree.Del(ExtractKey(s.table[rid], cols), rid));
    }
  }

  lemma CreatedKeys(s: State, width: nat, cols: seq<nat>, id: IndexId)
    requires Shaped(s, width) && InRange(cols, width)
    requires UniqueKeys(s.(columns := s.columns[id := cols], trees := s.trees[id := Scanned(s.table, cols, width)]), id)
    ensures forall a, b | a in s.table && b in s.table && ExtractKey(s.table[a], cols) == ExtractKey(s.table[b], cols) :: a == b
  {
  }

  lemma RemovedTable(s: State, width: nat, rid: Rid)
    requires Shaped(s, width) && rid in s.table
    ensures Removed(s, width, rid).table == s.table - {rid}
  {
  }

  lemma {:induction false} LogFresh(scan: map<Rid, Row> -> seq<Rid>, width: nat, steps: seq<Step>, id: IndexId)
    requires ScanOrder(scan) && UniqueRun(width, steps, id)
    ensures Tree.FreshRun(Log(scan, width, steps, id))
  {
    hide OpsOf, Apply, Agrees, Tree.Ideal, UniqueKeys;
    if steps == [] {
    } else {
      hide Tree.FreshRun;
      var n := |steps| - 1;
      var s, step, ops := Run(width, steps[..n]), steps[n], Log(scan, width, steps[..n], id);
      LogFresh(scan, width, steps[..n], id);
      LogEntries(scan, width, steps[..n], id);
      RunAgrees(width, steps[..n]);
      IsShaped(s, width);
      if Enabled(s, width, step) {
        StepFresh(scan, ops, s, width, step, id);
      } else {
        NothingDone(scan, s, width, step, id);
        assert ops + [] == ops;
      }
    }
  }

  // ------------------------------------------------------------------ lookups

  /** The rows a lookup of `k` fetches through the tree of index `id`. */
  ghost function Fetched(c: Format, scan: map<Rid, Row> -> seq<Rid>, width: nat, steps: seq<Step>, id: IndexId,
      k: Key): (rows: seq<Statements.Stamped>) {
    Flat(Statements.Stamp(Run(width, steps).table), Tree.Search(c, Tree.Run(c, Log(scan, width, steps, id)), k))
  }

  /** Whatever the order of the scan, they are the rows of a full scan with the filter `key = k`. */
  ghost predicate LooksUp(c: Format, scan: map<Rid, Row> -> seq<Rid>, width: nat, steps: seq<Step>, id: IndexId, k: Key)
    requires id in Run(width, steps).columns
  {
    var s := Run(width, steps);
    forall order: seq<Rid> | multiset(order) == multiset(s.table.Keys) ::
      multiset(Fetched(c, scan, width, steps, id, k)) == multiset(Statements.FilteredScan(s.table, order, s.columns[id], k))
  }

  lemma FoundLooksUp(c: Format, scan: map<Rid, Row> -> seq<Rid>, width: nat, steps: seq<Step>, id: IndexId, k: Key)
    requires id in Run(width, steps).columns && Agrees(Run(width, steps), width)
    requires Found(Run(width, steps).trees[id], k, Tree.Search(c, Tree.Run(c, Log(scan, width, steps, id)), k))
    ensures LooksUp(c, scan, width, steps, id, k)
  {
    hide Tree.Search, Tree.Run, Log, Run, Flat, Statements.FilteredScan, Found, Agrees;
    var s, found := Run(width, steps), Tree.Search(c, Tree.Run(c, Log(scan, width, steps, id)), k);
    forall order: seq<Rid> | multiset(order) == multiset(s.table.Keys)
      ensures multiset(Fetched(c, scan, width, steps, id, k)) == multiset(Statements.FilteredScan(s.table, order, s.columns[id], k))
    {
      Statements.SearchIsScan(s, width, id, k, found, order);
    }
  }

  /**
   * After any run of statements that never leaves two rows with the same key, a lookup through the tree
   * fetches exactly the rows of a full scan with the equality filter.
   */
  lemma UniqueLookup(c: Format, scan: map<Rid, Row> -> seq<Rid>, width: nat, steps: seq<Step>, id: IndexId, k: Key)
    requires c.Valid() && ScanOrder(scan) && UniqueRun(width, steps, id) && id in Run(width, steps).columns
    ensures LooksUp(c, scan, width, steps, id, k)
  {
    hide Tree.Search, Tree.Run, Tree.Ideal, Log, Run, LooksUp, UniqueRun, TreeAgrees, Tree.FreshRun;
    var s, ops := Run(width, steps), Log(scan, width, steps, id);
    RunAgrees(width, steps);
    LogEntries(scan, width, steps, id);
    LogFresh(scan, width, steps, id);
    Tree.FreshRunSearch(c, ops, k);
    AtMostOnce(s, width, id);
    UniqueFound(s.trees[id], k, Tree.Search(c, Tree.Run(c, ops), k));
    FoundLooksUp(c, scan, width, steps, id, k);
  }

  lemma AtMostOnce(s: State, width: nat, id: IndexId)
    requires Agrees(s, width) && id in s.columns
    ensures forall e: Entry :: s.trees[id][e] <= 1
  {
    assert TreeAgrees(s.trees[id], s.columns[id], s.table, width);
  }

  lemma UniqueFound(b: multiset<Entry>, k: Key, found: seq<Rid>)
    requires forall r | Entry(k, r) in b :: found == [r]
    requires (forall r :: Entry(k, r) !in b) ==> found == []
    requires forall e: Entry :: b[e] <= 1
    ensures Found(b, k, found)
  {
    forall r: Rid ensures multiset(found)[r] == b[Entry(k, r)] {
      if exists q :: Entry(k, q) in b {
        var q :| Entry(k, q) in b;
        assert found == [q];
        if Entry(k, r) in b {
          assert found == [r];
        }
      }
    }
  }

  lemma CatCount<T>(a: seq<T>, b: seq<T>, x: T)
    ensures multiset(a + b)[x] == multiset(a)[x] + multiset(b)[x]
  {
  }

  lemma {:induction false} StampCount(table: map<Rid, Row>, rids: seq<Rid>, r: Rid)
    requires r in table
    ensures multiset(Flat(Statements.Stamp(table), rids))[Statements.Stamped(Some(r), table[r])] == multiset(rids)[r]
  {
    var f, x := Statements.Stamp(table), Statements.Stamped(Some(r), table[r]);
    if rids == [] {
    } else {
      StampCount(table, rids[1..], r);
      CatCount([rids[0]], rids[1..], r);
      assert rids == [rids[0]] + rids[1..];
      CatCount(f(rids[0]), Flat(f, rids[1..]), x);
    }
  }

  lemma ScanCount(table: map<Rid, Row>, order: seq<Rid>, cols: seq<nat>, k: Key, r: Rid)
    requires r in table && multiset(order) == multiset(table.Keys)
    ensures multiset(Statements.FilteredScan(table, order, cols, k))[Statements.Stamped(Some(r), table[r])]
      == if ExtractKey(table[r], cols) == k then 1 else 0
  {
    hide ExtractKey, Flat;
    Statements.MeetingIs(table, order, cols, k, r);
    StampCount(table, Statements.Meeting(table, order, cols, k), r);
  }

  /** A lookup that fetches the right rows has found every entry of the key, and no other. */
  lemma LooksUpFound(c: Format, scan: map<Rid, Row> -> seq<Rid>, width: nat, steps: seq<Step>, id: IndexId, k: Key)
    requires ScanOrder(scan) && id in Run(width, steps).columns && Agrees(Run(width, steps), width)
    requires LooksUp(c, scan, width, steps, id, k)
    requires var b, found := Run(width, steps).trees[id], Tree.Search(c, Tree.Run(c, Log(scan, width, steps, id)), k);
      forall r :: multiset(found)[r] <= b[Entry(k, r)]
    ensures Found(Run(width, steps).trees[id], k, Tree.Search(c, Tree.Run(c, Log(scan, width, steps, id)), k))
  {
    hide Tree.Search, Tree.Run, Log, Run, Flat, Statements.FilteredScan, ExtractKey;
    var s, found := Run(width, steps), Tree.Search(c, Tree.Run(c, Log(scan, width, steps, id)), k);
    var order, cols := scan(s.table), s.columns[id];
    assert multiset(order) == multiset(s.table.Keys);
    forall r: Rid ensures multiset(found)[r] == s.trees[id][Entry(k, r)] {
      assert TreeAgrees(s.trees[id], cols, s.table, width);
      if r in s.table {
        StampCount(s.table, found, r);
        ScanCount(s.table, order, cols, k, r);
      }
    }
  }

  /**
   * After any run of statements whose tree operations insert clearly and miss no live entry, keys equal or
   * not, a lookup fetches exactly those rows if and only if no empty leaf interrupts the run of the key.
   */
  lemma LookupIff(c: Format, scan: map<Rid, Row> -> seq<Rid>, width: nat, steps: seq<Step>, id: IndexId, k: Key)
    requires c.Valid() && ScanOrder(scan) && id in Run(width, steps).columns
    requires var ops := Log(scan, width, steps, id); Tree.ClearRun(c, ops) && Tree.NoneMissed(c, ops)
    ensures LooksUp(c, scan, width, steps, id, k) <==> Tree.Unbroken(c, Tree.Run(c, Log(scan, width, steps, id)), k)
  {
    hide Tree.Search, Tree.Run, Tree.Ideal, Tree.Live, Log, Run, LooksUp, TreeAgrees, Tree.ClearRun, Tree.NoneMissed, Tree.Unbroken;
    var s, ops := Run(width, steps), Log(scan, width, steps, id);
    RunAgrees(width, steps);
    LogEntries(scan, width, steps, id);
    Tree.LiveIsIdeal(c, ops);
    Tree.ClearRunSearch(c, ops, k);
    Tree.ClearRunGood(c, ops);
    Tree.SearchSound(c, Tree.Run(c, ops), k);
    var found := Tree.Search(c, Tree.Run(c, ops), k);
    assert Found(s.trees[id], k, found) <==> Tree.Unbroken(c, Tree.Run(c, ops), k);
    if Found(s.trees[id], k, found) {
      FoundLooksUp(c, scan, width, steps, id, k);
    } else if LooksUp(c, scan, width, steps, id, k) {
      LooksUpFound(c, scan, width, steps, id, k);
    }
  }
}
