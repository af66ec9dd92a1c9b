/** What every statement keeps. */
module IndexUpkeep {
  import opened Base
  import opened TreeModel

  type IndexId = nat

  /** The live rows by record id, each index's key columns, and each index's entries. */
  datatype State = State(table: map<Rid, Row>, columns: map<IndexId, seq<nat>>, trees: map<IndexId, multiset<Entry>>)

  /** Every row has `width` fields and every index names columns among them. */
  ghost predicate Shaped(s: State, width: nat) {
    && (forall r | r in s.table :: |s.table[r]| == width)
    && (forall id | id in s.columns :: InRange(s.columns[id], width))
    && s.trees.Keys == s.columns.Keys
  }

  /** The index holds exactly one entry per live row: its key and its record id. */
  ghost predicate TreeAgrees(t: multiset<Entry>, cols: seq<nat>, table: map<Rid, Row>, width: nat)
    requires InRange(cols, width) && forall r | r in table :: |table[r]| == width
  {
    forall e: Entry :: t[e] == if e.rid in table && ExtractKey(table[e.rid], cols) == e.key then 1 else 0
  }

  ghost predicate Agrees(s: State, width: nat) {
    Shaped(s, width) && forall id | id in s.columns :: TreeAgrees(s.trees[id], s.columns[id], s.table, width)
  }

  // ------------------------------------------------------------------ steps

  datatype Step =
    | CreateIndex(id: IndexId, cols: seq<nat>)
    | Insert(rid: Rid, row: Row)
    | Update(rid: Rid, newRid: Rid, row: Row)
    | Delete(rid: Rid)

  /** What the storage and the catalog guarantee: new record ids are free, statements name live rows. */
  ghost predicate Enabled(s: State, width: nat, step: Step) {
    match step
    case CreateIndex(id, cols) => id !in s.columns && InRange(cols, width)
    case Insert(rid, row) => rid !in s.table && |row| == width
    case Update(rid, newRid, row) => rid in s.table && (newRid == rid || newRid !in s.table) && |row| == width
    case Delete(rid) => rid in s.table
  }

  ghost function Scanned(table: map<Rid, Row>, cols: seq<nat>, width: nat): (t: multiset<Entry>)
    requires InRange(cols, width) && forall r | r in table :: |table[r]| == width
  {
    multiset(set r | r in table :: Entry(ExtractKey(table[r], cols), r))
  }

  /** A row appears, with its entry in every index. */
  ghost function Added(s: State, width: nat, rid: Rid, row: Row): (s': State)
    requires Shaped(s, width) && |row| == width
  {
    s.(table := s.table[rid := row],
       trees := map id | id in s.columns :: s.trees[id] + multiset{Entry(ExtractKey(row, s.columns[id]), rid)})
  }

  /** A row disappears, with its entry in every index. */
  ghost function Removed(s: State, width: nat, rid: Rid): (s': State)
    requires Shaped(s, width) && rid in s.table
  {
    s.(table := s.table - {rid},
       trees := map id | id in s.columns ::
         s.trees[id] - multiset{Entry(ExtractKey(s.table[rid], s.columns[id]), rid)})
  }

  ghost function Apply(s: State, width: nat, step: Step): (s': State)
    requires Shaped(s, width) && Enabled(s, width, step)
  {
    match step
    case CreateIndex(id, cols) =>
      s.(columns := s.columns[id := cols], trees := s.trees[id := Scanned(s.table, cols, width)])
    case Insert(rid, row) => Added(s, width, rid, row)
    case Update(rid, newRid, row) => Added(Removed(s, width, rid), width, newRid, row)
    case Delete(rid) => Removed(s, width, rid)
  }

  lemma ScannedAgrees(table: map<Rid, Row>, cols: seq<nat>, width: nat)
    requires InRange(cols, width) && forall r | r in table :: |table[r]| == width
    ensures TreeAgrees(Scanned(table, cols, width), cols, table, width)
  {
    var t := Scanned(table, cols, width);
    forall e: Entry ensures t[e] == if e.rid in table && ExtractKey(table[e.rid], cols) == e.key then 1 else 0 {
      if e.rid in table && ExtractKey(table[e.rid], cols) == e.key {
        assert e == Entry(ExtractKey(table[e.rid], cols), e.rid);
      }
    }
  }

  lemma AddedAgrees(t: multiset<Entry>, cols: seq<nat>, table: map<Rid, Row>, width: nat, rid: Rid, row: Row)
    requires InRange(cols, width) && (forall r | r in table :: |table[r]| == width) && |row| == width
    requires TreeAgrees(t, cols, table, width) && rid !in table
    ensures TreeAgrees(t + multiset{Entry(ExtractKey(row, cols), rid)}, cols, table[rid := row], width)
  {
  }

  lemma RemovedAgrees(t: multiset<Entry>, cols: seq<nat>, table: map<Rid, Row>, width: nat, rid: Rid)
    requires InRange(cols, width) && (forall r | r in table :: |table[r]| == width) && rid in table
    requires TreeAgrees(t, cols, table, width)
    ensures TreeAgrees(t - multiset{Entry(ExtractKey(table[rid], cols), rid)}, cols, table - {rid}, width)
  {
  }

  lemma AddedKeeps(s: State, width: nat, rid: Rid, row: Row)
    requires Agrees(s, width) && rid !in s.table && |row| == width
    ensures Agrees(Added(s, width, rid, row), width)
  {
    hide TreeAgrees;
    var s' := Added(s, width, rid, row);
    forall id | id in s.columns ensures TreeAgrees(s'.trees[id], s.columns[id], s'.table, width) {
      AddedAgrees(s.trees[id], s.columns[id], s.table, width, rid, row);
    }
  }

  lemma RemovedKeeps(s: State, width: nat, rid: Rid)
    requires Agrees(s, width) && rid in s.table
    ensures Agrees(Removed(s, width, rid), width)
  {
    hide TreeAgrees;
    var s' := Removed(s, width, rid);
    forall id | id in s.columns ensures TreeAgrees(s'.trees[id], s.columns[id], s'.table, width) {
      RemovedAgrees(s.trees[id], s.columns[id], s.table, width, rid);
    }
  }

  lemma CreatedKeeps(s: State, width: nat, id: IndexId, cols: seq<nat>)
    requires Agrees(s, width) && id !in s.columns && InRange(cols, width)
    ensures Agrees(s.(columns := s.columns[id := cols], trees := s.trees[id := Scanned(s.table, cols, width)]), width)
  {
    hide TreeAgrees;
    ScannedAgrees(s.table, cols, width);
  }

  /** Every step keeps every index in agreement with its table. */
  lemma StepKeeps(s: State, width: nat, step: Step)
    requires Agrees(s, width) && Enabled(s, width, step)
    ensures Agrees(Apply(s, width, step), width)
  {
    hide TreeAgrees;
    match step
    case CreateIndex(id, cols) => CreatedKeeps(s, width, id, cols);
    case Insert(rid, row) => AddedKeeps(s, width, rid, row);
    case Update(rid, newRid, row) =>
      RemovedKeeps(s, width, rid);
      AddedKeeps(Removed(s, width, rid), width, newRid, row);
    case Delete(rid) => RemovedKeeps(s, width, rid);
  }

  const EMPTY := State(map[], map[], map[])

  /** The state after a run; a step that is not enabled leaves it as it is. */
  ghost function Run(width: nat, steps: seq<Step>): (s: State) {
    if steps == [] then EMPTY
    else
      var s, step := Run(width, steps[..|steps| - 1]), steps[|steps| - 1];
      if Shaped(s, width) && Enabled(s, width, step) then Apply(s, width, step) else s
  }

  /** After any run of statements each index agrees with its table. */
  lemma {:induction false} RunAgrees(width: nat, steps: seq<Step>)
    ensures Agrees(Run(width, steps), width)
  {
    if steps == [] {
    } else {
      var s, step := Run(width, steps[..|steps| - 1]), steps[|steps| - 1];
      RunAgrees(width, steps[..|steps| - 1]);
      if Enabled(s, width, step) {
        StepKeeps(s, width, step);
      }
    }
  }

  // ------------------------------------------------------------------ looking up

  /** What a search of an index returns: every record id stored under the key, as often as it is stored. */
  ghost predicate Found(t: multiset<Entry>, k: Key, rids: seq<Rid>) {
    forall r: Rid :: multiset(rids)[r] == t[Entry(k, r)]
  }

  /** An index search finds each live row with that key once, and no other: what a full scan with an equality filter finds. */
  lemma SearchIsFilter(s: State, width: nat, id: IndexId, k: Key, rids: seq<Rid>)
    requires Agrees(s, width) && id in s.columns && Found(s.trees[id], k, rids)
    ensures forall r :: r in rids <==> r in s.table && ExtractKey(s.table[r], s.columns[id]) == k
    ensures forall i, j | 0 <= i < j < |rids| :: rids[i] != rids[j]
  {
    var cols := s.columns[id];
    assert TreeAgrees(s.trees[id], cols, s.table, width);
    forall r: Rid ensures multiset(rids)[r] == if r in s.table && ExtractKey(s.table[r], cols) == k then 1 else 0 {
      assert s.trees[id][Entry(k, r)] == multiset(rids)[r];
    }
    forall r: Rid ensures r in rids <==> r in s.table && ExtractKey(s.table[r], cols) == k {
      assert r in rids <==> r in multiset(rids);
    }
    forall i, j | 0 <= i < j < |rids| ensures rids[i] != rids[j] {
      if rids[i] == rids[j] {
        TwiceCounts(rids, i, j);
      }
    }
  }

  lemma TwiceCounts<T>(s: seq<T>, i: nat, j: nat)
    requires i < j < |s| && s[i] == s[j]
    ensures multiset(s)[s[i]] >= 2
  {
    assert s == s[..i] + [s[i]] + s[i + 1..j] + [s[j]] + s[j + 1..];
  }
}
