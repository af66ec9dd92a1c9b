/** INSERT, UPDATE, DELETE, CREATE INDEX and index scans over a table and its indexes. */
module Statements {
  import opened Base
  import opened TreeModel
  import opened IndexUpkeep
  import opened HeapFiles
  import opened Bags

  type Trees = map<IndexId, multiset<Entry>>

  ghost predicate KeysOf(columns: map<IndexId, seq<nat>>, row: Row) {
    forall id | id in columns :: InRange(columns[id], |row|)
  }

  /** Exchange a row's old entry for its new one; without an old row, or without a new one, only half of it. */
  function ExchangedOne(cols: seq<nat>, t: multiset<Entry>, was: Option<(Row, Rid)>,
      now: Option<(Row, Rid)>): (r: multiset<Entry>)
    requires was.Some? ==> InRange(cols, |was.value.0|)
    requires now.Some? ==> InRange(cols, |now.value.0|)
  {
    var less := if was.Some? then t - multiset{Entry(ExtractKey(was.value.0, cols), was.value.1)} else t;
    if now.Some? then less + multiset{Entry(ExtractKey(now.value.0, cols), now.value.1)} else less
  }

  ghost predicate Fitting(columns: map<IndexId, seq<nat>>, trees: Trees, was: Option<(Row, Rid)>,
      now: Option<(Row, Rid)>) {
    && trees.Keys == columns.Keys
    && (was.Some? ==> KeysOf(columns, was.value.0))
    && (now.Some? ==> KeysOf(columns, now.value.0))
  }

  ghost function Exchanged(columns: map<IndexId, seq<nat>>, trees: Trees, was: Option<(Row, Rid)>,
      now: Option<(Row, Rid)>): (r: Trees)
    requires Fitting(columns, trees, was, now)
  {
    map id | id in columns :: ExchangedOne(columns[id], trees[id], was, now)
  }

  /** The loop over a table's indexes, in any order, that INSERT, UPDATE and DELETE share. */
  method Exchange(columns: map<IndexId, seq<nat>>, trees: Trees, was: Option<(Row, Rid)>, now: Option<(Row, Rid)>)
    returns (r: Trees)
    requires Fitting(columns, trees, was, now)
    ensures r == Exchanged(columns, trees, was, now)
  {
    hide ExchangedOne;
    r := trees;
    var left := columns.Keys;
    while left != {}
      invariant r.Keys == trees.Keys && left <= columns.Keys
      invariant forall id | id in trees ::
        r[id] == if id in left then trees[id] else ExchangedOne(columns[id], trees[id], was, now)
      decreases left
    {
      var id :| id in left;
      r := r[id := ExchangedOne(columns[id], r[id], was, now)];
      left := left - {id};
    }
  }

  lemma FitsRow(s: State, width: nat, row: Row)
    requires Shaped(s, width) && |row| == width
    ensures KeysOf(s.columns, row)
  {
    hide InRange;
  }

  lemma RemovedIs(s: State, width: nat, rid: Rid)
    requires Shaped(s, width) && rid in s.table
    ensures Fitting(s.columns, s.trees, Some((s.table[rid], rid)), None)
    ensures Removed(s, width, rid).trees == Exchanged(s.columns, s.trees, Some((s.table[rid], rid)), None)
  {
    hide InRange, KeysOf;
    FitsRow(s, width, s.table[rid]);
  }

  lemma AddedIs(s: State, width: nat, rid: Rid, row: Row)
    requires Shaped(s, width) && |row| == width
    ensures Fitting(s.columns, s.trees, None, Some((row, rid)))
    ensures Added(s, width, rid, row).trees == Exchanged(s.columns, s.trees, None, Some((row, rid)))
  {
    hide InRange, KeysOf;
    FitsRow(s, width, row);
  }

  /** Taking a row out of every index, then putting one in, is one exchange. */
  lemma MovedIs(s: State, width: nat, rid: Rid, newRid: Rid, row: Row)
    requires Shaped(s, width) && rid in s.table && |row| == width
    ensures Fitting(s.columns, s.trees, Some((s.table[rid], rid)), Some((row, newRid)))
    ensures Added(Removed(s, width, rid), width, newRid, row).trees
      == Exchanged(s.columns, s.trees, Some((s.table[rid], rid)), Some((row, newRid)))
  {
    hide InRange, KeysOf;
    FitsRow(s, width, row);
    FitsRow(s, width, s.table[rid]);
  }

  /** The index built by scanning the table, in whatever order it comes. */
  method Scan(table: map<Rid, Row>, cols: seq<nat>, width: nat) returns (t: multiset<Entry>)
    requires InRange(cols, width) && forall r | r in table :: |table[r]| == width
    ensures t == Scanned(table, cols, width)
  {
    t := multiset{};
    var left := table.Keys;
    while left != {}
      invariant left <= table.Keys && forall e: Entry ::
        t[e] == if e.rid in table && e.rid !in left && ExtractKey(table[e.rid], cols) == e.key then 1 else 0
      decreases left
    {
      var rid :| rid in left;
      t := t + multiset{Entry(ExtractKey(table[rid], cols), rid)};
      left := left - {rid};
    }
    ScannedAgrees(table, cols, width);
    assert t == Scanned(table, cols, width);
  }

  /** The assignments of an UPDATE, one after the other. */
  function Assigned(row: Row, assignments: seq<(nat, Field)>): (r: Row)
    requires forall i | 0 <= i < |assignments| :: assignments[i].0 < |row|
    ensures |r| == |row|
  {
    if assignments == [] then row
    else
      var n := |assignments| - 1;
      Assigned(row, assignments[..n])[assignments[n].0 := assignments[n].1]
  }

  class Database {
    const width: nat
    var table: map<Rid, Row>
    var columns: map<IndexId, seq<nat>>
    var trees: Trees

    ghost function Model(): (s: State)
      reads this
    {
      State(table, columns, trees)
    }

    ghost predicate Valid()
      reads this
    {
      Agrees(Model(), width)
    }

    constructor (width: nat)
      ensures Valid() && Model() == EMPTY && this.width == width
    {
      this.width := width;
      table, columns, trees := map[], map[], map[];
    }

    method CreateIndex(id: IndexId, cols: seq<nat>)
      requires Valid() && id !in columns && InRange(cols, width)
      modifies this
      ensures Valid() && Model() == Apply(old(Model()), width, Step.CreateIndex(id, cols))
    {
      CreatedKeeps(Model(), width, id, cols);
      var t := Scan(table, cols, width);
      columns, trees := columns[id := cols], trees[id := t];
    }

    /** One row of an UPDATE; the storage may have moved it to `newRid`. */
    method UpdateRow(rid: Rid, newRid: Rid, row: Row)
      requires Valid() && Enabled(Model(), width, Update(rid, newRid, row))
      modifies this
      ensures Valid() && Model() == Apply(old(Model()), width, Update(rid, newRid, row))
    {
      hide TreeAgrees, Exchanged, Fitting;
      StepKeeps(Model(), width, Update(rid, newRid, row));
      MovedIs(Model(), width, rid, newRid, row);
      var was := table[rid];
      var now := Exchange(columns, trees, Some((was, rid)), Some((row, newRid)));
      table := (table - {rid})[newRid := row];
      trees := now;
    }

    method DeleteRow(rid: Rid)
      requires Valid() && rid in table
      modifies this
      ensures Valid() && Model() == Apply(old(Model()), width, Delete(rid))
    {
      hide TreeAgrees, Exchanged, Fitting;
      StepKeeps(Model(), width, Delete(rid));
      RemovedIs(Model(), width, rid);
      var now := Exchange(columns, trees, Some((table[rid], rid)), None);
      trees := now;
      table := table - {rid};
    }

    /** The storage gave up a row that no statement took out of the indexes. */
    method LoseRow(rid: Rid)
      requires Valid() && rid in table
      modifies this
      ensures Model() == old(Model()).(table := old(table) - {rid}) && (Valid() <==> columns == map[])
    {
      LostRowIff(Model(), width, rid);
      table := table - {rid};
    }

    /**
     * The rows of an INSERT. The storage has handed out `rids`; when it stored fewer rows than asked for, the
     * statement fails, and what was stored is in no index.
     */
    method InsertTuples(rows: seq<Row>, rids: seq<Rid>) returns (count: Option<nat>)
      requires Valid() && Handed(table, width, rids, rows)
      modifies this
      ensures count == if |rids| == |rows| then Some(|rows|) else None
      ensures Model() == AfterInsert(old(Model()), width, rids, rows)
      ensures Valid() <==> |rids| == |rows| || rids == [] || columns == map[]
    {
      ghost var s := Model();
      var stored := Store(table, rids, rows);
      table := stored;
      if |rids| < |rows| {
        StoredOnlyIff(s, width, rids, rows);
        return None;
      }
      hide TreeAgrees, StoredTo, InsertedTo, Handed;
      var now := IndexRows(columns, trees, rids, rows, s, width);
      trees := now;
      InsertedKeeps(s, width, rids, rows, |rows|);
      count := Some(|rows|);
    }
  }

  // ------------------------------------------------------------------ inserting several rows

  /** The loop that enters each stored row into every index. */
  method IndexRows(columns: map<IndexId, seq<nat>>, trees: Trees, rids: seq<Rid>, rows: seq<Row>, ghost s: State,
      ghost width: nat)
    returns (r: Trees)
    requires Shaped(s, width) && Handed(s.table, width, rids, rows) && |rids| == |rows|
    requires columns == s.columns && trees == s.trees
    ensures r == InsertedTo(s, width, rids, rows, |rows|).trees
  {
    hide StoredTo, Exchanged, Fitting, Added, Handed;
    r := trees;
    for i := 0 to |rows|
      invariant r == InsertedTo(s, width, rids, rows, i).trees
    {
      RowWide(s.table, width, rids, rows, i);
      AddedIs(InsertedTo(s, width, rids, rows, i), width, rids[i], rows[i]);
      r := Exchange(columns, r, None, Some((rows[i], rids[i])));
    }
  }

  /** Ids the storage has handed out, for the first rows or for all. */
  ghost predicate Handed(table: map<Rid, Row>, width: nat, rids: seq<Rid>, rows: seq<Row>) {
    |rids| <= |rows| && NewIds(table, rids) && forall i | 0 <= i < |rows| :: |rows[i]| == width
  }

  lemma RowWide(table: map<Rid, Row>, width: nat, rids: seq<Rid>, rows: seq<Row>, i: nat)
    requires Handed(table, width, rids, rows) && i < |rows|
    ensures |rows[i]| == width
  {
  }

  method Store(table: map<Rid, Row>, rids: seq<Rid>, rows: seq<Row>) returns (t: map<Rid, Row>)
    requires |rids| <= |rows|
    ensures t == StoredTo(table, rids, rows, |rids|)
  {
    t := table;
    for i := 0 to |rids|
      invariant t == StoredTo(table, rids, rows, i)
    {
      t := t[rids[i] := rows[i]];
    }
  }

  /** The state once the first `n` rows are stored and indexed. */
  ghost function InsertedTo(s: State, width: nat, rids: seq<Rid>, rows: seq<Row>, n: nat): (s': State)
    requires Shaped(s, width) && Handed(s.table, width, rids, rows) && n <= |rids|
    ensures Shaped(s', width) && s'.columns == s.columns && s'.table == StoredTo(s.table, rids, rows, n)
  {
    if n == 0 then s else Added(InsertedTo(s, width, rids, rows, n - 1), width, rids[n - 1], rows[n - 1])
  }

  lemma {:induction false} NotYetStored(table: map<Rid, Row>, width: nat, rids: seq<Rid>, rows: seq<Row>, n: nat,
      i: nat)
    requires Handed(table, width, rids, rows) && n <= i < |rids|
    ensures rids[i] !in StoredTo(table, rids, rows, n)
  {
    if n == 0 {
    } else {
      NotYetStored(table, width, rids, rows, n - 1, i);
    }
  }

  lemma {:induction false} InsertedKeeps(s: State, width: nat, rids: seq<Rid>, rows: seq<Row>, n: nat)
    requires Agrees(s, width) && Handed(s.table, width, rids, rows) && n <= |rids|
    ensures Agrees(InsertedTo(s, width, rids, rows, n), width)
  {
    hide TreeAgrees, Added;
    if n == 0 {
    } else {
      InsertedKeeps(s, width, rids, rows, n - 1);
      NotYetStored(s.table, width, rids, rows, n - 1, n - 1);
      AddedKeeps(InsertedTo(s, width, rids, rows, n - 1), width, rids[n - 1], rows[n - 1]);
    }
  }

  ghost predicate AllFit(size: Row -> nat, rows: seq<Row>) {
    forall i | 0 <= i < |rows| :: FitsPage(size, rows[i])
  }

  lemma {:induction false} FittingIs(size: Row -> nat, rows: seq<Row>)
    ensures FittingRows(size, rows) == |rows| <==> AllFit(size, rows)
    ensures FittingRows(size, rows) == 0 <==> rows == [] || !FitsPage(size, rows[0])
  {
    hide FitsPage;
    if rows == [] {
    } else if FitsPage(size, rows[0]) {
      FittingIs(size, rows[1..]);
      assert rows == [rows[0]] + rows[1..];
    }
  }

  /** What an INSERT leaves: rows are indexed only once all of them are stored. */
  ghost function AfterInsert(s: State, width: nat, rids: seq<Rid>, rows: seq<Row>): (s': State)
    requires Shaped(s, width) && Handed(s.table, width, rids, rows)
  {
    if |rids| == |rows| then InsertedTo(s, width, rids, rows, |rows|)
    else s.(table := StoredTo(s.table, rids, rows, |rids|))
  }

  /** After an INSERT the indexes agree if and only if every row fits a page, or the first does not, or there is no index. */
  lemma PartialInsertIff(s: State, width: nat, size: Row -> nat, rids: seq<Rid>, rows: seq<Row>)
    requires Agrees(s, width) && Handed(s.table, width, rids, rows) && |rids| == FittingRows(size, rows)
    ensures Agrees(AfterInsert(s, width, rids, rows), width)
      <==> AllFit(size, rows) || !FitsPage(size, rows[0]) || s.columns == map[]
  {
    hide Agrees, AllFit, Handed, FitsPage, FittingRows, InsertedTo, StoredTo;
    FittingIs(size, rows);
    if |rids| == |rows| {
      InsertedKeeps(s, width, rids, rows, |rows|);
    } else {
      StoredOnlyIff(s, width, rids, rows);
    }
  }

  /** Rows that are stored and not indexed, unless there are none, leave every index behind. */
  lemma StoredOnlyIff(s: State, width: nat, rids: seq<Rid>, rows: seq<Row>)
    requires Agrees(s, width) && Handed(s.table, width, rids, rows)
    ensures Agrees(s.(table := StoredTo(s.table, rids, rows, |rids|)), width) <==> rids == [] || s.columns == map[]
  {
    var s' := s.(table := StoredTo(s.table, rids, rows, |rids|));
    StoredWide(s, width, rids, rows, |rids|);
    if rids != [] && s.columns != map[] {
      var id :| id in s.columns;
      var rid := rids[|rids| - 1];
      var e := Entry(ExtractKey(s'.table[rid], s.columns[id]), rid);
      assert TreeAgrees(s.trees[id], s.columns[id], s.table, width) && s.trees[id][e] == 0;
    }
  }

  /** A row that is gone from the table only: the indexes agree if and only if there are none. */
  lemma LostRowIff(s: State, width: nat, rid: Rid)
    requires Agrees(s, width) && rid in s.table
    ensures Agrees(s.(table := s.table - {rid}), width) <==> s.columns == map[]
  {
    if s.columns != map[] {
      var id :| id in s.columns;
      var e := Entry(ExtractKey(s.table[rid], s.columns[id]), rid);
      assert TreeAgrees(s.trees[id], s.columns[id], s.table, width) && s.trees[id][e] == 1;
    }
  }

  lemma StoredWide(s: State, width: nat, rids: seq<Rid>, rows: seq<Row>, n: nat)
    requires Shaped(s, width) && Handed(s.table, width, rids, rows) && n <= |rids|
    ensures Shaped(s.(table := StoredTo(s.table, rids, rows, n)), width)
  {
    var s' := InsertedTo(s, width, rids, rows, n);
  }

  // ------------------------------------------------------------------ the operators

  /** A row carries its record id, unless an operator below dropped it. */
  datatype Stamped = Stamped(rid: Option<Rid>, row: Row)

  datatype Outcome = Done | Next(row: Row) | NoRecordId

  /** The rows an UPDATE or DELETE has drained: each still stored under its id, and each once. */
  ghost predicate Drained(rows: seq<Stamped>, table: map<Rid, Row>) {
    && (forall i | 0 <= i < |rows| && rows[i].rid.Some? :: rows[i].rid.value in table && table[rows[i].rid.value] == rows[i].row)
    && (forall i, j | 0 <= i < j < |rows| && rows[i].rid.Some? :: rows[i].rid != rows[j].rid)
  }

  lemma DrainedRest(rows: seq<Stamped>, table: map<Rid, Row>, table': map<Rid, Row>)
    requires rows != [] && rows[0].rid.Some? && Drained(rows, table)
    requires forall r | r in table && r != rows[0].rid.value :: r in table' && table'[r] == table[r]
    ensures Drained(rows[1..], table')
  {
  }

  class UpdateOp {
    const db: Database
    const assignments: seq<(nat, Field)>
    var pending: seq<Stamped>
    var count: nat

    ghost predicate Valid()
      reads this, db
    {
      && db.Valid() && Drained(pending, db.table)
      && forall i | 0 <= i < |assignments| :: assignments[i].0 < db.width
    }

    constructor (db: Database, assignments: seq<(nat, Field)>, rows: seq<Stamped>)
      requires db.Valid() && Drained(rows, db.table) && forall i | 0 <= i < |assignments| :: assignments[i].0 < db.width
      ensures Valid() && this.db == db && this.assignments == assignments && pending == rows && count == 0
    {
      this.db, this.assignments, pending, count := db, assignments, rows, 0;
    }

    /** Update the next drained row; the storage keeps it in place or moves it to the free id `newRid`. */
    method Step(newRid: Rid) returns (r: Outcome)
      requires Valid()
      requires pending != [] && pending[0].rid.Some? ==> newRid == pending[0].rid.value || newRid !in db.table
      modifies this, db
      ensures Valid() && db.columns == old(db.columns)
      ensures old(pending) == [] ==> r == Done && pending == [] && count == old(count) && db.Model() == old(db.Model())
      ensures old(pending) != [] ==> pending == old(pending)[1..]
      ensures old(pending) != [] && old(pending)[0].rid.None? ==> r == NoRecordId && db.Model() == old(db.Model())
      ensures old(pending) != [] && old(pending)[0].rid.Some? ==>
        && |old(pending)[0].row| == db.width
        && var row := Assigned(old(pending)[0].row, assignments);
           && r == Next(row) && count == old(count) + 1
           && db.Model() == Apply(old(db.Model()), db.width, Update(old(pending)[0].rid.value, newRid, row))
    {
      if pending == [] {
        return Done;
      }
      var tuple := pending[0];
      if tuple.rid.None? {
        pending := pending[1..];
        return NoRecordId;
      }
      var row := Assigned(tuple.row, assignments);
      ghost var before := db.table;
      db.UpdateRow(tuple.rid.value, newRid, row);
      DrainedRest(pending, before, db.table);
      pending := pending[1..];
      count := count + 1;
      r := Next(row);
    }
  }

  class DeleteOp {
    const db: Database
    var pending: seq<Stamped>

    ghost predicate Valid()
      reads this, db
    {
      db.Valid() && Drained(pending, db.table)
    }

    constructor (db: Database, rows: seq<Stamped>)
      requires db.Valid() && Drained(rows, db.table)
      ensures Valid() && this.db == db && pending == rows
    {
      this.db, pending := db, rows;
    }

    /** Delete the next drained row: its index entries, then the record. */
    method Step() returns (r: Outcome)
      requires Valid()
      modifies this, db
      ensures Valid() && db.columns == old(db.columns)
      ensures old(pending) == [] ==> r == Done && pending == [] && db.Model() == old(db.Model())
      ensures old(pending) != [] ==> pending == old(pending)[1..]
      ensures old(pending) != [] && old(pending)[0].rid.None? ==> r == NoRecordId && db.Model() == old(db.Model())
      ensures old(pending) != [] && old(pending)[0].rid.Some? ==>
        && r == Next(old(pending)[0].row)
        && db.Model() == Apply(old(db.Model()), db.width, Delete(old(pending)[0].rid.value))
    {
      if pending == [] {
        return Done;
      }
      var tuple := pending[0];
      if tuple.rid.None? {
        pending := pending[1..];
        return NoRecordId;
      }
      ghost var before := db.table;
      db.DeleteRow(tuple.rid.value);
      DrainedRest(pending, before, db.table);
      pending := pending[1..];
      r := Next(tuple.row);
    }
  }

  // ------------------------------------------------------------------ index scans

  /** A row with its record id. */
  function Stamp(table: map<Rid, Row>): (f: Rid -> seq<Stamped>) {
    (r: Rid) => if r in table then [Stamped(Some(r), table[r])] else []
  }

  /** The rows of a sequential scan with the filter `key = k`, the table taken in the order of `rids`. */
  function FilteredScan(table: map<Rid, Row>, rids: seq<Rid>, cols: seq<nat>, k: Key): (rows: seq<Stamped>) {
    if rids == [] then []
    else
      (if rids[0] in table && ExtractKey(table[rids[0]], cols) == k then Stamp(table)(rids[0]) else [])
      + FilteredScan(table, rids[1..], cols, k)
  }

  function Meeting(table: map<Rid, Row>, rids: seq<Rid>, cols: seq<nat>, k: Key): (kept: seq<Rid>) {
    if rids == [] then []
    else
      (if rids[0] in table && ExtractKey(table[rids[0]], cols) == k then [rids[0]] else [])
      + Meeting(table, rids[1..], cols, k)
  }

  lemma {:induction false} MeetingIs(table: map<Rid, Row>, rids: seq<Rid>, cols: seq<nat>, k: Key, r: Rid)
    ensures FilteredScan(table, rids, cols, k) == Flat(Stamp(table), Meeting(table, rids, cols, k))
    ensures multiset(Meeting(table, rids, cols, k))[r]
      == if r in table && ExtractKey(table[r], cols) == k then multiset(rids)[r] else 0
  {
    hide ExtractKey, Flat;
    if rids == [] {
      FlatNone(Stamp(table));
    } else {
      MeetingIs(table, rids[1..], cols, k, r);
      assert rids == [rids[0]] + rids[1..];
      var rest := Meeting(table, rids[1..], cols, k);
      if rids[0] in table && ExtractKey(table[rids[0]], cols) == k {
        assert Meeting(table, rids, cols, k) == [rids[0]] + rest;
        FlatCat(Stamp(table), [rids[0]], rest);
        FlatOne(Stamp(table), rids[0]);
      } else {
        assert Meeting(table, rids, cols, k) == rest;
      }
    }
  }

  lemma FoundCount(s: State, width: nat, id: IndexId, k: Key, found: seq<Rid>, r: Rid)
    requires Agrees(s, width) && id in s.columns && Found(s.trees[id], k, found)
    ensures multiset(found)[r] == if r in s.table && ExtractKey(s.table[r], s.columns[id]) == k then 1 else 0
  {
    assert TreeAgrees(s.trees[id], s.columns[id], s.table, width);
    assert s.trees[id][Entry(k, r)] == multiset(found)[r];
  }

  /** What an index search found, fetched, is what a scan of the table, in any order, with the equality filter yields. */
  lemma SearchIsScan(s: State, width: nat, id: IndexId, k: Key, found: seq<Rid>, order: seq<Rid>)
    requires Agrees(s, width) && id in s.columns && Found(s.trees[id], k, found)
    requires multiset(order) == multiset(s.table.Keys)
    ensures multiset(Flat(Stamp(s.table), found)) == multiset(FilteredScan(s.table, order, s.columns[id], k))
  {
    hide Agrees, Found, FilteredScan, Meeting, Flat, ExtractKey;
    var cols := s.columns[id];
    var kept := Meeting(s.table, order, cols, k);
    MeetingIs(s.table, order, cols, k, Rid(0, None, None));
    forall r: Rid ensures multiset(kept)[r] == multiset(found)[r] {
      MeetingIs(s.table, order, cols, k, r);
      FoundCount(s, width, id, k, found, r);
    }
    assert multiset(kept) == multiset(found);
    FlatPermuted(Stamp(s.table), found, kept);
  }

  /** A point lookup through an index, over a table that does not change meanwhile. */
  class IndexScanOp {
    const table: map<Rid, Row>
    var matches: seq<Rid>
    var nextIdx: nat

    ghost predicate Valid()
      reads this
    {
      nextIdx <= |matches| && forall i | 0 <= i < |matches| :: matches[i] in table
    }

    /** The rows still to come. */
    ghost function Rest(): (out: seq<Stamped>)
      requires Valid()
      reads this
    {
      Flat(Stamp(table), matches[nextIdx..])
    }

    /** Every row of the lookup. */
    ghost function All(): (out: seq<Stamped>)
      reads this
    {
      Flat(Stamp(table), matches)
    }

    /** Open the scan on what a search of the index returned: the rows of a full scan with the equality filter. */
    constructor (s: State, ghost width: nat, ghost id: IndexId, ghost k: Key, rids: seq<Rid>)
      requires Agrees(s, width) && id in s.columns && Found(s.trees[id], k, rids)
      ensures Valid() && table == s.table && Rest() == All()
      ensures forall order: seq<Rid> | multiset(order) == multiset(table.Keys) ::
        multiset(All()) == multiset(FilteredScan(table, order, s.columns[id], k))
    {
      table, matches, nextIdx := s.table, rids, 0;
      new;
      SearchIsFilter(s, width, id, k, rids);
      assert matches[0..] == matches;
      forall order: seq<Rid> | multiset(order) == multiset(table.Keys)
        ensures multiset(All()) == multiset(FilteredScan(table, order, s.columns[id], k))
      {
        SearchIsScan(s, width, id, k, rids, order);
      }
    }

    method Step() returns (row: Option<Stamped>)
      requires Valid()
      modifies this`nextIdx
      ensures Valid() && All() == old(All())
      ensures row == if old(Rest()) == [] then None else Some(old(Rest())[0])
      ensures Rest() == if old(Rest()) == [] then [] else old(Rest())[1..]
    {
      if nextIdx >= |matches| {
        assert matches[nextIdx..] == [];
        return None;
      }
      var rid := matches[nextIdx];
      assert matches[nextIdx..][1..] == matches[nextIdx + 1..];
      nextIdx := nextIdx + 1;
      row := Some(Stamped(Some(rid), table[rid]));
    }

    method Rewind()
      requires Valid()
      modifies this`nextIdx
      ensures Valid() && Rest() == All() == old(All())
    {
      nextIdx := 0;
      assert matches[0..] == matches;
    }

    method Drain() returns (rows: seq<Stamped>)
      requires Valid()
      modifies this`nextIdx
      ensures Valid() && rows == old(Rest()) && Rest() == [] && All() == old(All())
    {
      hide Flat;
      rows := [];
      var row := Step();
      while row.Some?
        invariant Valid() && All() == old(All())
        invariant rows + (if row.Some? then [row.value] else []) + Rest() == old(Rest())
        invariant row.None? ==> Rest() == []
        decreases |Rest()|, row.Some?
      {
        rows := rows + [row.value];
        row := Step();
      }
    }
  }
}
