/** Tables in heap files. */
module StoredTables {
  import opened Base
  import opened TreeModel
  import opened IndexUpkeep
  import opened HeapFiles
  import opened Statements

  /** A table, its indexes, and the heap file that holds its rows. */
  class StoredTable {
    const file: HeapFile
    const db: Database

    /** The file holds the rows of the table and nothing else. */
    ghost predicate InStep()
      reads this, file, db
    {
      file.Valid() && Stores(file.Values(), db.table)
    }

    ghost predicate Valid()
      reads this, file, db
    {
      InStep() && db.Valid()
    }

    constructor (container: int, size: Row -> nat, width: nat)
      ensures Valid() && fresh(file) && fresh(db) && file.size == size && db.width == width && db.Model() == EMPTY
    {
      file := new HeapFile(container, size);
      db := new Database(width);
    }

    /**
     * INSERT: the rows go to the file, and then, if all of them could be stored, to the indexes. The indexes still
     * agree with the table if and only if every row fits a page, or the first does not, or there is no index.
     */
    method InsertRows(rows: seq<Row>) returns (count: Option<nat>, ghost rids: seq<Rid>)
      requires Valid() && forall i | 0 <= i < |rows| :: |rows[i]| == db.width
      modifies file, db
      ensures InStep() && Handed(old(db.table), db.width, rids, rows)
      ensures count == if AllFit(file.size, rows) then Some(|rows|) else None
      ensures db.Model() == AfterInsert(old(db.Model()), db.width, rids, rows)
      ensures Valid() <==> AllFit(file.size, rows) || !FitsPage(file.size, rows[0]) || db.columns == map[]
    {
      hide FileValid, Stores, NewIds, FittingRows, FitsPage, AllFit, Agrees, StoredTo;
      ghost var table := db.table;
      var ids := file.AddVals(rows, table);
      rids := ids;
      FittingIs(file.size, rows);
      count := db.InsertTuples(rows, ids);
    }

    /**
     * UPDATE of one row. One that fits no page is lost: the file has deleted the old row before it refuses the
     * new one, and its index entries stay.
     */
    method UpdateRow(rid: Rid, row: Row) returns (now: Option<Rid>)
      requires Valid() && rid in db.table && |row| == db.width
      modifies file, db
      ensures InStep() && (now.Some? <==> FitsPage(file.size, row))
      ensures now.Some? ==>
        && Enabled(old(db.Model()), db.width, Update(rid, now.value, row))
        && db.Model() == Apply(old(db.Model()), db.width, Update(rid, now.value, row))
      ensures now.None? ==> db.Model() == old(db.Model()).(table := old(db.table) - {rid})
      ensures Valid() <==> FitsPage(file.size, row) || db.columns == map[]
    {
      hide FileValid, FitsPage, Agrees;
      now := file.UpdateVal(rid, row);
      if now.Some? {
        db.UpdateRow(rid, now.value, row);
      } else {
        db.LoseRow(rid);
      }
    }

    method DeleteRow(rid: Rid)
      requires Valid() && rid in db.table
      modifies file, db
      ensures Valid() && db.Model() == Apply(old(db.Model()), db.width, Delete(rid))
    {
      hide FileValid, Agrees;
      var gone := file.DeleteVal(rid);
      db.DeleteRow(rid);
    }
  }

  // ------------------------------------------------------------------ two inputs that go wrong

  /** A table of one column with an index on it. */
  const INDEXED := State(map[], map[0 := [0]], map[0 := multiset{}])

  function Long(): (s: string) {
    seq(PAGE_SIZE, i => 'x')
  }

  /** INSERT of a short row and one longer than a page: the first is stored and in no index. */
  lemma SecondRowTooLong(size: Row -> nat, rid: Rid)
    requires size([BigInt(1)]) < 100 && size([Str(Long())]) >= PAGE_SIZE
    ensures var rows := [[BigInt(1)], [Str(Long())]];
      && Agrees(INDEXED, 1) && Handed(INDEXED.table, 1, [rid], rows) && FittingRows(size, rows) == 1
      && !Agrees(AfterInsert(INDEXED, 1, [rid], rows), 1)
  {
    hide Long;
    var rows := [[BigInt(1)], [Str(Long())]];
    assert rows[0] == [BigInt(1)] && rows[1] == [Str(Long())] && |rows[0]| == |rows[1]| == 1;
    assert rows[1..][0] == rows[1];
    assert FittingRows(size, rows[1..]) == 0;
    assert 0 in INDEXED.columns;
    PartialInsertIff(INDEXED, 1, size, [rid], rows);
  }

  /** UPDATE of a short row to one longer than a page: the row is gone and its index entry is not. */
  lemma LongUpdateLost(size: Row -> nat, rid: Rid)
    requires size([Str(Long())]) >= PAGE_SIZE
    ensures var s := Added(INDEXED, 1, rid, [BigInt(1)]);
      Agrees(s, 1) && !FitsPage(size, [Str(Long())]) && !Agrees(s.(table := s.table - {rid}), 1)
  {
    hide Long, Agrees;
    StartAgrees();
    AddedKeeps(INDEXED, 1, rid, [BigInt(1)]);
    assert 0 in INDEXED.columns;
    LostRowIff(Added(INDEXED, 1, rid, [BigInt(1)]), 1, rid);
  }

  lemma StartAgrees()
    ensures Agrees(INDEXED, 1)
  {
  }
}
