/** Heap pages and heap files. */
module HeapFiles {
  import opened Base

  const PAGE_SIZE: nat := 4096
  const HEADER_SIZE: nat := 24
  const SLOT_METADATA_SIZE: nat := 4

  /** The slots of a page, empty where deleted, and the unused bytes between its header and its values. */
  datatype HeapPage = HeapPage(slots: seq<Option<Row>>, gap: nat)

  const EMPTY_PAGE := HeapPage([], PAGE_SIZE - HEADER_SIZE)

  function Used(size: Row -> nat, slots: seq<Option<Row>>): (n: nat) {
    if slots == [] then 0
    else
      var last := slots[|slots| - 1];
      Used(size, slots[..|slots| - 1]) + if last.Some? then size(last.value) else 0
  }

  function Header(p: HeapPage): (n: nat) {
    HEADER_SIZE + SLOT_METADATA_SIZE * |p.slots|
  }

  /** The bytes of a page that neither its header nor a value takes: its gap and its holes. */
  function FreeSpace(size: Row -> nat, p: HeapPage): (n: int) {
    PAGE_SIZE - Header(p) - Used(size, p.slots)
  }

  ghost predicate PageValid(size: Row -> nat, p: HeapPage) {
    p.gap <= FreeSpace(size, p) && 0 < FreeSpace(size, p)
  }

  /** The value fits a page of its own. */
  predicate FitsPage(size: Row -> nat, row: Row) {
    size(row) + SLOT_METADATA_SIZE < PAGE_SIZE - HEADER_SIZE
  }

  lemma FreshPage(size: Row -> nat)
    ensures PageValid(size, EMPTY_PAGE)
  {
  }

  function Length(size: Row -> nat, v: Option<Row>): (n: nat) {
    if v.Some? then size(v.value) else 0
  }

  lemma {:induction false} UsedSet(size: Row -> nat, slots: seq<Option<Row>>, i: nat, v: Option<Row>)
    requires i < |slots|
    ensures Used(size, slots[i := v]) == Used(size, slots) - Length(size, slots[i]) + Length(size, v)
    ensures Length(size, slots[i]) <= Used(size, slots)
  {
    var n := |slots| - 1;
    if i == n {
      assert slots[i := v][..n] == slots[..n];
    } else {
      UsedSet(size, slots[..n], i, v);
      assert slots[i := v][..n] == slots[..n][i := v];
    }
  }

  lemma UsedMore(size: Row -> nat, slots: seq<Option<Row>>, v: Option<Row>)
    ensures Used(size, slots + [v]) == Used(size, slots) + Length(size, v)
  {
    assert (slots + [v])[..|slots|] == slots;
  }

  // ------------------------------------------------------------------ one page

  /** The gap once a value of `n` bytes is written: where the gap is too small, the page is compacted first. */
  function Written(gap: nat, free: nat, n: nat): (gap': nat)
    requires gap <= free && n <= free
    ensures gap' <= free - n
  {
    if n > gap then free - n else gap - n
  }

  method FirstFree(slots: seq<Option<Row>>) returns (i: nat)
    ensures i <= |slots| && (i < |slots| ==> slots[i] == None) && None !in slots[..i]
  {
    i := 0;
    while i < |slots| && slots[i].Some?
      invariant i <= |slots| && None !in slots[..i]
    {
      i := i + 1;
    }
  }

  /** The page has room for the value; a new slot also needs its metadata in the gap. */
  ghost predicate Takes(size: Row -> nat, p: HeapPage, row: Row) {
    if None in p.slots then size(row) < FreeSpace(size, p)
    else p.gap >= SLOT_METADATA_SIZE && size(row) + SLOT_METADATA_SIZE < FreeSpace(size, p)
  }

  /** Store a value in the first free slot, or a new one, if the page has room. */
  method AddValue(size: Row -> nat, p: HeapPage, row: Row) returns (r: Option<(nat, HeapPage)>)
    requires PageValid(size, p)
    ensures (r.Some? <==> Takes(size, p, row)) && (r.Some? ==> FitsPage(size, row))
    ensures p == EMPTY_PAGE ==> (r.Some? <==> FitsPage(size, row))
    ensures r.Some? ==>
      var (i, p') := r.value;
      && PageValid(size, p') && i <= |p.slots| && None !in p.slots[..i]
      && (i < |p.slots| ==> p.slots[i] == None)
      && p'.slots == if i < |p.slots| then p.slots[i := Some(row)] else p.slots + [Some(row)]
  {
    var n, free := size(row), FreeSpace(size, p);
    var i := FirstFree(p.slots);
    if i == |p.slots| {
      if p.gap < SLOT_METADATA_SIZE || n + SLOT_METADATA_SIZE >= free {
        return None;
      }
      UsedMore(size, p.slots, Some(row));
      var gap := Written(p.gap - SLOT_METADATA_SIZE, free - SLOT_METADATA_SIZE, n);
      return Some((i, HeapPage(p.slots + [Some(row)], gap)));
    }
    if n >= free {
      return None;
    }
    UsedSet(size, p.slots, i, Some(row));
    r := Some((i, HeapPage(p.slots[i := Some(row)], Written(p.gap, free, n))));
  }

  /** Free a slot. The gap grows by its value if that was the last one written. */
  method DeleteValue(size: Row -> nat, p: HeapPage, i: nat) returns (r: Option<HeapPage>)
    requires PageValid(size, p)
    ensures r.Some? <==> i < |p.slots| && p.slots[i].Some?
    ensures r.Some? ==> PageValid(size, r.value) && r.value.slots == p.slots[i := None]
  {
    if i >= |p.slots| || p.slots[i].None? {
      return None;
    }
    UsedSet(size, p.slots, i, None);
    var gap := p.gap;
    if * {
      gap := gap + size(p.slots[i].value);
    }
    r := Some(HeapPage(p.slots[i := None], gap));
  }

  /** The slot is live, and the page has room for the new value once the old one is gone. */
  ghost predicate Replaceable(size: Row -> nat, p: HeapPage, i: int, row: Row) {
    && 0 <= i < |p.slots| && p.slots[i].Some?
    && (size(row) <= size(p.slots[i].value) || size(row) < FreeSpace(size, p) + size(p.slots[i].value))
  }

  /** Replace the value of a slot if the page has room for the new one. */
  method UpdateValue(size: Row -> nat, p: HeapPage, i: nat, row: Row) returns (r: Option<HeapPage>)
    requires PageValid(size, p)
    ensures (r.Some? <==> Replaceable(size, p, i, row)) && (r.Some? ==> FitsPage(size, row))
    ensures r.Some? ==> i < |p.slots| && PageValid(size, r.value) && r.value.slots == p.slots[i := Some(row)]
  {
    if i >= |p.slots| || p.slots[i].None? {
      return None;
    }
    UsedSet(size, p.slots, i, Some(row));
    var n, freed, free := size(row), size(p.slots[i].value), FreeSpace(size, p);
    if n <= freed {
      return Some(HeapPage(p.slots[i := Some(row)], p.gap));
    }
    if n >= free + freed {
      return None;
    }
    var gap := p.gap;
    if * {
      gap := gap + freed;
    }
    r := Some(HeapPage(p.slots[i := Some(row)], Written(gap, free + freed, n)));
  }

  // ------------------------------------------------------------------ the file

  /** The value under a record id; page 0 is the container's own. */
  function ValueAt(container: int, pages: seq<HeapPage>, r: Rid): (v: Option<Row>) {
    if r.container != container || r.page.None? || r.slot.None? then None
    else
      var i, j := r.page.value - 1, r.slot.value;
      if 0 <= i < |pages| && 0 <= j < |pages[i].slots| then pages[i].slots[j] else None
  }

  ghost predicate FileValid(size: Row -> nat, pages: seq<HeapPage>) {
    forall i | 0 <= i < |pages| :: PageValid(size, pages[i])
  }

  /** `now` holds what `was` held, but `v` under `r`. */
  ghost predicate Changed(was: Rid -> Option<Row>, now: Rid -> Option<Row>, r: Rid, v: Option<Row>) {
    forall x :: now(x) == if x == r then v else was(x)
  }

  /** The number of rows before the first that fits no page. */
  function FittingRows(size: Row -> nat, rows: seq<Row>): (n: nat)
    ensures n <= |rows|
  {
    if rows != [] && FitsPage(size, rows[0]) then 1 + FittingRows(size, rows[1..]) else 0
  }

  /** The file holds the rows of the table, each under its record id, and nothing else. */
  ghost predicate Stores(values: Rid -> Option<Row>, table: map<Rid, Row>) {
    forall x :: values(x) == if x in table then Some(table[x]) else None
  }

  /** Record ids that are free in the table, each once. */
  ghost predicate NewIds(table: map<Rid, Row>, rids: seq<Rid>) {
    (forall i | 0 <= i < |rids| :: rids[i] !in table) && forall i, j | 0 <= i < j < |rids| :: rids[i] != rids[j]
  }

  /** The table once the first `n` rows are stored. */
  function StoredTo(table: map<Rid, Row>, rids: seq<Rid>, rows: seq<Row>, n: nat): (t: map<Rid, Row>)
    requires n <= |rids| && n <= |rows|
  {
    if n == 0 then table else StoredTo(table, rids, rows, n - 1)[rids[n - 1] := rows[n - 1]]
  }

  lemma {:induction false} StoredIds(table: map<Rid, Row>, rids: seq<Rid>, rows: seq<Row>, n: nat)
    requires n <= |rids| && n <= |rows|
    ensures StoredTo(table, rids, rows, n).Keys == table.Keys + (set i | 0 <= i < n :: rids[i])
  {
    if n == 0 {
    } else {
      StoredIds(table, rids, rows, n - 1);
    }
  }

  lemma {:induction false} StoredMore(table: map<Rid, Row>, rids: seq<Rid>, more: seq<Rid>, rows: seq<Row>, n: nat)
    requires n <= |rids| && n <= |rows|
    ensures StoredTo(table, rids + more, rows, n) == StoredTo(table, rids, rows, n)
  {
    if n == 0 {
    } else {
      StoredMore(table, rids, more, rows, n - 1);
    }
  }

  /** One more row is stored under an id that the file had free. */
  lemma StoredOneMore(table: map<Rid, Row>, rids: seq<Rid>, rows: seq<Row>, was: Rid -> Option<Row>,
      now: Rid -> Option<Row>, id: Rid)
    requires |rids| < |rows| && NewIds(table, rids) && Stores(was, StoredTo(table, rids, rows, |rids|))
    requires was(id) == None && Changed(was, now, id, Some(rows[|rids|]))
    ensures NewIds(table, rids + [id]) && Stores(now, StoredTo(table, rids + [id], rows, |rids| + 1))
  {
    var n := |rids|;
    StoredIds(table, rids, rows, n);
    StoredMore(table, rids, [id], rows, n);
    assert id !in StoredTo(table, rids, rows, n);
    assert forall i | 0 <= i < n :: rids[i] in StoredTo(table, rids, rows, n).Keys;
    assert StoredTo(table, rids + [id], rows, n + 1) == StoredTo(table, rids, rows, n)[id := rows[n]];
  }

  function IdOf(c: int, i: nat, j: nat): (r: Rid) {
    Rid(c, Some(i + 1), Some(j))
  }

  lemma SlotAt(c: int, pages: seq<HeapPage>, i: nat, j: nat)
    ensures ValueAt(c, pages, IdOf(c, i, j)) == if i < |pages| && j < |pages[i].slots| then pages[i].slots[j] else None
  {
  }

  lemma OnlyId(c: int, i: nat, j: nat, r: Rid)
    requires r.container == c && r.page.Some? && r.slot.Some? && r.page.value - 1 == i && r.slot.value == j
    ensures r == IdOf(c, i, j)
  {
  }

  lemma SlotSet(c: int, pages: seq<HeapPage>, i: nat, p: HeapPage, j: nat, v: Option<Row>)
    requires i < |pages| && j <= |pages[i].slots|
    requires p.slots == if j < |pages[i].slots| then pages[i].slots[j := v] else pages[i].slots + [v]
    ensures forall x :: ValueAt(c, pages[i := p], x) == (if x == IdOf(c, i, j) then v else ValueAt(c, pages, x))
  {
    forall x ensures ValueAt(c, pages[i := p], x) == (if x == IdOf(c, i, j) then v else ValueAt(c, pages, x)) {
      if x.container == c && x.page.Some? && x.slot.Some? && x.page.value - 1 == i && x.slot.value == j {
        OnlyId(c, i, j, x);
      }
    }
  }

  function AtNewPage(c: int, pages: seq<HeapPage>, p: HeapPage, x: Rid): (v: Option<Row>) {
    if p.slots != [] && x == IdOf(c, |pages|, 0) then p.slots[0] else ValueAt(c, pages, x)
  }

  lemma PageNew(c: int, pages: seq<HeapPage>, p: HeapPage)
    requires |p.slots| <= 1
    ensures forall x :: ValueAt(c, pages + [p], x) == AtNewPage(c, pages, p, x)
  {
    forall x ensures ValueAt(c, pages + [p], x) == AtNewPage(c, pages, p, x) {
      if x.container == c && x.page.Some? && x.slot.Some? && x.page.value - 1 == |pages| && x.slot.value == 0 {
        OnlyId(c, |pages|, 0, x);
      }
    }
  }

  class HeapFile {
    const size: Row -> nat
    const container: int
    var pages: seq<HeapPage>

    ghost predicate Valid()
      reads this
    {
      FileValid(size, pages)
    }

    ghost function Values(): (f: Rid -> Option<Row>)
      reads this
    {
      var c, ps := container, pages;
      (r: Rid) => ValueAt(c, ps, r)
    }

    constructor (container: int, size: Row -> nat)
      ensures Valid() && this.size == size && this.container == container && forall r :: Values()(r) == None
    {
      this.container, this.size, pages := container, size, [];
    }

    /** The id has a page of this file and a slot. */
    predicate Names(id: Rid)
      reads this
    {
      && id.container == container && id.page.Some? && id.slot.Some?
      && 1 <= id.page.value <= |pages| && 0 <= id.slot.value
    }

    /** Store a value on the first page that takes it, else on a new one. */
    method AddVal(row: Row) returns (id: Option<Rid>)
      requires Valid()
      modifies this
      ensures Valid() && (id.Some? <==> FitsPage(size, row))
      ensures forall i | 0 <= i < |old(pages)| && Takes(size, old(pages)[i], row) ::
        id.Some? && id.value.page.Some? && id.value.page.value <= i + 1
      ensures id.None? ==> forall r :: Values()(r) == old(Values())(r)
      ensures id.Some? ==> old(Values())(id.value) == None && Changed(old(Values()), Values(), id.value, Some(row))
    {
      hide ValueAt, PageValid, FitsPage, Takes;
      FreshPage(size);
      for i := 0 to |pages|
        invariant pages == old(pages) && forall j | 0 <= j < i :: !Takes(size, pages[j], row)
      {
        var r := AddValue(size, pages[i], row);
        if r.Some? {
          SlotSet(container, pages, i, r.value.1, r.value.0, Some(row));
          SlotAt(container, pages, i, r.value.0);
          pages := pages[i := r.value.1];
          return Some(IdOf(container, i, r.value.0));
        }
      }
      var r := AddValue(size, EMPTY_PAGE, row);
      if r.None? {
        PageNew(container, pages, EMPTY_PAGE);
        pages := pages + [EMPTY_PAGE];
        return None;
      }
      PageNew(container, pages, r.value.1);
      SlotAt(container, pages, |pages|, 0);
      id := Some(IdOf(container, |pages|, 0));
      pages := pages + [r.value.1];
    }

    /** Store rows until one fits no page. */
    method AddVals(rows: seq<Row>, ghost table: map<Rid, Row>) returns (rids: seq<Rid>)
      requires Valid() && Stores(Values(), table)
      modifies this
      ensures Valid() && |rids| == FittingRows(size, rows)
      ensures NewIds(table, rids) && Stores(Values(), StoredTo(table, rids, rows, |rids|))
    {
      hide FileValid, Stores, Changed, NewIds, StoredTo, FitsPage;
      rids := [];
      StartsNew(table, rows);
      for i := 0 to |rows|
        invariant Valid() && |rids| == i && FittingRows(size, rows) == i + FittingRows(size, rows[i..])
        invariant NewIds(table, rids) && Stores(Values(), StoredTo(table, rids, rows, i))
      {
        ghost var was := Values();
        var id := AddVal(rows[i]);
        if id.None? {
          SameStores(was, Values(), StoredTo(table, rids, rows, i));
          return;
        }
        StoredOneMore(table, rids, rows, was, Values(), id.value);
        rids := rids + [id.value];
      }
    }

    method DeleteVal(id: Rid) returns (ok: bool)
      requires Valid()
      modifies this
      ensures Valid() && (ok <==> old(Values())(id).Some?) && Changed(old(Values()), Values(), id, None)
    {
      if !Names(id) {
        return false;
      }
      var i, j := id.page.value - 1, id.slot.value;
      OnlyId(container, i, j, id);
      var r := DeleteValue(size, pages[i], j);
      if r.None? {
        return false;
      }
      SlotSet(container, pages, i, r.value, j, None);
      pages := pages[i := r.value];
      ok := true;
    }

    /**
     * Replace a value in its page or, if that has no room, delete it and store the new one anew. One that fits no
     * page is refused only after the old one is gone.
     */
    method UpdateVal(id: Rid, row: Row) returns (r: Option<Rid>)
      requires Valid()
      modifies this
      ensures Valid() && (r.Some? <==> old(Values())(id).Some? && FitsPage(size, row))
      ensures r.Some? ==> r.value == id || old(Values())(r.value) == None
      ensures old(Names(id)) && Replaceable(size, old(pages)[id.page.value - 1], id.slot.value, row) ==> r == Some(id)
      ensures forall x :: Values()(x) == if Some(x) == r then Some(row) else if x == id then None else old(Values())(x)
    {
      if !Names(id) {
        return None;
      }
      var i, j := id.page.value - 1, id.slot.value;
      OnlyId(container, i, j, id);
      var p := UpdateValue(size, pages[i], j, row);
      if p.Some? {
        SlotSet(container, pages, i, p.value, j, Some(row));
        pages := pages[i := p.value];
        return Some(id);
      }
      var gone := DeleteVal(id);
      if !gone {
        return None;
      }
      r := AddVal(row);
    }
  }

  lemma StartsNew(table: map<Rid, Row>, rows: seq<Row>)
    ensures NewIds(table, []) && StoredTo(table, [], rows, 0) == table
  {
  }

  lemma SameStores(was: Rid -> Option<Row>, now: Rid -> Option<Row>, table: map<Rid, Row>)
    requires Stores(was, table) && forall x :: now(x) == was(x)
    ensures Stores(now, table)
  {
  }
}
