/** The FROM clause. */
module FromClause {
  import opened Base
  import opened Exprs
  import opened PlanModel
  import opened QueryMeaning
  import opened Scopes
  import opened WhereClause

  /** A column of the subquery, perhaps under another name. */
  datatype Item = Item(column: string, alias: Option<string>)

  /** A table, or a subquery over one FROM item that selects columns, or all of them with a star at the end. */
  datatype From =
    | BaseTable(name: string, alias: Option<string>)
    | SubQuery(from: From, items: seq<Item>, star: bool, alias: Option<string>)

  predicate ValidAlias(alias: Option<string>) {
    alias.Some? ==> forall i | 0 <= i < |alias.value| :: WordChar(alias.value[i])
  }

  predicate WordChar(c: char) {
    'a' <= c <= 'z' || 'A' <= c <= 'Z' || '0' <= c <= '9' || c == '_'
  }

  // ------------------------------------------------------------------ base tables

  /** The id under which a scan reads a column of a table. */
  function TempId(t: TableId, i: nat): (id: ColId) {
    t * MAX_COLUMNS + i
  }

  function TableCols(d: TableDef): (cols: seq<ColId>)
    ensures |cols| == |d.attrs|
  {
    seq(|d.attrs|, i requires 0 <= i < |d.attrs| => TempId(d.id, i))
  }

  lemma TempIndex(t: TableId, i: nat)
    requires i < MAX_COLUMNS
    ensures ColumnIndex(TempId(t, i)) == i
  {
  }

  lemma TableInOrder(d: TableDef)
    requires |d.attrs| <= MAX_COLUMNS
    ensures InOrder(TableCols(d)) && NoneTwice(TableCols(d))
  {
    var cols := TableCols(d);
    forall i | 0 <= i < |cols| ensures ColumnIndex(cols[i]) == i {
      TempIndex(d.id, i);
    }
  }

  /** A scan with every column under a new id from `lo` on and below `hi`. */
  ghost predicate RenamedScan(p: Logical, lo: ColId, hi: ColId) {
    && p.LRename? && p.src.LScan? && p.names.Keys == Ids(p.src.cols) && Injective(p.names)
    && forall c | c in p.names :: lo <= p.names[c] < hi
  }

  lemma ScanColumn(p: Logical, lo: ColId, hi: ColId, c: ColId)
    requires RenamedScan(p, lo, hi) && c in p.names
    ensures p.names[c] in Columns(p) && Columns(p)[p.names[c]] == ColumnIndex(c)
  {
    RenamedAt(p.names, Columns(p.src), c);
  }

  function Dotted(a: string, b: string): (s: string) {
    a + "." + b
  }

  /** The scope once one column of a table is named. */
  function BoundOne(s: Scope, table: string, d: TableDef, names: map<ColId, ColId>, alias: Option<string>,
      c: ColId): (s': Scope)
    requires c in names && ColumnIndex(c) < |d.attrs|
  {
    var id, name := names[c], d.attrs[ColumnIndex(c)];
    var columns := s.columns[name := id][Dotted(table, name) := id];
    s.(columns := if alias.Some? then columns[Dotted(alias.value, name) := id] else columns,
       origins := s.origins[id := BaseOrigin(d.id, ColumnIndex(c))])
  }

  /** What a scope knows once the columns `done` of a table are named. */
  ghost predicate AllBound(s: Scope, d: TableDef, names: map<ColId, ColId>, done: set<ColId>)
    requires done <= names.Keys
  {
    && (forall n | n in s.columns :: exists c | c in done :: names[c] == s.columns[n])
    && (forall c | c in done :: names[c] in s.origins && s.origins[names[c]] == BaseOrigin(d.id, ColumnIndex(c)))
    && (forall id | id in s.origins :: exists c | c in done :: names[c] == id)
  }

  lemma BoundMore(s: Scope, table: string, d: TableDef, names: map<ColId, ColId>, alias: Option<string>,
      done: set<ColId>, c: ColId)
    requires done <= names.Keys && AllBound(s, d, names, done) && Injective(names) && c in names && ColumnIndex(c) < |d.attrs|
    ensures AllBound(BoundOne(s, table, d, names, alias, c), d, names, done + {c})
  {
    var s', more := BoundOne(s, table, d, names, alias, c), done + {c};
    assert c in more;
    forall n | n in s'.columns ensures exists x | x in more :: names[x] == s'.columns[n] {
      if s'.columns[n] != names[c] {
        var x :| x in done && names[x] == s.columns[n];
        assert x in more;
      }
    }
    forall id | id in s'.origins ensures exists x | x in more :: names[x] == id {
      if id != names[c] {
        var x :| x in done && names[x] == id;
        assert x in more;
      }
    }
  }

  /** One of the names of a column: its own, or that behind the table's name or the alias. */
  predicate Denotes(table: string, d: TableDef, alias: Option<string>, c: ColId, n: string) {
    && ColumnIndex(c) < |d.attrs|
    && var name := d.attrs[ColumnIndex(c)];
       n == name || n == Dotted(table, name) || (alias.Some? && n == Dotted(alias.value, name))
  }

  /** Every name leads to a column that has it, and every name of a column is known. */
  ghost predicate WellNamed(s: Scope, table: string, d: TableDef, names: map<ColId, ColId>, alias: Option<string>,
      done: set<ColId>)
    requires done <= names.Keys
  {
    && (forall n | n in s.columns :: exists c | c in done :: names[c] == s.columns[n] && Denotes(table, d, alias, c, n))
    && (forall c, n | c in done && Denotes(table, d, alias, c, n) :: n in s.columns)
  }

  lemma NamedMore(s: Scope, table: string, d: TableDef, names: map<ColId, ColId>, alias: Option<string>,
      done: set<ColId>, c: ColId)
    requires done <= names.Keys && WellNamed(s, table, d, names, alias, done) && c in names && ColumnIndex(c) < |d.attrs|
    ensures WellNamed(BoundOne(s, table, d, names, alias, c), table, d, names, alias, done + {c})
  {
    hide Dotted;
    var s', more := BoundOne(s, table, d, names, alias, c), done + {c};
    forall n | n in s'.columns ensures exists x | x in more :: names[x] == s'.columns[n] && Denotes(table, d, alias, x, n) {
      if Denotes(table, d, alias, c, n) {
        assert c in more;
      } else {
        var x :| x in done && names[x] == s.columns[n] && Denotes(table, d, alias, x, n);
        assert x in more;
      }
    }
  }

  lemma BoundColumn(s: Scope, d: TableDef, names: map<ColId, ColId>, n: string) returns (c: ColId)
    requires AllBound(s, d, names, names.Keys) && n in s.columns
    ensures c in names && names[c] == s.columns[n] && names[c] in s.origins
    ensures s.origins[names[c]] == BaseOrigin(d.id, ColumnIndex(c))
  {
    c :| c in names.Keys && names[c] == s.columns[n];
  }

  lemma BoundOrigin(s: Scope, d: TableDef, names: map<ColId, ColId>, id: ColId) returns (c: ColId)
    requires AllBound(s, d, names, names.Keys) && id in s.origins
    ensures c in names && names[c] == id && s.origins[id].BaseOrigin?
  {
    c :| c in names.Keys && names[c] == id;
  }

  /** The scope is in order: its own columns lie between `lo` and `hi`, and those around it are older. */
  ghost predicate Settled(s: Scope, lo: ColId, hi: ColId) {
    && Grounded(s) && lo <= hi && (s.outer.Some? ==> Older(s.outer.value, lo))
    && (forall id | id in s.origins :: lo <= id < hi)
    && (forall n | n in s.columns :: lo <= s.columns[n] < hi)
  }

  lemma BoundSettled(s: Scope, d: TableDef, names: map<ColId, ColId>, lo: ColId, hi: ColId)
    requires AllBound(s, d, names, names.Keys) && lo <= hi && forall c | c in names :: lo <= names[c] < hi
    requires s.outer.Some? ==> Older(s.outer.value, lo) && Grounded(s.outer.value)
    ensures Settled(s, lo, hi)
  {
    hide AllBound, Older;
    forall id | id in s.origins ensures s.origins[id].BaseOrigin? && lo <= id < hi {
      var c := BoundOrigin(s, d, names, id);
    }
    forall n | n in s.columns ensures lo <= s.columns[n] < hi {
      var c := BoundColumn(s, d, names, n);
    }
  }

  /** The columns of a table, all named: every one has its origin, so nothing about them is in doubt. */
  lemma BoundNames(s: Scope, d: TableDef, names: map<ColId, ColId>, lo: ColId, hi: ColId)
    requires var p := LRename(LScan(d.id, TableCols(d)), names); RenamedScan(p, lo, hi)
    requires AllBound(s, d, names, names.Keys) && Settled(s, lo, hi)
    ensures Names(s, LRename(LScan(d.id, TableCols(d)), names))
    ensures forall n | n in s.columns :: s.columns[n] in s.origins
  {
    hide Columns, AllBound, Older, Unknown, RenamedScan;
    var p := LRename(LScan(d.id, TableCols(d)), names);
    assert FindScan(p.src) == Some(d.id);
    forall n | n in s.columns ensures Placed(s, p, s.columns[n]) && s.columns[n] in s.origins {
      var c := BoundColumn(s, d, names, n);
      ScanColumn(p, lo, hi, c);
      if s.outer.Some? {
        NewUnknown(s.outer.value, lo, s.columns[n]);
      }
    }
  }

  // ------------------------------------------------------------------ subqueries

  /** Look a select item up among the subquery's own names, and give its column the alias too. */
  function Picked(s: Scope, item: Item): (r: Option<(Scope, ColId)>) {
    if item.column in s.columns && ValidAlias(item.alias) then
      var id := s.columns[item.column];
      Some((if item.alias.Some? then s.(columns := s.columns[item.alias.value := id]) else s, id))
    else None
  }

  /** Nothing on an unknown or invalid name; such items, and expressions, do not leave a scan. */
  function PickedAll(s: Scope, items: seq<Item>): (r: Option<(Scope, seq<ColId>)>) {
    if items == [] then Some((s, []))
    else
      var n := |items| - 1;
      var before := PickedAll(s, items[..n]);
      if before.None? then None
      else
        var one := Picked(before.value.0, items[n]);
        if one.None? then None else Some((one.value.0, before.value.1 + [one.value.1]))
  }

  lemma {:induction false} PickedKeeps(s: Scope, items: seq<Item>, p: Logical, lo: ColId, hi: ColId)
    requires Names(s, p) && Settled(s, lo, hi) && PickedAll(s, items).Some?
    ensures var (s', cols) := PickedAll(s, items).value;
      && Names(s', p) && Settled(s', lo, hi) && s'.outer == s.outer
      && forall i | 0 <= i < |cols| :: cols[i] in Columns(p)
  {
    hide Columns, Unknown, Older;
    if items == [] {
    } else {
      PickedKeeps(s, items[..|items| - 1], p, lo, hi);
      var (s', cols) := PickedAll(s, items[..|items| - 1]).value;
      PickedOne(s', items[|items| - 1], p, lo, hi);
    }
  }

  lemma PickedOne(s: Scope, item: Item, p: Logical, lo: ColId, hi: ColId)
    requires Names(s, p) && Settled(s, lo, hi) && Picked(s, item).Some?
    ensures var (s', id) := Picked(s, item).value;
      Names(s', p) && Settled(s', lo, hi) && s'.outer == s.outer && id in Columns(p)
  {
    hide Columns, Unknown, Older;
    var (s', id) := Picked(s, item).value;
    assert Placed(s, p, id);
    forall n | n in s'.columns ensures Placed(s', p, s'.columns[n]) {
      assert s'.columns[n] == id || (n in s.columns && s'.columns[n] == s.columns[n]);
    }
  }

  /** A projection, pushed below the renaming into the scan. */
  function ProjectScan(p: Logical, cols: seq<ColId>): (q: Logical)
    requires p.LRename? && p.src.LScan?
  {
    var names := map c | c in p.names && p.names[c] in cols :: p.names[c];
    LRename(LScan(p.src.table, Retained(p.src.cols, names.Keys)), names)
  }

  function Retained(cols: seq<ColId>, keep: set<ColId>): (r: seq<ColId>) {
    if cols == [] then [] else (if cols[0] in keep then [cols[0]] else []) + Retained(cols[1..], keep)
  }

  lemma {:induction false} RetainedAre(cols: seq<ColId>, keep: set<ColId>)
    ensures forall c :: c in Retained(cols, keep) <==> c in cols && c in keep
  {
    if cols == [] {
    } else {
      RetainedAre(cols[1..], keep);
      assert cols == [cols[0]] + cols[1..];
    }
  }

  /** The columns that a projection keeps stay where they are. */
  lemma ProjectedScan(p: Logical, cols: seq<ColId>, lo: ColId, hi: ColId)
    requires RenamedScan(p, lo, hi)
    ensures RenamedScan(ProjectScan(p, cols), lo, hi) && FindScan(ProjectScan(p, cols)) == FindScan(p)
  {
    var q := ProjectScan(p, cols);
    RetainedAre(p.src.cols, q.names.Keys);
    assert q.names.Keys == Ids(q.src.cols);
  }

  function Under(prefix: Option<string>, name: string): (n: string) {
    if prefix.Some? then Dotted(prefix.value, name) else name
  }

  function NameSet(names: seq<string>): (s: set<string>) {
    set n | n in names
  }

  function WithNames(columns: map<string, ColId>, names: set<string>, prefix: Option<string>,
      id: ColId): (r: map<string, ColId>) {
    map n | n in columns.Keys + Prefixed(names, prefix) :: if n in Prefixed(names, prefix) then id else columns[n]
  }

  function Prefixed(names: set<string>, prefix: Option<string>): (s: set<string>) {
    set n | n in names :: Under(prefix, n)
  }

  /** The names of a subquery's column in the query around it: as they were, and behind the alias. */
  function BroughtOne(columns: map<string, ColId>, inner: Scope, id: ColId,
      alias: Option<string>): (r: map<string, ColId>) {
    var plain := WithNames(columns, NamesOf(inner, id), None, id);
    if alias.Some? then WithNames(plain, NamesOf(inner, id), alias, id) else plain
  }

  /** One column after the other, in the order of a hash set; a later one takes over the names it shares. */
  function Brought(columns: map<string, ColId>, inner: Scope, order: seq<ColId>,
      alias: Option<string>): (r: map<string, ColId>) {
    if order == [] then columns
    else BroughtOne(Brought(columns, inner, order[..|order| - 1], alias), inner, order[|order| - 1], alias)
  }

  lemma {:induction false} BroughtIn(columns: map<string, ColId>, inner: Scope, order: seq<ColId>,
      alias: Option<string>)
    ensures forall n | n in Brought(columns, inner, order, alias) ::
      var id := Brought(columns, inner, order, alias)[n]; id in order || (n in columns && id == columns[n])
  {
    if order == [] {
    } else {
      var k := |order| - 1;
      BroughtIn(columns, inner, order[..k], alias);
      var before, id := Brought(columns, inner, order[..k], alias), order[k];
      assert order == order[..k] + [id];
      forall n | n in BroughtOne(before, inner, id, alias)
        ensures BroughtOne(before, inner, id, alias)[n] == id
          || (n in before && BroughtOne(before, inner, id, alias)[n] == before[n])
      {
      }
    }
  }

  /** After a subquery its columns are known by name only. */
  lemma BroughtNames(s: Scope, inner: Scope, order: seq<ColId>, alias: Option<string>, p: Logical, lo: ColId, hi: ColId)
    requires RenamedScan(p, lo, hi) && (forall id | id in order :: id in p.names.Values) && lo <= hi
    requires s.origins == map[] && s.columns == Brought(map[], inner, order, alias)
    requires s.outer.Some? ==> Older(s.outer.value, lo) && Grounded(s.outer.value)
    ensures Names(s, p) && Settled(s, lo, hi)
  {
    hide Columns, Unknown, Older, Brought;
    BroughtIn(map[], inner, order, alias);
    assert FindScan(p.src).Some?;
    forall n | n in s.columns ensures Placed(s, p, s.columns[n]) && lo <= s.columns[n] < hi {
      assert s.columns[n] in order;
      var c :| c in p.names && p.names[c] == s.columns[n];
      ScanColumn(p, lo, hi, c);
      if s.outer.Some? {
        NewUnknown(s.outer.value, lo, s.columns[n]);
      }
    }
  }

  // ------------------------------------------------------------------ the translation

  /** New ids for the columns of a table, handed out in any order. */
  method FreshNames(cols: seq<ColId>, next: ColId) returns (names: map<ColId, ColId>, hi: ColId)
    ensures names.Keys == Ids(cols) && Injective(names) && next <= hi && forall c | c in names :: next <= names[c] < hi
  {
    names, hi := map[], next;
    var left := set c | c in cols;
    while left != {}
      invariant left <= Ids(cols) && names.Keys == Ids(cols) - left && Injective(names)
      invariant next <= hi && forall c | c in names :: next <= names[c] < hi
    {
      var c :| c in left;
      names, hi, left := names[c := hi], hi + 1, left - {c};
    }
  }

  class Environment {
    var columns: map<string, ColId>
    var origins: map<ColId, Origin>
    const outer: Option<Scope>

    function Model(): (s: Scope)
      reads this
    {
      Scope(columns, origins, outer)
    }

    constructor (outer: Option<Scope>)
      ensures Model() == Scope(map[], map[], outer)
    {
      this.outer := outer;
      columns, origins := map[], map[];
    }

    method Set(name: string, id: ColId)
      modifies this`columns
      ensures columns == old(columns)[name := id]
    {
      columns := columns[name := id];
    }

    method AddToOriginMap(id: ColId, origin: Origin)
      modifies this`origins
      ensures origins == old(origins)[id := origin]
    {
      origins := origins[id := origin];
    }

    /** Name the columns of a base table, in any order. */
    method BindTable(table: string, d: TableDef, names: map<ColId, ColId>, alias: Option<string>)
      requires |d.attrs| <= MAX_COLUMNS && names.Keys == Ids(TableCols(d)) && Injective(names) && Model() == Scope(map[], map[], outer)
      modifies this
      ensures AllBound(Model(), d, names, names.Keys) && WellNamed(Model(), table, d, names, alias, names.Keys)
    {
      hide AllBound, WellNamed;
      TableInOrder(d);
      NoneBound(Model(), table, d, names, alias);
      var left := names.Keys;
      assert names.Keys - left == {};
      while left != {}
        invariant left <= names.Keys && AllBound(Model(), d, names, names.Keys - left)
        invariant WellNamed(Model(), table, d, names, alias, names.Keys - left)
      {
        var c :| c in left;
        IndexInside(d, c);
        ghost var before := Model();
        var id, name := names[c], d.attrs[ColumnIndex(c)];
        Set(name, id);
        Set(Dotted(table, name), id);
        AddToOriginMap(id, BaseOrigin(d.id, ColumnIndex(c)));
        if alias.Some? {
          Set(Dotted(alias.value, name), id);
        }
        assert Model() == BoundOne(before, table, d, names, alias, c);
        BoundMore(before, table, d, names, alias, names.Keys - left, c);
        NamedMore(before, table, d, names, alias, names.Keys - left, c);
        assert names.Keys - (left - {c}) == names.Keys - left + {c};
        left := left - {c};
      }
      assert names.Keys - left == names.Keys;
    }

    /** Take over the columns of a subquery, in any order. */
    method BringIn(inner: Scope, ids: set<ColId>, alias: Option<string>) returns (ghost order: seq<ColId>)
      requires columns == map[]
      modifies this`columns
      ensures columns == Brought(map[], inner, order, alias) && forall id :: id in order <==> id in ids
    {
      hide Brought, WithNames, NamesOf;
      NoneBrought(inner, alias);
      order := [];
      var left := ids;
      while left != {}
        invariant left <= ids && columns == Brought(map[], inner, order, alias)
        invariant forall id :: id in order <==> id in ids && id !in left
      {
        var id :| id in left;
        var names := GetNames(inner, id);
        assert NamesOf(inner, id) == NameSet(names);
        SetEach(names, None, id);
        if alias.Some? {
          SetEach(names, alias, id);
        }
        BroughtMore(inner, order, id, alias);
        order := order + [id];
        left := left - {id};
      }
    }

    method SetEach(names: seq<string>, prefix: Option<string>, id: ColId)
      modifies this`columns
      ensures columns == WithNames(old(columns), NameSet(names), prefix, id)
    {
      hide WithNames;
      WithNone(columns, prefix, id);
      assert NameSet(names[..0]) == {};
      for i := 0 to |names|
        invariant columns == WithNames(old(columns), NameSet(names[..i]), prefix, id)
      {
        Set(Under(prefix, names[i]), id);
        WithOneMore(old(columns), names, i, prefix, id);
      }
      assert names[..|names|] == names;
    }

    /** Process the select items of a subquery that are plain columns. */
    method PickItems(items: seq<Item>) returns (cols: Option<seq<ColId>>)
      modifies this`columns
      ensures cols.Some? <==> PickedAll(old(Model()), items).Some?
      ensures cols.Some? ==> PickedAll(old(Model()), items).value == (Model(), cols.value)
    {
      var picked := [];
      for i := 0 to |items|
        invariant PickedAll(old(Model()), items[..i]) == Some((Model(), picked))
      {
        var item := items[i];
        assert items[..i + 1][..i] == items[..i];
        if item.column !in columns || !ValidAlias(item.alias) {
          PickedStops(old(Model()), items, i);
          return None;
        }
        var id := columns[item.column];
        picked := picked + [id];
        if item.alias.Some? {
          Set(item.alias.value, id);
        }
      }
      assert items[..|items|] == items;
      return Some(picked);
    }
  }

  lemma NoneBound(s: Scope, table: string, d: TableDef, names: map<ColId, ColId>, alias: Option<string>)
    requires s.columns == map[] && s.origins == map[]
    ensures AllBound(s, d, names, {}) && WellNamed(s, table, d, names, alias, {})
  {
  }

  lemma WithNone(columns: map<string, ColId>, prefix: Option<string>, id: ColId)
    ensures WithNames(columns, {}, prefix, id) == columns
  {
  }

  lemma WithOneMore(columns: map<string, ColId>, names: seq<string>, i: nat, prefix: Option<string>, id: ColId)
    requires i < |names|
    ensures WithNames(columns, NameSet(names[..i + 1]), prefix, id)
      == WithNames(columns, NameSet(names[..i]), prefix, id)[Under(prefix, names[i]) := id]
  {
    hide WithNames;
    assert names[..i + 1] == names[..i] + [names[i]];
    assert NameSet(names[..i + 1]) == NameSet(names[..i]) + {names[i]};
    WithAdded(columns, NameSet(names[..i]), names[i], prefix, id);
  }

  lemma WithAdded(columns: map<string, ColId>, names: set<string>, name: string, prefix: Option<string>, id: ColId)
    ensures WithNames(columns, names + {name}, prefix, id) == WithNames(columns, names, prefix, id)[Under(prefix, name) := id]
  {
    PrefixedMore(names, name, prefix);
    hide Prefixed;
  }

  lemma PrefixedMore(names: set<string>, name: string, prefix: Option<string>)
    ensures Prefixed(names + {name}, prefix) == Prefixed(names, prefix) + {Under(prefix, name)}
  {
    hide Under;
    assert name in names + {name};
    forall n | n in names ensures Under(prefix, n) in Prefixed(names + {name}, prefix) {
      assert n in names + {name};
    }
  }

  lemma NoneBrought(inner: Scope, alias: Option<string>)
    ensures Brought(map[], inner, [], alias) == map[]
  {
  }

  lemma BroughtMore(inner: Scope, order: seq<ColId>, id: ColId, alias: Option<string>)
    ensures Brought(map[], inner, order + [id], alias) == BroughtOne(Brought(map[], inner, order, alias), inner, id, alias)
  {
    assert (order + [id])[..|order|] == order;
  }

  lemma {:induction false} PickedStops(s: Scope, items: seq<Item>, i: nat)
    requires i < |items| && PickedAll(s, items[..i + 1]).None?
    ensures PickedAll(s, items).None?
    decreases |items|
  {
    if i + 1 < |items| {
      var n := |items| - 1;
      assert items[..n][..i + 1] == items[..i + 1];
      PickedStops(s, items[..n], i);
    } else {
      assert items[..i + 1] == items;
    }
  }

  lemma IndexInside(d: TableDef, c: ColId)
    requires |d.attrs| <= MAX_COLUMNS && c in Ids(TableCols(d))
    ensures ColumnIndex(c) < |d.attrs|
  {
    var i :| 0 <= i < |d.attrs| && TableCols(d)[i] == c;
    TempIndex(d.id, i);
  }

  ghost predicate SmallTables(tables: Tables) {
    forall name | name in tables :: |tables[name].attrs| <= MAX_COLUMNS
  }

  /**
   * Translate a FROM item into a scope that has no names yet. Nothing on an unknown table, an invalid alias or
   * a select item that is not a plain column. Every name left behind is a column of the plan; over a base
   * table every one is clear, and the columns are listed in order.
   */
  method ProcessFrom(tables: Tables, from: From, env: Environment, next: ColId) returns (r: Option<(Logical, ColId)>)
    requires SmallTables(tables) && env.Model() == Scope(map[], map[], env.outer)
    requires env.outer.Some? ==> Older(env.outer.value, next) && Grounded(env.outer.value)
    modifies env
    ensures r.Some? ==>
      && RenamedScan(r.value.0, next, r.value.1) && Names(env.Model(), r.value.0) && Settled(env.Model(), next, r.value.1)
      && (from.BaseTable? ==> NamesClear(tables, env.Model(), r.value.0) && InOrder(r.value.0.src.cols))
    ensures from.BaseTable? ==>
      && (r.Some? <==> from.name in tables && ValidAlias(from.alias))
      && (r.Some? ==>
            && r.value.0.src == LScan(tables[from.name].id, TableCols(tables[from.name]))
            && WellNamed(env.Model(), from.name, tables[from.name], r.value.0.names, from.alias, r.value.0.names.Keys))
    decreases from
  {
    hide Columns, Older, Unknown, AllBound, WellNamed, Clear;
    match from
    case BaseTable(name, alias) =>
      if name !in tables || !ValidAlias(alias) {
        return None;
      }
      var d := tables[name];
      var names, hi := FreshNames(TableCols(d), next);
      env.BindTable(name, d, names, alias);
      TableInOrder(d);
      var p := LRename(LScan(d.id, TableCols(d)), names);
      BoundSettled(env.Model(), d, names, next, hi);
      BoundNames(env.Model(), d, names, next, hi);
      KnownClear(tables, env.Model(), p);
      return Some((p, hi));
    case SubQuery(sub, items, star, alias) =>
      var inner := new Environment(Some(env.Model()));
      OuterOlder(env.Model(), next);
      var made := ProcessFrom(tables, sub, inner, next);
      if made.None? || !ValidAlias(alias) {
        return None;
      }
      var p, hi := made.value.0, made.value.1;
      ghost var before := inner.Model();
      var cols := inner.PickItems(items);
      if cols.None? {
        return None;
      }
      PickedKeeps(before, items, p, next, hi);
      ProjectedScan(p, cols.value, next, hi);
      var q := if star then p else ProjectScan(p, cols.value);
      var order := env.BringIn(inner.Model(), q.names.Values, alias);
      BroughtNames(env.Model(), inner.Model(), order, alias, q, next, hi);
      return Some((q, hi));
  }

  lemma OuterOlder(s: Scope, next: ColId)
    requires s.columns == map[] && s.origins == map[]
    requires s.outer.Some? ==> Older(s.outer.value, next) && Grounded(s.outer.value)
    ensures Older(s, next) && Grounded(s)
  {
  }

  lemma KnownClear(tables: Tables, s: Scope, p: Logical)
    requires Names(s, p) && forall n | n in s.columns :: s.columns[n] in s.origins
    ensures NamesClear(tables, s, p)
  {
  }
}
