/** Names in scope. */
module Scopes {
  import opened Base
  import opened Exprs
  import opened PlanModel

  datatype TableDef = TableDef(id: TableId, attrs: seq<string>)

  /** The tables of the catalog by name. */
  type Tables = map<string, TableDef>

  /** Where a column comes from: a position of a table, another column, or an expression. */
  datatype Origin = BaseOrigin(table: TableId, index: nat) | Derived(id: ColId) | Composite

  /** The names a query sees, the origins it knows, and the query around it. */
  datatype Scope = Scope(columns: map<string, ColId>, origins: map<ColId, Origin>, outer: Option<Scope>)

  /** What asking for an origin gives: a position of a table, something else, or a panic. */
  datatype Answer = BaseColumn(table: TableId, index: nat) | NoColumn | Panics

  // ------------------------------------------------------------------ origins

  /** The first attribute of that name. */
  function FirstAttr(attrs: seq<string>, name: string): (i: Option<nat>)
    ensures i.Some? ==> i.value < |attrs| && attrs[i.value] == name
  {
    if attrs == [] then None
    else if attrs[0] == name then Some(0)
    else
      var rest := FirstAttr(attrs[1..], name);
      if rest.Some? then Some(rest.value + 1) else None
  }

  /** The column that a name of the form `table.column` means in the catalog. */
  function Hit(tables: Tables, name: string): (h: Option<(TableId, nat)>) {
    var parts := DotParts(name);
    if |parts| == 2 && parts[0] in tables then
      var i := FirstAttr(tables[parts[0]].attrs, parts[1]);
      if i.Some? then Some((tables[parts[0]].id, i.value)) else None
    else None
  }

  function NamesOf(s: Scope, id: ColId): (names: set<string>) {
    set n | n in s.columns && s.columns[n] == id
  }

  function Hits(tables: Tables, s: Scope, id: ColId): (hits: set<(TableId, nat)>) {
    set n | n in NamesOf(s, id) && Hit(tables, n).Some? :: Hit(tables, n).value
  }

  /** Columns derive from older columns only. */
  ghost predicate Grounded(s: Scope) {
    && (forall id | id in s.origins && s.origins[id].Derived? :: s.origins[id].id < id)
    && (s.outer.Some? ==> Grounded(s.outer.value))
  }

  /**
   * What asking for the origin of `id` can give. Names are tried in the order of a hash map, so each name
   * that the catalog knows may be the one that decides.
   */
  ghost predicate Leads(tables: Tables, s: Scope, id: ColId, a: Answer)
    requires Grounded(s)
    decreases s, id
  {
    if id in s.origins then
      match s.origins[id]
      case BaseOrigin(t, i) => a == BaseColumn(t, i)
      case Derived(d) => Leads(tables, s, d, a)
      case Composite => a == NoColumn
    else if Hits(tables, s, id) != {} then a.BaseColumn? && (a.table, a.index) in Hits(tables, s, id)
    else if s.outer.Some? then Leads(tables, s.outer.value, id, a)
    else a == Panics
  }

  /** The names of a column, in whatever order the map hands them out. */
  method GetNames(s: Scope, id: ColId) returns (names: seq<string>)
    ensures forall n :: n in names <==> n in NamesOf(s, id)
  {
    names := [];
    var left := s.columns.Keys;
    while left != {}
      invariant left <= s.columns.Keys
      invariant forall n :: n in names <==> n in NamesOf(s, id) && n !in left
    {
      var n :| n in left;
      if s.columns[n] == id {
        names := names + [n];
      }
      left := left - {n};
    }
  }

  method GetOrigin(tables: Tables, s: Scope, id: ColId) returns (a: Answer)
    requires Grounded(s)
    ensures Leads(tables, s, id, a)
    decreases s, id
  {
    if id in s.origins {
      match s.origins[id]
      case BaseOrigin(t, i) => return BaseColumn(t, i);
      case Derived(d) => a := GetOrigin(tables, s, d);
      case Composite => return NoColumn;
    } else {
      var names := GetNames(s, id);
      for k := 0 to |names|
        invariant forall j | 0 <= j < k :: Hit(tables, names[j]).None?
      {
        var h := Hit(tables, names[k]);
        if h.Some? {
          assert names[k] in names && h.value in Hits(tables, s, id);
          return BaseColumn(h.value.0, h.value.1);
        }
      }
      assert Hits(tables, s, id) == {};
      if s.outer.Some? {
        a := GetOrigin(tables, s.outer.value, id);
      } else {
        return Panics;
      }
    }
  }

  /** Neither this query nor one around it has heard of the column. */
  ghost predicate Unknown(s: Scope, id: ColId) {
    id !in s.origins && id !in s.columns.Values && (s.outer.Some? ==> Unknown(s.outer.value, id))
  }

  lemma {:induction false} UnknownPanics(tables: Tables, s: Scope, id: ColId, a: Answer)
    requires Grounded(s) && Unknown(s, id)
    ensures Leads(tables, s, id, a) <==> a == Panics
    decreases s
  {
    assert NamesOf(s, id) == {};
    assert Hits(tables, s, id) == {};
    if s.outer.Some? {
      UnknownPanics(tables, s.outer.value, id, a);
    }
  }

  /** Every column a scope or one around it knows is older than `next`. */
  ghost predicate Older(s: Scope, next: ColId) {
    && (forall id | id in s.origins :: id < next)
    && (forall n | n in s.columns :: s.columns[n] < next)
    && (s.outer.Some? ==> Older(s.outer.value, next))
  }

  lemma {:induction false} NewUnknown(s: Scope, next: ColId, id: ColId)
    requires Older(s, next) && next <= id
    ensures Unknown(s, id)
    decreases s
  {
    if s.outer.Some? {
      NewUnknown(s.outer.value, next, id);
    }
  }

  /** A name as seen from a query, in the nearest query that has it. */
  function Lookup(s: Scope, name: string): (id: Option<ColId>) {
    if name in s.columns then Some(s.columns[name])
    else if s.outer.Some? then Lookup(s.outer.value, name)
    else None
  }

  // ------------------------------------------------------------------ scans

  /** The table at the bottom of a plan that is a scan, renamed any number of times. */
  function FindScan(p: Logical): (t: Option<TableId>) {
    match p
    case LScan(t, _) => Some(t)
    case LRename(src, _) => FindScan(src)
    case _ => None
  }

  /** The table position of each column of such a plan. */
  ghost function Columns(p: Logical): (m: map<ColId, nat>) {
    match p
    case LScan(_, cols) => map id | id in cols :: ColumnIndex(id)
    case LRename(src, names) => Renamed(names, Columns(src))
    case _ => map[]
  }

  /**
   * A query whose FROM is such a plan: every column it can name is one of the plan's. An origin it knows is
   * right, and the queries around it know nothing of its columns.
   */
  ghost predicate Names(s: Scope, p: Logical) {
    && FindScan(p).Some? && Grounded(s)
    && forall n | n in s.columns :: Placed(s, p, s.columns[n])
  }

  ghost predicate Placed(s: Scope, p: Logical, id: ColId)
    requires FindScan(p).Some?
  {
    && id in Columns(p)
    && (id in s.origins ==> s.origins[id] == BaseOrigin(FindScan(p).value, Columns(p)[id]))
    && (s.outer.Some? ==> Unknown(s.outer.value, id))
  }
}
