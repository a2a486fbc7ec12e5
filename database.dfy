/**
 * The database: a name and an ordered list of tables, searched by name with
 * first-match semantics (crates/core/src/types/database.rs).
 */
module Databases {
  import opened Wrappers
  import opened Schema
  import opened Tables

  /** The position of the first table named `n` (`Iterator::position`), if any. */
  function FirstMatch(ts: seq<Table>, n: string): (r: Option<nat>)
    ensures r.Some? ==> r.value < |ts| && ts[r.value].name == n
    ensures r.Some? ==> forall j :: 0 <= j < r.value ==> ts[j].name != n
    ensures r.None? <==> forall j :: 0 <= j < |ts| ==> ts[j].name != n
  {
    if ts == [] then None
    else if ts[0].name == n then Some(0)
    else match FirstMatch(ts[1..], n)
      case Some(i) => Some(i + 1)
      case None => None
  }

  /** A position moved `d` places to the right. */
  function Shift(p: Option<nat>, d: nat): Option<nat> {
    match p
    case Some(i) => Some(i + d)
    case None => None
  }

  /** Searching a prefix without a match followed by a suffix finds the suffix's first match, shifted. */
  lemma {:induction false} FirstMatchSkipsPrefix(a: seq<Table>, b: seq<Table>, n: string)
    requires forall j :: 0 <= j < |a| ==> a[j].name != n
    ensures FirstMatch(a + b, n) == Shift(FirstMatch(b, n), |a|)
  {
    if a == [] {
      assert a + b == b;
    } else {
      assert (a + b)[1..] == a[1..] + b;
      FirstMatchSkipsPrefix(a[1..], b, n);
    }
  }

  /**
   * Appending a table never shadows an earlier one of the same name: the
   * first match stays where it was, and only a list without one finds the new table.
   */
  lemma {:induction false} FirstMatchAfterAppend(ts: seq<Table>, t: Table, n: string)
    ensures FirstMatch(ts + [t], n) ==
      if FirstMatch(ts, n).Some? then FirstMatch(ts, n)
      else if t.name == n then Some(|ts|)
      else None
  {
    if ts != [] {
      assert (ts + [t])[1..] == ts[1..] + [t];
      FirstMatchAfterAppend(ts[1..], t, n);
    }
  }

  /**
   * Removing the first table named `n` (at `i`) makes the next table of that
   * name, if there is one, the first match.
   */
  lemma FirstMatchAfterRemoval(ts: seq<Table>, n: string, i: nat)
    requires FirstMatch(ts, n) == Some(i)
    ensures FirstMatch(ts[..i] + ts[i + 1..], n) == Shift(FirstMatch(ts[i + 1..], n), i)
    ensures forall j :: FirstMatch(ts[i + 1..], n) == Some(j) ==> (ts[..i] + ts[i + 1..])[i + j] == ts[i + 1 + j]
  {
    FirstMatchSkipsPrefix(ts[..i], ts[i + 1..], n);
  }

  class Database {
    const name: string
    var tables: seq<Table>

    /** The database owns its tables: each is a valid table, and no table is held twice. */
    ghost predicate Valid()
      reads this, tables
    {
      && (forall i :: 0 <= i < |tables| ==> tables[i].Valid())
      && (forall i, j :: 0 <= i < j < |tables| ==> tables[i] != tables[j])
    }

    /** `Database::new`: the given name and no tables. */
    constructor (name: string)
      ensures Valid()
      ensures this.name == name && tables == []
    {
      this.name := name;
      tables := [];
    }

    /**
     * Appends `table` at the end; a duplicate name is not rejected. The table
     * is moved in, so it is not already held.
     */
    method AddTable(table: Table)
      requires Valid() && table.Valid() && table !in tables
      modifies this
      ensures Valid()
      ensures tables == old(tables) + [table]
    {
      tables := tables + [table];
    }

    /** The first table named `n`, if any. */
    function GetTable(n: string): (r: Option<Table>)
      reads this
      ensures r.Some? <==> exists j :: 0 <= j < |tables| && tables[j].name == n
      ensures r.Some? ==> r.value.name == n && r.value in tables
      ensures r.Some? ==>
        (exists j :: 0 <= j < |tables| && tables[j] == r.value && forall k :: 0 <= k < j ==> tables[k].name != n)
    {
      match FirstMatch(tables, n)
      case Some(i) => Some(tables[i])
      case None => None
    }

    /** The table `get_table_mut` hands out for in-place changes: the same first match as `GetTable`. */
    function GetTableMut(n: string): (r: Option<Table>)
      reads this
      ensures r == GetTable(n)
    {
      GetTable(n)
    }

    /**
     * Removes and returns the first table named `n`, keeping the others in
     * order; with no such table nothing changes.
     */
    method DeleteTable(n: string) returns (r: Option<Table>)
      requires Valid()
      modifies this
      ensures Valid()
      ensures r.Some? ==> r.value.Valid() && r.value !in tables
      ensures old(FirstMatch(tables, n)).None? ==> r.None? && tables == old(tables)
      ensures old(FirstMatch(tables, n)).Some? ==>
        var i := old(FirstMatch(tables, n)).value;
        r == Some(old(tables)[i]) && tables == old(tables)[..i] + old(tables)[i + 1..]
      ensures r == old(GetTable(n))
    {
      var index := FirstMatch(tables, n);
      match index
      case Some(i) =>
        r := Some(tables[i]);
        tables := tables[..i] + tables[i + 1..];
      case None =>
        r := None;
    }
  }

  /**
   * Two tables of one name: the first is found; deleting it returns it, and
   * the second is then found.
   */
  method DeleteRevealsSecond(t1: Table, t2: Table, n: string)
    returns (found: Option<Table>, deleted: Option<Table>, after: Option<Table>)
    requires t1.Valid() && t2.Valid() && t1 != t2
    requires t1.name == n && t2.name == n
    ensures found == Some(t1) && deleted == Some(t1) && after == Some(t2)
  {
    var db := new Database("test_db");
    db.AddTable(t1);
    db.AddTable(t2);
    found := db.GetTable(n);
    deleted := db.DeleteTable(n);
    after := db.GetTable(n);
  }

  /**
   * Inserts `values` into the table `get_table_mut` finds, changing that table
   * in place, as the record-creating adapters do; none when no table has the
   * name. Every other table is left as it was.
   */
  method InsertThroughLookup(db: Database, n: string, values: seq<DbValue>)
    returns (r: Option<Result<u32, TableError>>)
    requires db.Valid()
    requires db.GetTable(n).Some? && Conforms(db.GetTable(n).value.schema, values) ==> db.GetTable(n).value.index < U32Max
    modifies set t | t in db.tables
    ensures db.Valid() && db.tables == old(db.tables)
    ensures r.None? <==> db.GetTable(n).None?
    ensures r.Some? ==> (r.value.Ok? <==> Conforms(db.GetTable(n).value.schema, values))
    ensures r.Some? && r.value.Ok? ==>
      (db.GetTable(n).value.rows == old(db.GetTable(n).value.rows)[r.value.value := Row(r.value.value, values)] &&
       db.GetTable(n).value.index == old(db.GetTable(n).value.index) + 1)
    ensures r.Some? && r.value.Err? ==>
      (db.GetTable(n).value.rows == old(db.GetTable(n).value.rows) &&
       db.GetTable(n).value.index == old(db.GetTable(n).value.index))
    ensures forall t :: t in db.tables && Some(t) != db.GetTable(n) ==> t.rows == old(t.rows) && t.index == old(t.index)
  {
    var found := db.GetTableMut(n);
    if found.None? {
      return None;
    }
    var table := found.value;
    var id := table.Insert(values);
    r := Some(id);
  }
}
