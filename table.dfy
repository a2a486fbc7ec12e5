/**
 * Tables: a schema, an id-to-row map and a monotonic id counter
 * (crates/core/src/types/table.rs).
 */
module Tables {
  import opened Wrappers
  import opened Schema

  /** Rust's `u32`. */
  type u32 = x: int | 0 <= x < 0x1_0000_0000

  const U32Max: u32 := 0xFFFF_FFFF

  /** A stored row: its id and its values, in schema column order. */
  datatype Row = Row(id: u32, values: seq<DbValue>)

  /** The ways a table operation can fail. */
  datatype TableError =
    | LengthMismatch  // "Row length does not match schema length"
    | TypeMismatch    // "Value type does not match schema type"
    | RowNotFound     // "Row not found"
    | SchemasDiffer   // "Schemas do not match"

  /** `values` has one value per column, each of that column's kind. */
  predicate Conforms(schema: DbSchema, values: seq<DbValue>) {
    && |values| == |schema.columns|
    && forall i :: 0 <= i < |values| ==> values[i].ValueType() == schema.columns[i].columnType
  }

  /** The error validation reports for values that do not conform: arity is checked before kinds. */
  function MismatchError(schema: DbSchema, values: seq<DbValue>): TableError {
    if |values| != |schema.columns| then LengthMismatch else TypeMismatch
  }

  /** Some stored row has values equal to `values` under the store's value equality. */
  predicate OccursIn(values: seq<DbValue>, rows: map<u32, Row>) {
    exists k :: k in rows && ValuesEq(rows[k].values, values)
  }

  /** Some member of `set` equals `values` under the store's value equality (the `HashSet::contains` query). */
  predicate SetContains(unique: set<seq<DbValue>>, values: seq<DbValue>) {
    exists u :: u in unique && ValuesEq(u, values)
  }

  class Table {
    const name: string
    const schema: DbSchema
    var rows: map<u32, Row>
    /** The id the next insert will allocate. */
    var index: u32

    /** Every key is its row's id, below the counter, and every row conforms to the schema. */
    ghost predicate Valid()
      reads this
    {
      forall k :: k in rows ==> rows[k].id == k && k < index && Conforms(schema, rows[k].values)
    }

    /** `Table::new`: no rows, counter at 0. */
    constructor (name: string, schema: DbSchema)
      ensures Valid()
      ensures this.name == name && this.schema == schema
      ensures rows == map[] && index == 0
    {
      this.name := name;
      this.schema := schema;
      rows := map[];
      index := 0;
    }

    /**
     * Checks `row` against the schema: the length first, then each position
     * in order, stopping at the first value whose kind differs from its column's.
     */
    method Validate(row: seq<DbValue>) returns (r: Result<(), TableError>)
      ensures r.Ok? <==> Conforms(schema, row)
      ensures r == Err(LengthMismatch) <==> |row| != |schema.columns|
      ensures r == Err(TypeMismatch) <==> |row| == |schema.columns| && !Conforms(schema, row)
    {
      if |row| != |schema.columns| {
        return Err(LengthMismatch);
      }
      var i := 0;
      while i < |row|
        invariant 0 <= i <= |row|
        invariant forall j :: 0 <= j < i ==> row[j].ValueType() == schema.columns[j].columnType
      {
        if row[i].ValueType() != schema.columns[i].columnType {
          return Err(TypeMismatch);
        }
        i := i + 1;
      }
      return Ok(());
    }

    /**
     * Validates `row`, stores it under the current counter value and bumps the
     * counter. The counter overflowing `u32` is excluded by the precondition.
     */
    method Insert(row: seq<DbValue>) returns (r: Result<u32, TableError>)
      requires Valid()
      requires Conforms(schema, row) ==> index < U32Max
      modifies this
      ensures Valid()
      ensures Conforms(schema, row) ==>
        && r == Ok(old(index))
        && old(index) !in old(rows)
        && rows == old(rows)[old(index) := Row(old(index), row)]
        && |rows| == |old(rows)| + 1
        && index == old(index) + 1
      ensures !Conforms(schema, row) ==>
        r == Err(MismatchError(schema, row)) && rows == old(rows) && index == old(index)
    {
      var v := Validate(row);
      if v.Err? {
        return Err(v.error);
      }
      var id := index;
      rows := rows[id := Row(id, row)];
      index := index + 1;
      r := Ok(index - 1);
    }

    /** Removes the row stored under `id`; an absent id is an error. The counter never moves. */
    method Delete(id: u32) returns (r: Result<(), TableError>)
      requires Valid()
      modifies this
      ensures Valid()
      ensures r == (if id in old(rows) then Ok(()) else Err(RowNotFound))
      ensures rows == old(rows) - {id}
      ensures index == old(index)
    {
      if id !in rows {
        return Err(RowNotFound);
      }
      rows := rows - {id};
      r := Ok(());
    }

    /**
     * Validates `newRow`, then replaces the values of the row stored under
     * `id`, keeping its id. The source unwraps the lookup after validation,
     * so an absent id with valid values is excluded by the precondition.
     */
    method Update(id: u32, newRow: seq<DbValue>) returns (r: Result<(), TableError>)
      requires Valid()
      requires Conforms(schema, newRow) ==> id in rows
      modifies this
      ensures Valid()
      ensures index == old(index)
      ensures Conforms(schema, newRow) ==> r == Ok(()) && rows == old(rows)[id := Row(id, newRow)]
      ensures !Conforms(schema, newRow) ==> r == Err(MismatchError(schema, newRow)) && rows == old(rows)
    {
      var v := Validate(newRow);
      if v.Err? {
        return Err(v.error);
      }
      var row := GetRowMut(id);
      rows := rows[id := row.(values := newRow)];
      r := Ok(());
    }

    /** Looks up the row stored under `id`. */
    function GetRow(id: u32): (r: Result<Row, TableError>)
      requires Valid()
      reads this
      ensures r.Ok? <==> id in rows
      ensures r.Err? ==> r.error == RowNotFound
      ensures r.Ok? ==> r.value.id == id && Conforms(schema, r.value.values) && r.value in rows.Values
    {
      if id in rows then Ok(rows[id]) else Err(RowNotFound)
    }

    /** The row `update` writes through; the source panics when `id` is absent. */
    function GetRowMut(id: u32): (r: Row)
      requires Valid()
      requires id in rows
      reads this
      ensures GetRow(id) == Ok(r)
    {
      rows[id]
    }

    /** All stored rows, each once, in an unspecified order. */
    method GetRows() returns (rs: seq<Row>)
      requires Valid()
      ensures |rs| == |rows|
      ensures forall k :: k in rows ==> rows[k] in rs
      ensures forall x :: x in rs ==> x.id in rows && rows[x.id] == x
      ensures forall i, j :: 0 <= i < j < |rs| ==> rs[i].id != rs[j].id
    {
      rs := [];
      var left := rows.Keys;
      while left != {}
        invariant left <= rows.Keys
        invariant |rs| + |left| == |rows|
        invariant forall j :: 0 <= j < |rs| ==> rs[j].id in rows && rs[j].id !in left && rows[rs[j].id] == rs[j]
        invariant forall k :: k in rows && k !in left ==> rows[k] in rs
        invariant forall i, j :: 0 <= i < j < |rs| ==> rs[i].id != rs[j].id
        decreases left
      {
        var k :| k in left;
        rs := rs + [rows[k]];
        left := left - {k};
      }
    }

    /**
     * The rows of `other` whose values equal those of some row of this table,
     * with `other`'s ids; an error unless both schemas are equal. Neither
     * table changes.
     */
    method Intersection(other: Table) returns (r: Result<seq<Row>, TableError>)
      requires Valid() && other.Valid()
      ensures r.Err? <==> schema != other.schema
      ensures r.Err? ==> r.error == SchemasDiffer
      ensures r.Ok? ==> forall x :: x in r.value ==>
        x.id in other.rows && other.rows[x.id] == x && OccursIn(x.values, rows)
      ensures r.Ok? ==> forall k :: k in other.rows && OccursIn(other.rows[k].values, rows) ==>
        other.rows[k] in r.value
      ensures r.Ok? ==> forall i, j :: 0 <= i < j < |r.value| ==> r.value[i].id != r.value[j].id
    {
      if schema != other.schema {
        return Err(SchemasDiffer);
      }
      var unique := ValueSet();
      var result := other.RowsMatching(unique);
      r := Ok(result);
    }

    /** The rows of this table whose values equal some member of `unique`, each once. */
    method RowsMatching(unique: set<seq<DbValue>>) returns (result: seq<Row>)
      requires Valid()
      ensures forall x :: x in result ==> x.id in rows && rows[x.id] == x && SetContains(unique, x.values)
      ensures forall k :: k in rows && SetContains(unique, rows[k].values) ==> rows[k] in result
      ensures forall i, j :: 0 <= i < j < |result| ==> result[i].id != result[j].id
    {
      result := [];
      var left := rows.Keys;
      while left != {}
        invariant left <= rows.Keys
        invariant forall j :: 0 <= j < |result| ==>
          result[j].id in rows && result[j].id !in left && rows[result[j].id] == result[j]
          && SetContains(unique, result[j].values)
        invariant forall k :: k in rows && k !in left && SetContains(unique, rows[k].values) ==> rows[k] in result
        invariant forall i, j :: 0 <= i < j < |result| ==> result[i].id != result[j].id
        decreases left
      {
        var k :| k in left;
        if SetContains(unique, rows[k].values) {
          result := result + [rows[k]];
        }
        left := left - {k};
      }
    }

    /**
     * The set of this table's value sequences (exact duplicates collapse),
     * queried under the store's value equality.
     */
    method ValueSet() returns (unique: set<seq<DbValue>>)
      ensures forall vs :: SetContains(unique, vs) <==> OccursIn(vs, rows)
    {
      unique := {};
      var left := rows.Keys;
      while left != {}
        invariant left <= rows.Keys
        invariant forall u :: u in unique ==> exists k :: k in rows && rows[k].values == u
        invariant forall k :: k in rows && k !in left ==> rows[k].values in unique
        decreases left
      {
        var k :| k in left;
        unique := unique + {rows[k].values};
        left := left - {k};
      }
      forall vs
        ensures SetContains(unique, vs) <==> OccursIn(vs, rows)
      {
        if SetContains(unique, vs) {
          var u :| u in unique && ValuesEq(u, vs);
          var k :| k in rows && rows[k].values == u;
          assert ValuesEq(rows[k].values, vs);
        }
        if OccursIn(vs, rows) {
          var k :| k in rows && ValuesEq(rows[k].values, vs);
          assert rows[k].values in unique;
        }
      }
    }
  }

  /**
   * Ids are never reused: insert, delete, insert allocates 0 and then 1, and
   * deleting the same id a second time fails.
   */
  method FreshIdsAfterDelete(schema: DbSchema, v: seq<DbValue>)
    returns (first: u32, second: u32, deleted: Result<(), TableError>, redelete: Result<(), TableError>)
    requires Conforms(schema, v)
    ensures first == 0 && second == 1
    ensures deleted == Ok(())
    ensures redelete == Err(RowNotFound)
  {
    var t := new Table("test_table", schema);
    var r := t.Insert(v);
    first := r.value;
    deleted := t.Delete(first);
    assert t.rows == map[];
    redelete := t.Delete(first);
    r := t.Insert(v);
    second := r.value;
  }

  /**
   * Two tables of the same schema sharing one value sequence intersect in
   * exactly that row.
   */
  method IntersectionOfTestTables()
    returns (count: nat, values: seq<DbValue>)
    ensures count == 1 && values == [Integer(42), String("test")]
  {
    var schema := DbSchema("", [DbColumn("col1", IntegerType), DbColumn("col2", StringType)]);
    var row1 := [Integer(42), String("test")];
    var row2 := [Integer(99), String("different")];
    var t1 := new Table("test_table", schema);
    var t2 := new Table("test_table", schema);
    var ignored := t1.Insert(row1);
    ignored := t1.Insert(row2);
    ignored := t2.Insert(row1);
    assert t2.rows == map[0 := Row(0, row1)];
    ValuesEqReflexiveSymmetric(row1, row1);
    assert OccursIn(t2.rows[0].values, t1.rows) by {
      assert t1.rows[0].values == row1;
    }
    var r := t1.Intersection(t2);
    assert t2.rows[0] in r.value;
    SingleId(r.value, 0);
    count := |r.value|;
    values := r.value[0].values;
  }

  /** Rows with pairwise distinct ids that all carry the same id number at most one. */
  lemma SingleId(rs: seq<Row>, id: u32)
    requires forall x :: x in rs ==> x.id == id
    requires forall i, j :: 0 <= i < j < |rs| ==> rs[i].id != rs[j].id
    ensures |rs| <= 1
  {
    if |rs| >= 2 {
      FirstTwoIn(rs);
      assert false;
    }
  }

  lemma FirstTwoIn(rs: seq<Row>)
    requires |rs| >= 2
    ensures rs[0] in rs && rs[1] in rs
  {
  }

  /** Schemas that differ only in a column's name and kind are refused by intersection. */
  method IntersectionOfDifferentSchemas() returns (r: Result<seq<Row>, TableError>)
    ensures r == Err(SchemasDiffer)
  {
    var t1 := new Table("test_table", DbSchema("", [DbColumn("id", IntegerType), DbColumn("name", StringType)]));
    var t2 := new Table("test_table", DbSchema("", [DbColumn("id", IntegerType), DbColumn("age", IntegerType)]));
    r := t1.Intersection(t2);
  }
}
