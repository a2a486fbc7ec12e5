/**
 * The GraphQL layer's conversions between store values and schemas and their
 * GraphQL object forms (crates/graphql/src/lib.rs).
 */
module GraphQL {
  import opened Wrappers
  import opened Schema

  /** A column as GraphQL sees it (`ColumnInfo`). */
  datatype ColumnInfo = ColumnInfo(name: string, columnType: DbColumnType)

  /** A schema as GraphQL sees it (`SchemaInfo`): only the columns, no name. */
  datatype SchemaInfo = SchemaInfo(columns: seq<ColumnInfo>)

  /** Column-by-column conversion to GraphQL columns (the `map`/`collect` of `From<DbSchema>`). */
  function ColumnsToInfo(cols: seq<DbColumn>): (r: seq<ColumnInfo>)
    ensures |r| == |cols|
    ensures forall k :: 0 <= k < |cols| ==> r[k].name == cols[k].name && r[k].columnType == cols[k].columnType
  {
    if cols == [] then [] else [ColumnInfo(cols[0].name, cols[0].columnType)] + ColumnsToInfo(cols[1..])
  }

  /** Column-by-column conversion back to store columns (the `map`/`collect` of `From<SchemaInfo>`). */
  function InfoToColumns(infos: seq<ColumnInfo>): (r: seq<DbColumn>)
    ensures |r| == |infos|
    ensures forall k :: 0 <= k < |infos| ==> r[k].name == infos[k].name && r[k].columnType == infos[k].columnType
  {
    if infos == [] then [] else [DbColumn(infos[0].name, infos[0].columnType)] + InfoToColumns(infos[1..])
  }

  /** `From<DbSchema> for SchemaInfo`: the columns, in order; the schema name is dropped. */
  function ToSchemaInfo(s: DbSchema): (i: SchemaInfo)
    ensures |i.columns| == |s.columns|
    ensures forall k :: 0 <= k < |s.columns| ==>
      i.columns[k].name == s.columns[k].name && i.columns[k].columnType == s.columns[k].columnType
  {
    SchemaInfo(ColumnsToInfo(s.columns))
  }

  /**
   * `From<SchemaInfo> for DbSchema`: the columns, in order. The source sets
   * no schema name; the model fills in the empty name.
   */
  function FromSchemaInfo(i: SchemaInfo): (s: DbSchema)
    ensures s.name == ""
    ensures |s.columns| == |i.columns|
    ensures forall k :: 0 <= k < |i.columns| ==>
      s.columns[k].name == i.columns[k].name && s.columns[k].columnType == i.columns[k].columnType
  {
    DbSchema("", InfoToColumns(i.columns))
  }

  /** A GraphQL schema converted to a store schema and back is unchanged. */
  lemma {:induction false} SchemaInfoRoundTrip(i: SchemaInfo)
    ensures ToSchemaInfo(FromSchemaInfo(i)) == i
  {
    var back := ToSchemaInfo(FromSchemaInfo(i)).columns;
    assert |back| == |i.columns|;
    forall k | 0 <= k < |back|
      ensures back[k] == i.columns[k]
    {
    }
  }

  /** A store schema converted to GraphQL and back keeps its columns in order and loses only its name. */
  lemma {:induction false} SchemaRoundTrip(s: DbSchema)
    ensures FromSchemaInfo(ToSchemaInfo(s)) == s.(name := "")
  {
    var back := FromSchemaInfo(ToSchemaInfo(s)).columns;
    assert |back| == |s.columns|;
    forall k | 0 <= k < |back|
      ensures back[k] == s.columns[k]
    {
    }
  }

  /** A value as GraphQL carries it (`DbValueWrapper`): one optional field per kind. */
  datatype DbValueWrapper = DbValueWrapper(
    integerValue: Option<i32>,
    realValue: Option<real>,
    charValue: Option<char>,
    stringValue: Option<string>,
    moneyValue: Option<real>,
    moneyRangeValue: Option<(real, real)>)

  /** The wrapper's fields in declaration order, each read as the value it carries. */
  function Fields(w: DbValueWrapper): seq<Option<DbValue>> {
    [ if w.integerValue.Some? then Some(Integer(w.integerValue.value)) else None,
      if w.realValue.Some? then Some(Real(w.realValue.value)) else None,
      if w.charValue.Some? then Some(Char(w.charValue.value)) else None,
      if w.stringValue.Some? then Some(String(w.stringValue.value)) else None,
      if w.moneyValue.Some? then Some(Money(w.moneyValue.value)) else None,
      if w.moneyRangeValue.Some? then Some(MoneyRange(w.moneyRangeValue.value.0, w.moneyRangeValue.value.1)) else None ]
  }

  /** The position of a kind's field in the wrapper. */
  function FieldIndex(t: DbColumnType): nat {
    match t
    case IntegerType => 0
    case RealType => 1
    case CharType => 2
    case StringType => 3
    case MoneyType => 4
    case MoneyRangeType => 5
  }

  /** At least one field of the wrapper is set. */
  predicate HasValue(w: DbValueWrapper) {
    exists k :: 0 <= k < |Fields(w)| && Fields(w)[k].Some?
  }

  /** Exactly one field of the wrapper is set. */
  predicate HasOneValue(w: DbValueWrapper) {
    HasValue(w) && forall j, k :: 0 <= j < k < |Fields(w)| && Fields(w)[j].Some? ==> Fields(w)[k].None?
  }

  /** `From<DbValue> for DbValueWrapper`: sets exactly the field of the value's kind, to the value. */
  function Wrap(v: DbValue): (w: DbValueWrapper)
    ensures forall k :: 0 <= k < |Fields(w)| ==> (Fields(w)[k].Some? <==> k == FieldIndex(v.ValueType()))
    ensures Fields(w)[FieldIndex(v.ValueType())] == Some(v)
  {
    match v
    case Integer(i) => DbValueWrapper(Some(i), None, None, None, None, None)
    case Real(r) => DbValueWrapper(None, Some(r), None, None, None, None)
    case Char(c) => DbValueWrapper(None, None, Some(c), None, None, None)
    case String(s) => DbValueWrapper(None, None, None, Some(s), None, None)
    case Money(m) => DbValueWrapper(None, None, None, None, Some(m), None)
    case MoneyRange(min, max) => DbValueWrapper(None, None, None, None, None, Some((min, max)))
  }

  /**
   * `From<DbValueWrapper> for DbValue`: the first set field, in declaration
   * order. The source panics when no field is set.
   */
  function Unwrap(w: DbValueWrapper): (v: DbValue)
    requires HasValue(w)
    ensures exists k :: 0 <= k < |Fields(w)| && Fields(w)[k] == Some(v) && forall j :: 0 <= j < k ==> Fields(w)[j].None?
  {
    var f := Fields(w);
    if w.integerValue.Some? then
      assert f[0] == Some(Integer(w.integerValue.value));
      Integer(w.integerValue.value)
    else if w.realValue.Some? then
      assert f[1] == Some(Real(w.realValue.value)) && f[0].None?;
      Real(w.realValue.value)
    else if w.charValue.Some? then
      assert f[2] == Some(Char(w.charValue.value)) && f[0].None? && f[1].None?;
      Char(w.charValue.value)
    else if w.stringValue.Some? then
      assert f[3] == Some(String(w.stringValue.value)) && f[0].None? && f[1].None? && f[2].None?;
      String(w.stringValue.value)
    else if w.moneyValue.Some? then
      assert f[4] == Some(Money(w.moneyValue.value)) && forall j :: 0 <= j < 4 ==> f[j].None?;
      Money(w.moneyValue.value)
    else
      assert forall j :: 0 <= j < 5 ==> f[j].None?;
      assert f[5] == Some(MoneyRange(w.moneyRangeValue.value.0, w.moneyRangeValue.value.1));
      MoneyRange(w.moneyRangeValue.value.0, w.moneyRangeValue.value.1)
  }

  /** Wrapping and then unwrapping gives back the very same value. */
  lemma WrapRoundTrip(v: DbValue)
    ensures HasOneValue(Wrap(v))
    ensures Unwrap(Wrap(v)) == v
  {
    var w := Wrap(v);
    assert Fields(w)[FieldIndex(v.ValueType())].Some?;
  }

  /** A wrapper with exactly one field set is the wrapping of what it unwraps to. */
  lemma UnwrapRoundTrip(w: DbValueWrapper)
    requires HasOneValue(w)
    ensures Wrap(Unwrap(w)) == w
  {
    var f := Fields(w);
    var k :| 0 <= k < |f| && f[k].Some?;
    assert forall j :: 0 <= j < |f| && j != k ==> f[j].None?;
    assert w.integerValue.None? <==> f[0].None?;
    assert w.realValue.None? <==> f[1].None?;
    assert w.charValue.None? <==> f[2].None?;
    assert w.stringValue.None? <==> f[3].None?;
    assert w.moneyValue.None? <==> f[4].None?;
    assert w.moneyRangeValue.None? <==> f[5].None?;
  }
}
