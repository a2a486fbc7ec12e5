/**
 * Typed values, column types, columns and schemas of the tabular store
 * (crates/core/src/types/schema.rs).
 */
module Schema {
  import opened Wrappers

  /** Rust's `i32`. */
  type i32 = x: int | -0x8000_0000 <= x < 0x8000_0000

  /** The kind a column declares (`DbColumnType`). */
  datatype DbColumnType = IntegerType | RealType | CharType | StringType | MoneyType | MoneyRangeType

  /**
   * A cell value (`DbValue`). The `f32` payload of `Real` and the `f64`
   * payloads of `Money` and `MoneyRange` are abstracted to mathematical reals.
   */
  datatype DbValue =
    | Integer(i: i32)
    | Real(r: real)
    | Char(c: char)
    | String(s: string)
    | Money(m: real)
    | MoneyRange(min: real, max: real)
  {
    /** The column kind this value belongs to (`value_type`). */
    function ValueType(): (t: DbColumnType)
      ensures t == IntegerType <==> Integer?
      ensures t == RealType <==> Real?
      ensures t == CharType <==> Char?
      ensures t == StringType <==> String?
      ensures t == MoneyType <==> Money?
      ensures t == MoneyRangeType <==> MoneyRange?
    {
      match this
      case Integer(_) => IntegerType
      case Real(_) => RealType
      case Char(_) => CharType
      case String(_) => StringType
      case Money(_) => MoneyType
      case MoneyRange(_, _) => MoneyRangeType
    }
  }

  /** Tolerance used to compare `Real` payloads. */
  const RealEpsilon: real := 0.000001
  /** Tolerance used to compare `Money` payloads and each `MoneyRange` bound. */
  const MoneyEpsilon: real := 0.0000000001

  function Abs(x: real): real {
    if x < 0.0 then -x else x
  }

  /** The store's value equality (`PartialEq for DbValue`): exact for discrete kinds, within a tolerance for float kinds. */
  predicate ValueEq(a: DbValue, b: DbValue)
    ensures ValueEq(a, b) ==> a.ValueType() == b.ValueType()
    ensures a == b ==> ValueEq(a, b)
  {
    match (a, b)
    case (Integer(x), Integer(y)) => x == y
    case (Real(x), Real(y)) => Abs(x - y) < RealEpsilon
    case (Char(x), Char(y)) => x == y
    case (String(x), String(y)) => x == y
    case (Money(x), Money(y)) => Abs(x - y) < MoneyEpsilon
    case (MoneyRange(x1, x2), MoneyRange(y1, y2)) => Abs(x1 - y1) < MoneyEpsilon && Abs(x2 - y2) < MoneyEpsilon
    case _ => false
  }

  /** Equality of two value sequences as `Vec<DbValue>` compares them: same length, equal position by position. */
  predicate ValuesEq(a: seq<DbValue>, b: seq<DbValue>)
    ensures ValuesEq(a, b) ==> |a| == |b| && forall i :: 0 <= i < |a| ==> a[i].ValueType() == b[i].ValueType()
    ensures a == b ==> ValuesEq(a, b)
  {
    |a| == |b| && forall i :: 0 <= i < |a| ==> ValueEq(a[i], b[i])
  }

  /** Values equal under the store's equality always have the same kind; values of different kinds are never equal. */
  lemma EqualValuesShareType(a: DbValue, b: DbValue)
    ensures ValueEq(a, b) ==> a.ValueType() == b.ValueType()
    ensures a.ValueType() != b.ValueType() ==> !ValueEq(a, b)
  {
  }

  /** For the discrete kinds, equality is exactly equality of payloads. */
  lemma DiscreteEqIsExact(a: DbValue, b: DbValue)
    requires a.Integer? || a.Char? || a.String?
    ensures ValueEq(a, b) <==> a == b
  {
  }

  /** `Real` values are equal exactly when their payloads differ by less than 1e-6 in either direction. */
  lemma RealTolerance(x: real, y: real)
    ensures ValueEq(Real(x), Real(y)) <==> x - RealEpsilon < y < x + RealEpsilon
  {
  }

  /** `Money` values are equal exactly when their payloads differ by less than 1e-10 in either direction. */
  lemma MoneyTolerance(x: real, y: real)
    ensures ValueEq(Money(x), Money(y)) <==> x - MoneyEpsilon < y < x + MoneyEpsilon
  {
  }

  /** `MoneyRange` values are equal exactly when both bounds are within 1e-10 of each other. */
  lemma MoneyRangeTolerance(x1: real, x2: real, y1: real, y2: real)
    ensures ValueEq(MoneyRange(x1, x2), MoneyRange(y1, y2))
        <==> x1 - MoneyEpsilon < y1 < x1 + MoneyEpsilon && x2 - MoneyEpsilon < y2 < x2 + MoneyEpsilon
  {
  }

  /** Value equality is reflexive and symmetric. */
  lemma ValueEqReflexiveSymmetric(a: DbValue, b: DbValue)
    ensures ValueEq(a, a)
    ensures ValueEq(a, b) <==> ValueEq(b, a)
  {
  }

  /**
   * Value equality is not transitive on the float kinds: two steps of just
   * under the tolerance add up to more than it.
   */
  lemma ToleranceNotTransitive()
    ensures ValueEq(Money(0.0), Money(0.00000000006))
    ensures ValueEq(Money(0.00000000006), Money(0.00000000012))
    ensures !ValueEq(Money(0.0), Money(0.00000000012))
  {
  }

  /** Equality of value sequences is reflexive and symmetric. */
  lemma ValuesEqReflexiveSymmetric(a: seq<DbValue>, b: seq<DbValue>)
    ensures ValuesEq(a, a)
    ensures ValuesEq(a, b) <==> ValuesEq(b, a)
  {
    forall i | 0 <= i < |a| {
      ValueEqReflexiveSymmetric(a[i], a[i]);
    }
    if |a| == |b| {
      forall i | 0 <= i < |a| {
        ValueEqReflexiveSymmetric(a[i], b[i]);
      }
    }
  }

  /** The serialized tag of a column kind (`#[serde(rename = …)]`). */
  function TagName(t: DbColumnType): (s: string)
    ensures |s| > 0
    ensures forall k :: 0 <= k < |s| ==> 'a' <= s[k] <= 'z' || s[k] == '_'
  {
    match t
    case IntegerType => "integer"
    case RealType => "real"
    case CharType => "char"
    case StringType => "string"
    case MoneyType => "money"
    case MoneyRangeType => "money_range"
  }

  /** Reads a column kind back from its serialized tag; an unknown tag is an error. */
  function ParseTag(s: string): (r: Option<DbColumnType>)
    ensures r.Some? ==> TagName(r.value) == s
    ensures r.None? ==> forall t :: TagName(t) != s
  {
    if s == "integer" then Some(IntegerType)
    else if s == "real" then Some(RealType)
    else if s == "char" then Some(CharType)
    else if s == "string" then Some(StringType)
    else if s == "money" then Some(MoneyType)
    else if s == "money_range" then Some(MoneyRangeType)
    else None
  }

  /** Decoding a tag inverts encoding, in both directions, so the six tags are pairwise distinct. */
  lemma TagRoundTrip(t: DbColumnType, s: string)
    ensures ParseTag(TagName(t)) == Some(t)
    ensures ParseTag(s) == Some(t) <==> s == TagName(t)
  {
  }

  /** The tags are pairwise distinct. */
  lemma TagsDistinct(t: DbColumnType, u: DbColumnType)
    ensures TagName(t) == TagName(u) <==> t == u
  {
    TagRoundTrip(t, TagName(u));
  }

  /** A named, typed column (`DbColumn`). */
  datatype DbColumn = DbColumn(name: string, columnType: DbColumnType)

  /** A named, ordered list of columns (`DbSchema`); its equality is structural. */
  datatype DbSchema = DbSchema(name: string, columns: seq<DbColumn>)

  /** Schema equality compares the names and the ordered columns name by name and kind by kind. */
  lemma SchemaEqIff(s1: DbSchema, s2: DbSchema)
    ensures s1 == s2 <==>
      && s1.name == s2.name
      && |s1.columns| == |s2.columns|
      && forall i :: 0 <= i < |s1.columns| ==>
           s1.columns[i].name == s2.columns[i].name && s1.columns[i].columnType == s2.columns[i].columnType
  {
    if s1.name == s2.name && |s1.columns| == |s2.columns|
      && forall i :: 0 <= i < |s1.columns| ==>
           s1.columns[i].name == s2.columns[i].name && s1.columns[i].columnType == s2.columns[i].columnType
    {
      assert s1.columns == s2.columns;
    }
  }
}
