# Typed tabular store — a Dafny model

This project models the core of a small embeddable tabular store written in
Rust: typed cell values (`DbValue`) with kind-aware equality, column kinds and
their serialized tags, schemas, tables that keep an id-to-row map and a
monotonic id counter, the database that owns an ordered list of tables, and
the GraphQL layer's conversions between store values and schemas and their
GraphQL object forms.

Files and modules:

- `wrappers.dfy` (`Wrappers`): `Option` and `Result`, for Rust's `Option` and `anyhow::Result`.
- `schema.dfy` (`Schema`): `DbValue`, `DbColumnType`, `DbColumn`, `DbSchema`, value equality and the column tags.
- `table.dfy` (`Tables`): `Row`, the `Table` class and its operations, plus methods that replay the source's table tests.
- `database.dfy` (`Databases`): the `Database` class and the first-match search behind its lookups.
- `graphql.dfy` (`GraphQL`): `DbValueWrapper`, `ColumnInfo`, `SchemaInfo` and the conversions.

Modelling choices:

- A `Table` is a class. `rows` is a `map<u32, Row>` and `index` a `u32` counter; both change in place. `name` and `schema` are `const` because nothing in the core reassigns them. `Valid()` is the table invariant: every key is its row's id and lies below `index`, and every row conforms to the schema. The constructor establishes it and every mutating method keeps it.
- A `Database` is a class whose `tables` field is a sequence of `Table` references. `get_table` and `get_table_mut` hand out references into the vector, and Dafny references play that part. `Valid()` says the database owns its tables as the `Vec` does: every table is valid and no table object is held twice. `add_table` moves its argument in, so `AddTable` takes a valid table that is not already held. `FirstMatch` stands for `Iterator::position` with the name test.
- The `f32` and `f64` payloads are mathematical reals. The tolerances are written out: 1e-6 for `Real`, 1e-10 for `Money` and for each `MoneyRange` bound. Integers are `i32` and ids `u32` as subset types.
- Intersection collects this table's value sequences into a Dafny `set`, so exact duplicates collapse as in the `HashSet`. A row of the other table is kept when some member of that set equals its values under the store's value equality.
- `SchemaInfo` has no name. The source converts it to a `DbSchema` without setting the `name` field that `schema.rs` declares, so the model fills in the empty name. Round trips through GraphQL are exact on the columns and drop the schema name.
- `update` validates before it looks the id up (crates/core/src/types/table.rs:56-58). An absent id with invalid values reports the validation error. An absent id with valid values panics in `get_row_mut`'s `unwrap` (crates/core/src/types/table.rs:103-105). The model excludes that panic case by a precondition.
- `insert` adds 1 to a `u32` counter. The model requires the counter to be below `u32::MAX` whenever validation would pass, instead of modelling overflow.
- Decoding a `DbValueWrapper` with no field set panics in the source. The model makes that a precondition (`HasValue`).

## Model

| member | source | states |
|---|---|---|
| Schema.DbValue.ValueType | crates/core/src/types/schema.rs:55-65 | total; a value has a given kind iff it is the variant of the same name |
| Schema.ValueEq | crates/core/src/types/schema.rs:16-37 | the store's value equality; equal values have the same kind, and identical values are equal (the per-kind tolerances are the lemmas below) |
| Schema.ValuesEq | crates/core/src/types/table.rs:77 | the `Vec<DbValue>` equality: equal sequences have the same length and the same kind at each position, and identical sequences are equal |
| Schema.EqualValuesShareType | crates/core/src/types/schema.rs:16-37 | values equal under the store's equality have the same kind; values of different kinds are never equal |
| Schema.DiscreteEqIsExact | crates/core/src/types/schema.rs:18-25 | an `Integer`, `Char` or `String` value equals another exactly when the two are identical |
| Schema.RealTolerance | crates/core/src/types/schema.rs:20-23 | `Real` values are equal iff their payloads differ by less than 1e-6 |
| Schema.MoneyTolerance | crates/core/src/types/schema.rs:26-29 | `Money` values are equal iff their payloads differ by less than 1e-10 |
| Schema.MoneyRangeTolerance | crates/core/src/types/schema.rs:30-33 | `MoneyRange` values are equal iff both bounds differ by less than 1e-10 |
| Schema.ValueEqReflexiveSymmetric | crates/core/src/types/schema.rs:16-37 | value equality is reflexive and symmetric |
| Schema.ToleranceNotTransitive | crates/core/src/types/schema.rs:14-33 | value equality is not transitive on `Money`, although the type implements `Eq` |
| Schema.ValuesEqReflexiveSymmetric | crates/core/src/types/schema.rs:16-37 | position-wise equality of value sequences is reflexive and symmetric |
| Schema.TagName | crates/core/src/types/schema.rs:68-82 | each kind's serialized tag, a non-empty lower-case snake_case word |
| Schema.ParseTag | crates/core/src/types/schema.rs:68-82 | inverse of `TagName`: a parsed kind has the string as its tag, and a string parses to none iff it is no kind's tag |
| Schema.TagRoundTrip | crates/core/src/types/schema.rs:68-82 | parsing a kind's tag gives back that kind, and a string parses to a kind iff it is that kind's tag |
| Schema.TagsDistinct | crates/core/src/types/schema.rs:68-82 | two kinds have the same tag iff they are the same kind |
| Schema.SchemaEqIff | crates/core/src/types/schema.rs:84-94 | schemas are equal iff their names are equal and their columns agree in number, order, name and kind |
| Tables.Table.constructor | crates/core/src/types/table.rs:23-30 | a new table has the given name and schema, no rows, counter 0, and satisfies the invariant |
| Tables.Table.Validate | crates/core/src/types/table.rs:85-97 | succeeds iff the values conform to the schema; a wrong length is reported as a length error, otherwise a kind mismatch as a type error |
| Tables.Table.Insert | crates/core/src/types/table.rs:36-48 | on conforming values returns the old counter as id, stores `Row(id, values)` under a previously unused key, adds exactly one row and bumps the counter by 1; otherwise reports the validation error and changes nothing; keeps the invariant |
| Tables.Table.Delete | crates/core/src/types/table.rs:50-53 | removes exactly the given key; succeeds iff it was present; never changes the counter; keeps the invariant |
| Tables.Table.Update | crates/core/src/types/table.rs:55-61 | on conforming values replaces the row under `id` by `Row(id, values)` and touches nothing else; otherwise reports the validation error and changes nothing; the counter never changes; keeps the invariant |
| Tables.Table.GetRow | crates/core/src/types/table.rs:99-101 | succeeds iff the id is stored, returning a conforming stored row with that id; otherwise a not-found error |
| Tables.Table.GetRowMut | crates/core/src/types/table.rs:103-105 | for a stored id, the row `get_row` returns |
| Tables.Table.GetRows | crates/core/src/types/table.rs:107-109 | returns every stored row, only stored rows, each once, as many as the map holds |
| Tables.Table.ValueSet | crates/core/src/types/table.rs:70-74 | the collected value set answers "equals some row's values" exactly as the table's rows do |
| Tables.Table.RowsMatching | crates/core/src/types/table.rs:76-80 | returns exactly the stored rows whose values equal a member of the set, each once |
| Tables.Table.Intersection | crates/core/src/types/table.rs:63-83 | fails iff the schemas differ (names included); otherwise returns exactly the rows of `other`, with `other`'s ids, whose values equal some row's values in this table, each once; neither table changes |
| Tables.FreshIdsAfterDelete | crates/core/src/types/table.rs:196-208 | insert, delete, insert allocates ids 0 and then 1; the first delete of that id succeeds and the second fails with `RowNotFound` |
| Tables.IntersectionOfTestTables | crates/core/src/types/table.rs:224-243 | tables sharing one value sequence intersect in exactly one row carrying those values |
| Tables.IntersectionOfDifferentSchemas | crates/core/src/types/table.rs:245-277 | schemas differing in one column's name and kind make intersection fail |
| Databases.FirstMatch | crates/core/src/types/database.rs:30-32 | the index of the first table with the name, or none iff no table has it |
| Databases.FirstMatchSkipsPrefix | crates/core/src/types/database.rs:22-32 | a prefix without the name only shifts the first match of what follows |
| Databases.FirstMatchAfterAppend | crates/core/src/types/database.rs:18-24 | appending keeps an existing first match; only a list without one finds the new table |
| Databases.FirstMatchAfterRemoval | crates/core/src/types/database.rs:22-33 | after removing the first match, the first match is the next table with that name, if any |
| Databases.Database.constructor | crates/core/src/types/database.rs:11-16 | a new database has the given name and no tables, and owns them validly |
| Databases.Database.AddTable | crates/core/src/types/database.rs:18-20 | appends the moved-in table at the end; earlier tables stay in order; duplicate names are accepted; keeps the ownership invariant |
| Databases.Database.GetTable | crates/core/src/types/database.rs:22-24 | returns a table iff one has the name, and then the first such table |
| Databases.Database.GetTableMut | crates/core/src/types/database.rs:26-28 | picks the same table as `get_table` |
| Databases.Database.DeleteTable | crates/core/src/types/database.rs:30-33 | removes and returns exactly the first match, keeping the others in order; with no match returns none and changes nothing; the removed table is valid and no longer held; keeps the ownership invariant |
| Databases.InsertThroughLookup | crates/api/src/lib.rs:102-105 | inserting through the table `get_table_mut` finds changes exactly that table in place, as `Insert` promises (on success the row is added and the id counter advances by one, on a schema mismatch its rows and counter are unchanged), leaves every other table alone, and keeps the ownership invariant; none iff no table has the name |
| Databases.DeleteRevealsSecond | crates/core/src/types/database.rs:18-33 | with two tables of one name, the first is found and deleted, and then the second is found |
| GraphQL.ToSchemaInfo | crates/graphql/src/lib.rs:25-34 | keeps the column count, the order, and each column's name and kind |
| GraphQL.FromSchemaInfo | crates/graphql/src/lib.rs:36-45 | keeps the column count, the order, and each column's name and kind; the schema name is the empty name |
| GraphQL.ColumnsToInfo | crates/graphql/src/lib.rs:25-34 | keeps the column count, the order, and each column's name and kind |
| GraphQL.InfoToColumns | crates/graphql/src/lib.rs:36-45 | keeps the column count, the order, and each column's name and kind |
| GraphQL.SchemaInfoRoundTrip | crates/graphql/src/lib.rs:25-45 | a GraphQL schema converted to a store schema and back is unchanged |
| GraphQL.SchemaRoundTrip | crates/graphql/src/lib.rs:25-45 | a store schema converted to GraphQL and back keeps its columns and loses only its name |
| GraphQL.Wrap | crates/graphql/src/lib.rs:63-116 | sets exactly one field, the one of the value's kind, to the value |
| GraphQL.Unwrap | crates/graphql/src/lib.rs:118-136 | returns the value of the first set field in the order integer, real, char, string, money, money range |
| GraphQL.WrapRoundTrip | crates/graphql/src/lib.rs:63-136 | wrapping sets exactly one field, and unwrapping the wrapper gives back the same value |
| GraphQL.UnwrapRoundTrip | crates/graphql/src/lib.rs:63-136 | a wrapper with exactly one field set is the wrapping of what it unwraps to |

## Left out

- Snapshot persistence (`crates/core/src/io.rs`): it is file I/O over a JSON library that is not part of this model. Only the column-kind tags are modelled.
- The `Hash` implementation for `DbValue` (crates/core/src/types/schema.rs:39-53) and the hash-map and hash-set internals. Float payloads are not modelled bit by bit.
- Tables.Table.ValueSet, Tables.Table.RowsMatching, Tables.Table.Intersection: their contracts decide set membership by value equality alone, an idealisation of the source's lookup. The source hashes floats by their exact bits but compares them with a tolerance, so its `HashSet::contains` almost surely misses values that are equal only within the tolerance. For example, the model matches a row holding `Money(1000.0)` with one holding `Money(1000.000000000001)`, and the source's intersection almost surely does not.
- IEEE semantics: rounding, NaN, infinities, signed zero, and the width difference between `f32` and `f64`, because the payloads are reals.
- Tables.Table.Insert: does not model the `u32` overflow of `index`; a successful insert requires `index < u32::MAX`.
- Tables.Table.Update: an absent id with conforming values panics in the source and is excluded by a precondition.
- GraphQL.Unwrap: a wrapper with no field set panics in the source and is excluded by a precondition.
- The order of `get_rows` and `intersection` results is unspecified in the source (hash-map iteration). The model picks keys in an arbitrary order, and the contracts say nothing about order.
- `Table::name` is a plain accessor of the `name` field and is not a separate member.
- The GraphQL resolvers and schema setup (crates/graphql/src/lib.rs:144-265), the REST routes, the autosave loop and the desktop GUI: network I/O, locking and event handling.
