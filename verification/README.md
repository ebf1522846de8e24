# Bytebase schema core, modelled in Dafny

This project models three parts of Bytebase's SQL review and schema tooling and proves
properties about them.

- **The MySQL catalog walk-through** (`plugin/advisor/catalog`). It replays DDL statements
  against an in-memory catalog of tables, columns and indexes. It keeps column positions,
  nullability, defaults and auto-generated index names. With integrity checking on, it reports
  a missing or duplicate table, column or index as a `WalkThroughError`.
  - Model files: `catalog.dfy`, `index_naming.dfy`, `walk_through.dfy`.
  - Proofs: `walk_through_invariants.dfy` (the catalog stays well formed),
    `walk_through_properties.dfy` and `walk_through_alter.dfy` (what each statement and each
    ALTER clause does), and `walk_through_examples.dfy` and `walk_through_alter_example.dfy`
    (the scenarios of the test file, each evaluated statement by statement down to the
    expected catalog).
- **The MySQL schema differ** (`plugin/parser/differ/mysql`). Given an old and a new schema,
  it produces the `ALTER`/`CREATE`/`DROP` script that turns one into the other.
  - Model files: `differ_ast.dfy` (key-part and index-option equality), `differ.dfy` (the
    three runs of statements and their text).
  - Proofs: `differ_replay.dfy` and `differ_round_trip.dfy` (replaying the script on the old
    schema gives the new one), `differ_order.dfy` (the order of the statements; no script
    exactly when nothing changed), and `differ_examples.dfy` (the same-name index case of the
    tests, down to the text).
- **The PostgreSQL unique-key naming rule** (`plugin/advisor/pg`). It finds every unique key a
  statement names or renames, fills the naming template with the key's columns and table,
  and reports:
  - an internal error;
  - a name that does not match the pattern;
  - a name longer than the limit;
  - or, when no key draws advice, the single OK advice.

  Model file: `pg_unique_key_naming.dfy`. Proofs: `pg_unique_key_naming_properties.dfy`.

`wrappers.dfy` (`Option`, `Result`) and `text.dfy` (decimal rendering, join and split) are
shared helpers.

`plugin/advisor/catalog/walk_through.go` and `plugin/parser/differ/mysql/differ.go` are not part
of this model. The model of these two components follows the behaviour their tests pin down:
- the position of every column;
- the `b_2`, `b_3` names given to unnamed indexes;
- an explicit `NULL` keeping an `AUTO_INCREMENT` column nullable;
- dropped children re-emitted in reverse order;
- the exact statement text.

That an `AUTO_INCREMENT` column without an explicit `NULL` becomes NOT NULL is the model's own
rule; no test shows that case.

The unique-key rule follows its source line by line.

## Model

| member | source | states |
|---|---|---|
| `WalkThrough.InsertPosition` | plugin/advisor/catalog/walk_through_test.go:244-245 | Placing a new column keeps the number of columns. It appends at the end when no position is given, and also when the AFTER column is missing and integrity checking is off. It puts the column first on FIRST. It fails exactly when the AFTER column is missing and integrity checking is on. |
| `WalkThrough.AddIndexToTable` | plugin/advisor/catalog/walk_through_test.go:85-133 | Adding an index fails exactly on an empty key list, or on an explicit name that is PRIMARY or already taken. Otherwise it appends exactly one index and leaves everything else unchanged. An unnamed index gets the first free name derived from its first key column. |
| `WalkThrough.AddPrimaryKeyToTable` | plugin/advisor/catalog/walk_through_test.go:141-190 | A primary key fails exactly when its key list is empty or a PRIMARY index already exists, and the second case is a PrimaryKeyExists error. Otherwise the table keeps its other fields and its earlier indexes, in order, and gains one index. That index is named PRIMARY, is primary, unique and visible, has exactly the given keys and the requested index type (BTREE unless the clause says USING). The set of index names grows by PRIMARY alone. |
| `WalkThrough.ResolveKeys` | plugin/advisor/catalog/walk_through_test.go:85-133 | Key columns resolve to their names, in order. Resolution fails exactly when integrity checking is on and some key column does not exist. |
| `WalkThrough.ResolveKey` | plugin/advisor/catalog/walk_through_test.go:85-133 | A key column resolves to its own name, and an expression to its text. It fails exactly when integrity checking is on and the key column does not exist. |
| `IndexNaming.AutoName` | plugin/advisor/catalog/walk_through_test.go:108-133 | An auto-generated index name is never taken and never PRIMARY. It is the first column's name when that is free. Otherwise it is `<column>_<n>` with the least n >= 2 that is free. |
| `IndexNaming.AutoNameIsFirstFree` | plugin/advisor/catalog/walk_through_test.go:108-133 | If the candidates 1..k-1 are all taken and candidate k is free, the auto-generated name is candidate k. |
| `Catalog.NewDatabaseState` | plugin/advisor/catalog/walk_through_test.go:528-530 | The state built from a database keeps its name and works on its default (unnamed) schema. That is a fresh empty schema when the database has none. |
| `WalkThroughInvariants.ApplyStmtKeepsWellFormed` | plugin/advisor/catalog/walk_through_test.go:227-355 | Every statement, whether it succeeds or stops with an error, leaves a well-formed catalog. Well formed means: distinct table names; column positions exactly 1..N; distinct column and index names; an index is primary exactly when it is named PRIMARY, and a primary index is unique; no empty key list. |
| `WalkThroughInvariants.WalkKeepsWellFormed` | plugin/advisor/catalog/walk_through_test.go:528-538 | Walking any sequence of statements from a well-formed catalog leaves a well-formed catalog. |
| `WalkThroughProperties.CreateTablePositions` | plugin/advisor/catalog/walk_through_test.go:31-83 | A successful CREATE TABLE appends one table, named as declared. Its columns are in declaration order with positions 1, 2, ... . |
| `WalkThroughProperties.NullableRules` | plugin/advisor/catalog/walk_through_test.go:31-83 | A column is nullable unless PRIMARY KEY, NOT NULL or AUTO_INCREMENT says otherwise. An inline PRIMARY KEY always makes it NOT NULL, whatever else is declared. Otherwise the last of NOT NULL and NULL decides: NOT NULL with no NULL after it gives NOT NULL, and NULL with no NOT NULL after it gives nullable. An explicit NULL keeps an AUTO_INCREMENT column nullable. |
| `WalkThroughProperties.AtMostOnePrimary` | plugin/advisor/catalog/walk_through_test.go:141-190 | A well-formed table has at most one primary index. That index is named PRIMARY and is unique. |
| `WalkThroughProperties.AddPrimaryKeyProperties` | plugin/advisor/catalog/walk_through_test.go:141-190 | A PRIMARY KEY clause adds the only primary index, over exactly the clause's columns. It is appended after the earlier indexes, which stay as they were. It makes exactly the key columns NOT NULL. The table's name, options and column order stay the same. |
| `WalkThroughProperties.CreateIndexIsAlterAdd` | plugin/advisor/catalog/walk_through_test.go:357-470 | CREATE INDEX has the same effect as ALTER TABLE ... ADD INDEX with the same name, kind, keys and options. |
| `WalkThroughProperties.DropIndexIsAlterDrop` | plugin/advisor/catalog/walk_through_test.go:472-524 | DROP INDEX ... ON t has the same effect as ALTER TABLE t DROP INDEX. |
| `WalkThroughProperties.CreateIndexMatchesInlineClauses` | plugin/advisor/catalog/walk_through_test.go:357-470 | Creating a table and then issuing one CREATE INDEX per inline index clause reaches the same catalog as declaring the clauses inline. |
| `WalkThroughProperties.DropTablesWithoutIntegrity` | plugin/advisor/catalog/walk_through_test.go:541-561 | With integrity checking off, DROP TABLE never fails. It removes exactly the named tables that exist. |
| `WalkThroughProperties.DropExistingTables` | plugin/advisor/catalog/walk_through_test.go:192-212 | Dropping distinct existing tables never fails. It removes exactly those tables, and the table count drops by their number. |
| `WalkThroughProperties.PartialDrop` | plugin/advisor/catalog/walk_through_test.go:214-225 | DROP TABLE is not atomic. With integrity checking on, dropping an existing table and then a missing one fails with TableNotExists for the missing one, and the first table stays dropped. |
| `WalkThroughProperties.WalkAppend` | plugin/advisor/catalog/walk_through_test.go:528-538 | A walk stops at the first failing statement. Walking two lists in a row is walking the first and, only when it raised no error, the second from where the first ended. A failed walk keeps the state the failing statement left, its partial effect included. |
| `WalkThroughProperties.DropMissingTableFails` | plugin/advisor/catalog/walk_through_test.go:214-225 | With integrity checking on, DROP TABLE whose first table is missing stops there with "Table `<name>` does not exist". The schema is left unchanged. |
| `AlterProperties.AddColumnPlacement` | plugin/advisor/catalog/walk_through_test.go:245 | ADD COLUMN puts the new column at the end, first, or right after the named column. Columns at or after that position move up by one, and the relative order of the old columns is kept. |
| `AlterProperties.DropColumnColumns` | plugin/advisor/catalog/walk_through_test.go:247 | DROP COLUMN removes exactly that column. Later columns move down by one, keeping their relative order. |
| `AlterProperties.DropColumnKeys` | plugin/advisor/catalog/walk_through_test.go:247 | DROP COLUMN removes the column from every index. The indexes left are exactly the old indexes, minus that column, that still have a key: an index whose only key was the column is dropped and no index is invented. Nothing about the table but its columns and indexes changes. |
| `AlterProperties.DropColumnKeepsIndexOrder` | plugin/advisor/catalog/walk_through_test.go:247 | The indexes left by DROP COLUMN keep their old relative order: the j-th one is the j-th surviving old index minus the column, and an old index survives exactly when it keeps a key. |
| `AlterProperties.ShiftRoundTrip` | plugin/advisor/catalog/walk_through_test.go:247 | Closing the gap at a position and reopening it gives back the original columns. |
| `AlterProperties.ChangeColumnKeepsPlace` | plugin/advisor/catalog/walk_through_test.go:251 | CHANGE COLUMN without FIRST or AFTER keeps the column at its old position, with the new definition. |
| `AlterProperties.ChangeColumnFirst` | plugin/advisor/catalog/walk_through_test.go:250 | MODIFY/CHANGE ... FIRST moves the column to position 1. The columns before its old place move up by one. |
| `AlterProperties.ChangeColumnRenamesKeys` | plugin/advisor/catalog/walk_through_test.go:251 | CHANGE and MODIFY COLUMN keep every existing index's name, flags and number of keys. In each key list, each key equal to the old name becomes the new name and every other key is kept. The only extra indexes are the ones the new definition declares inline, over the new column. After a rename, no index names the old column. |
| `AlterProperties.RenameColumnEffect` | plugin/advisor/catalog/walk_through_test.go:252 | RENAME COLUMN changes only that column's name. It renames the column in every index key list and nothing else. |
| `AlterProperties.SetColumnDefaultEffect` | plugin/advisor/catalog/walk_through_test.go:254 | ALTER COLUMN SET/DROP DEFAULT changes only that column's default. |
| `AlterProperties.DropIndexEffect` | plugin/advisor/catalog/walk_through_test.go:249 | DROP INDEX removes exactly that index and keeps the order of the others. |
| `AlterProperties.DropPrimaryKeyEffect` | plugin/advisor/catalog/walk_through_test.go:248 | DROP PRIMARY KEY removes exactly the PRIMARY index. The other indexes keep their order, the table's name and columns are untouched, and no primary index remains. |
| `AlterProperties.MissingPrimaryKeyClause` | plugin/advisor/catalog/walk_through_test.go:248 | DROP PRIMARY KEY on a table without a PRIMARY index is an IndexNotExists error for PRIMARY with integrity checking on, and a no-op without it. |
| `AlterProperties.RenameIndexEffect` | plugin/advisor/catalog/walk_through_test.go:255 | RENAME INDEX changes only that index's name, in place. Neither name is PRIMARY. |
| `AlterProperties.SetIndexVisibilityEffect` | plugin/advisor/catalog/walk_through_test.go:256 | ALTER INDEX ... VISIBLE/INVISIBLE changes only that index's visibility. |
| `AlterProperties.MissingColumnClause` | plugin/advisor/catalog/walk_through_test.go:541-561 | A clause on a missing column is a ColumnNotExists error with integrity checking on, and a no-op without it. |
| `AlterProperties.MissingIndexClause` | plugin/advisor/catalog/walk_through_test.go:541-561 | A clause on a missing index is an IndexNotExists error with integrity checking on, and a no-op without it. |
| `AlterProperties.MissingTableStatement` | plugin/advisor/catalog/walk_through_test.go:214-225 | ALTER TABLE, CREATE INDEX and DROP INDEX on a missing table are a TableNotExists error with integrity checking on, and a no-op without it. |
| `WalkThroughExamples.CreateTableTest` | plugin/advisor/catalog/walk_through_test.go:24-139 | The first test's CREATE TABLE produces exactly the expected catalog: four columns and six indexes. The unnamed indexes are named b, b_2, b_3 and b_4. |
| `WalkThroughExamples.CompositePrimaryKeyTest` | plugin/advisor/catalog/walk_through_test.go:141-190 | A composite PRIMARY KEY (a, b) gives one PRIMARY index over both columns, and both columns are NOT NULL. |
| `WalkThroughExamples.CreateThenDropTablesTest` | plugin/advisor/catalog/walk_through_test.go:192-212 | Creating t1 and t2 and then dropping both leaves an empty schema. |
| `WalkThroughExamples.DropMissingTablesTest` | plugin/advisor/catalog/walk_through_test.go:214-225 | DROP TABLE t1, t2 on an empty database fails with "Table `t1` does not exist". |
| `WalkThroughExamples.DropMissingTablesNoCatalogTest` | plugin/advisor/catalog/walk_through_test.go:541-575 | Without integrity checking, the same DROP TABLE succeeds and leaves the empty schema. |
| `WalkThroughExamples.CreateIndexTest` | plugin/advisor/catalog/walk_through_test.go:357-470 | CREATE TABLE followed by four CREATE INDEX statements reaches the catalog of the first test. |
| `WalkThroughExamples.DropIndexTest` | plugin/advisor/catalog/walk_through_test.go:472-524 | Dropping the inline UNIQUE index b leaves only PRIMARY. |
| `WalkThroughExamples.WalkChain` | plugin/advisor/catalog/walk_through_test.go:528-538 | When each statement of a walk succeeds and leads from one schema of a chain to the next, the walk succeeds and ends in the chain's last schema. |
| `WalkThroughAlterExample.AlterTableTest` | plugin/advisor/catalog/walk_through_test.go:227-353 | The CREATE TABLE and thirteen ALTER TABLE statements of the ALTER test all succeed. They leave exactly the expected table t_copy: options, indexes, renamed keys, defaults and visibility. Its columns are the expected ones with the expected positions, stored in the order the clauses appended them. |
| `DifferAst.KeyPartEqualIsIdentity` | plugin/parser/differ/mysql/constraint_test.go:14-166 | Two key-part lists are equal, for the differ, exactly when they are identical: same columns or expressions, in the same order. |
| `DifferAst.IndexOptionEqualCases` | plugin/parser/differ/mysql/constraint_test.go:168-234 | Two absent options are equal, and an absent option never equals a present one. Present options are equal exactly when key block size, type, parser, comment and visibility all agree. |
| `Differ.FindObj` | plugin/parser/differ/mysql/constraint_test.go:526-533 | A child lookup finds a child with the requested key, and finds none exactly when no child has that key. |
| `Differ.Reverse` | plugin/parser/differ/mysql/constraint_test.go:471-476 | Reversing keeps the length and puts element i at position n-1-i. |
| `Differ.RenderStmt` | plugin/parser/differ/mysql/constraint_test.go:245-247 | Every statement's text ends with the ";\n" delimiter. |
| `DifferRoundTrip.DiffRoundTrip` | plugin/parser/differ/mysql/constraint_test.go:423-550 | Replaying the differ's statements on the old schema succeeds at every step. It yields the new schema up to the order of tables, columns and indexes: the same tables, each with the same set of children. Every ADD targets an absent key, every DROP a present one, and every CREATE TABLE an absent table. |
| `DifferReplay.ReplayByTable` | plugin/parser/differ/mysql/constraint_test.go:423-510 | A script replays table by table: when each table's own statements replay, the whole script does, and each table ends as its own statements leave it. |
| `DifferOrder.DiffOrdering` | plugin/parser/differ/mysql/constraint_test.go:512-550 | A child re-added under a kept key comes right after its own DROP. Removals come last. Every ADD comes before every removal. |
| `DifferOrder.DiffColumnsFirst` | plugin/parser/differ/mysql/constraint_test.go:518-533 | Within a table, every ADD or MODIFY COLUMN comes before every statement on a key, index or foreign key. |
| `DifferOrder.SchemaDiffEmpty` | plugin/parser/differ/mysql/constraint_test.go:249-257 | The script is empty exactly when the two schemas have the same tables with the same set of children, up to the order of tables, columns and indexes. |
| `DifferOrder.IdenticalSchemasNoDiff` | plugin/parser/differ/mysql/constraint_test.go:329-338 | Diffing a schema against itself gives the empty text. |
| `DifferOrder.RenderEmpty` | plugin/parser/differ/mysql/constraint_test.go:249-257 | The text is empty exactly when there are no statements. |
| `DifferExamples.SameNameIndexExample` | plugin/parser/differ/mysql/constraint_test.go:534-541 | Adding a column and redefining index idx under the same name gives ADD COLUMN, then DROP INDEX idx, then ADD INDEX idx, with exactly the test's text. |
| `PgUniqueKeyNaming.UniqueKeyMetadata` | plugin/advisor/pg/advisor_naming_unique_key_convention.go:189-217 | A constraint yields metadata exactly when it is UNIQUE, or UNIQUE USING INDEX whose index is found. The metadata carries the constraint's name and the two template tokens. UNIQUE uses its own table and the key list joined with `_`. USING INDEX uses the found index's table and columns. |
| `PgUniqueKeyNaming.MetaDataList` | plugin/advisor/pg/advisor_naming_unique_key_convention.go:112-187 | Statements the rule does not know name no key, and single-key statements at most one. A CREATE INDEX names one exactly when it is unique. A rename names one exactly when the found index is unique and not primary: RENAME CONSTRAINT reports the statement's table but fills the template with the found table, and ALTER INDEX looks up without a table. |
| `PgUniqueKeyNaming.KeyAdvice` | plugin/advisor/pg/advisor_naming_unique_key_convention.go:80-107 | A key whose template fails to compile draws exactly one internal-error advice. Otherwise it draws at most two advices, all at the rule's level and none OK. |
| `PgUniqueKeyNaming.Check` | plugin/advisor/pg/advisor_naming_unique_key_convention.go:50-63 | The verdict is never empty, and an OK advice only ever appears alone. |
| `PgUniqueKeyNamingProperties.CreateTableMetaData` | plugin/advisor/pg/advisor_naming_unique_key_convention.go:116-128 | CREATE TABLE checks its table constraints first and then each column's constraints, in order. A key is checked exactly when one of those constraints yields it. |
| `PgUniqueKeyNamingProperties.NoUniqueConstraintNoMetaData` | plugin/advisor/pg/advisor_naming_unique_key_convention.go:191-216 | Constraints that are neither UNIQUE nor UNIQUE USING INDEX are never checked. |
| `PgUniqueKeyNamingProperties.UniqueColumnListRoundTrip` | plugin/advisor/pg/advisor_naming_unique_key_convention.go:192-196 | Splitting a UNIQUE constraint's column-list value at `_` gives back its key columns, when no column name contains `_`. |
| `PgUniqueKeyNamingProperties.CreateIndexColumnListRoundTrip` | plugin/advisor/pg/advisor_naming_unique_key_convention.go:142-150 | Splitting a unique CREATE INDEX's column-list value at `_` gives back its key columns, when no column name contains `_`. |
| `PgUniqueKeyNamingProperties.PatternAndLengthAdviceDiffer` | plugin/advisor/pg/advisor_naming_unique_key_convention.go:91-106 | The pattern-mismatch advice and the length advice are never the same advice. |
| `PgUniqueKeyNamingProperties.KeyAdviceCases` | plugin/advisor/pg/advisor_naming_unique_key_convention.go:80-107 | The internal-error advice appears alone exactly when the template fails. Otherwise: a pattern advice exactly when the name does not match; a length advice exactly when a positive limit is exceeded; all codes are naming mismatches. No advice exactly when the key passes. |
| `PgUniqueKeyNamingProperties.KeysAdviceEmpty` | plugin/advisor/pg/advisor_naming_unique_key_convention.go:80-107 | A statement's keys draw no advice exactly when every one of them passes. |
| `PgUniqueKeyNamingProperties.VisitAllConcat` | plugin/advisor/pg/advisor_naming_unique_key_convention.go:50-52 | The advice for two node lists is the advice for each, concatenated: nodes do not interact. |
| `PgUniqueKeyNamingProperties.CheckVerdict` | plugin/advisor/pg/advisor_naming_unique_key_convention.go:50-63 | The verdict is the single OK advice exactly when every checked key passes. Otherwise it is all the statements' advice, in order, at the rule's level. |

## Left out

- Parsing SQL text into statements is not modelled. The three components receive parsed
  statements as datatypes.
- Decoding a rule's payload is not modelled. The unique-key rule's level, format, length limit
  and template list are fields of `Rule`.
- Turning the naming template into a regular expression, and matching a name against it, are
  function-valued fields of the unique-key rule (`templateRegexp`, `matchString`). Regular
  expressions are out of scope.
- The catalog's index search and the schema-name normalisation are function-valued fields of
  the unique-key rule's catalog (`findIndex`, `normalizeSchemaName`). The rule calls both
  (plugin/advisor/pg/advisor_naming_unique_key_convention.go:219-226), but neither is part of it.
- PgUniqueKeyNaming.JoinColumnListForIndex: the catalog helper of that name is not part of this model. It is assumed to join the expressions of the found indexes with the separator.
- PgUniqueKeyNaming.Quoted: Go's `%q` escapes quotes and control characters inside the quoted text. The model only puts double quotes around it.
- PgUniqueKeyNaming.KeyAdvice: the length limit compares with the number of characters, while Go's `len` counts UTF-8 bytes. The two agree only on ASCII names.
- PgUniqueKeyNaming.Visit: the syntax-tree walk itself is not modelled. The model receives, as
  one flat list in walk order, the nodes the walk reaches, including the items nested in an
  ALTER TABLE statement (`AddConstraintStmt`, `AddColumnListStmt`). A node's `text` is that
  node's own text, which for a nested item need not be the whole statement's text. A caller
  that passed only whole statements would map an ALTER TABLE to `OtherStmt` and draw no advice.
- The walk-through's foreign keys, views and extensions are carried but never changed by any
  statement. No test pins their behaviour.
- The walk-through's column types are taken as given. MySQL's display widths, such as
  `int` becoming `int(11)`, are expected to be filled in by the caller.
- Table options (`ENGINE`, `COMMENT`, `COLLATE`) and `RENAME TO` are modelled in the
  walk-through. The differ does not compare table options, and the tests show no statement
  for them.
- Differ.Same: the key-part length and the ASC/DESC order of key parts are not compared.
  The tests do not show these two fields.
- The differ's column definitions are compared and rendered as their definition text.
  Normalising the text as MySQL prints it is not modelled.
- Views, triggers, functions and other non-table objects are not diffed.
- WalkThroughAlterExample.AlterTableTest: the model keeps a table's columns in a sequence, in
  the order they were added. The test's expected catalog is matched up to that order: the
  same multiset of columns, each carrying its expected position.
- Differ.TableCreates: each new column of a kept table gets its own `ADD COLUMN (...)`
  statement. MySQL allows several columns in one such statement, and batching them into one
  is not modelled. No test adds two columns to one table, so the tests fix neither form.
- DifferRoundTrip.DiffRoundTrip: the replay catalog holds each table's children as a set.
  Column and index order is not compared, so a column added between two others counts as
  rebuilt even though a plain ADD COLUMN puts it last. The differ emits no statement that
  reorders columns.
- DifferOrder.SchemaDiffEmpty: two schemas that differ only in the order of their tables,
  columns or indexes give the empty script.
- Identifiers are compared case-sensitively everywhere: the walk-through's table, column and
  index lookups and the differ's table and child lookups. MySQL compares column and index
  names case-insensitively, and table names depending on the server's settings.
- In the walk-through, CREATE TABLE and each single ALTER TABLE clause succeed or fail as a
  whole: a failure inside them leaves the schema as it was before that statement or clause.
  A multi-name DROP TABLE and a multi-clause ALTER TABLE keep the names and clauses that
  completed before the failure.
- Differ.Diff: the removals run emits every DROP TABLE before the child drops of kept tables.
  A foreign key in a kept table that references a removed table is therefore dropped after
  the table it references. No test pins this order, and referential checks are not modelled.
- Errors from the SQL parser and the restorer are not modelled. The Go code returns them from
  `SchemaDiff` and `WalkThrough`.
