/**
 * The in-memory catalog a walk-through mutates (MySQL dialect): a database state owns one
 * schema (the empty-named one), which owns its tables, views and extensions; a table owns
 * its columns and indexes.  Also the read-only finder over that tree and the well-formedness
 * invariants every walked state keeps.
 */
module Catalog {
  import opened Wrappers
  import Text

  /** The reserved name of the primary key. */
  const PrimaryKeyName: string := "PRIMARY"
  /** The index type given to an index declared without USING. */
  const DefaultIndexType: string := "BTREE"
  const FulltextIndexType: string := "FULLTEXT"

  /**
   * A column.  `position` is 1-based; `default` distinguishes "no default" (None) from an
   * empty default (Some("")).  Types are opaque strings.
   */
  datatype Column = Column(
    name: string,
    position: nat,
    default: Option<string>,
    nullable: bool,
    columnType: string,
    characterSet: string,
    collation: string,
    comment: string)

  /** An index; `expressions` are the key column names or key expression texts, in order. */
  datatype Index = Index(
    name: string,
    expressions: seq<string>,
    indexType: string,
    unique: bool,
    primary: bool,
    visible: bool)

  /**
   * A table.  `columns` holds the columns in no significant order (the order of a column is its
   * `position`); `indexes` holds the indexes in creation order.
   */
  datatype Table = Table(
    name: string,
    collation: string,
    engine: string,
    comment: string,
    columns: seq<Column>,
    indexes: seq<Index>)

  datatype View = View(name: string, definition: string)

  datatype Extension = Extension(name: string, version: string)

  /** A schema; the lists are always present, an empty list meaning "walked and empty". */
  datatype Schema = Schema(
    name: string,
    tables: seq<Table>,
    views: seq<View>,
    extensions: seq<Extension>)

  /** A database snapshot as handed to the walk-through. */
  datatype Database = Database(name: string, schemas: seq<Schema>)

  /** The walk-through's working state for a MySQL database: its one schema. */
  datatype DatabaseState = DatabaseState(name: string, schema: Schema)

  function EmptySchema(name: string): (s: Schema)
  {
    Schema(name, [], [], [])
  }

  /**
   * The working state of a MySQL snapshot: the schema with the empty name when the snapshot
   * has one, otherwise a fresh schema whose lists are present and empty.
   */
  function NewDatabaseState(db: Database): (d: DatabaseState)
    ensures d.name == db.name
    ensures d.schema.name == ""
    ensures (exists i :: 0 <= i < |db.schemas| && db.schemas[i].name == "") ==> d.schema in db.schemas
    ensures (forall i :: 0 <= i < |db.schemas| ==> db.schemas[i].name != "") ==> d.schema == EmptySchema("")
  {
    match SchemaIndex(db.schemas, "")
    case Some(i) => DatabaseState(db.name, db.schemas[i])
    case None => DatabaseState(db.name, EmptySchema(""))
  }

  // ---------------------------------------------------------------------------------------
  // Finder: lookups by name, reporting "not found" as None.
  // ---------------------------------------------------------------------------------------

  function SchemaIndex(schemas: seq<Schema>, name: string): (r: Option<nat>)
    ensures r.Some? ==> r.value < |schemas| && schemas[r.value].name == name
    ensures r.None? <==> forall i :: 0 <= i < |schemas| ==> schemas[i].name != name
    decreases |schemas|
  {
    if |schemas| == 0 then None
    else if schemas[0].name == name then Some(0)
    else match SchemaIndex(schemas[1..], name)
      case Some(i) => Some(i + 1)
      case None => None
  }

  /** The slot of the table called `name`, if any. */
  function TableIndex(tables: seq<Table>, name: string): (r: Option<nat>)
    ensures r.Some? ==> r.value < |tables| && tables[r.value].name == name
    ensures r.None? <==> forall i :: 0 <= i < |tables| ==> tables[i].name != name
    decreases |tables|
  {
    if |tables| == 0 then None
    else if tables[0].name == name then Some(0)
    else match TableIndex(tables[1..], name)
      case Some(i) => Some(i + 1)
      case None => None
  }

  /** The slot of the column called `name`, if any. */
  function ColumnIndex(columns: seq<Column>, name: string): (r: Option<nat>)
    ensures r.Some? ==> r.value < |columns| && columns[r.value].name == name
    ensures r.None? <==> forall i :: 0 <= i < |columns| ==> columns[i].name != name
    decreases |columns|
  {
    if |columns| == 0 then None
    else if columns[0].name == name then Some(0)
    else match ColumnIndex(columns[1..], name)
      case Some(i) => Some(i + 1)
      case None => None
  }

  /** The slot of the column at 1-based `position`, if any. */
  function ColumnAtPosition(columns: seq<Column>, position: nat): (r: Option<nat>)
    ensures r.Some? ==> r.value < |columns| && columns[r.value].position == position
    ensures r.None? <==> forall i :: 0 <= i < |columns| ==> columns[i].position != position
    decreases |columns|
  {
    if |columns| == 0 then None
    else if columns[0].position == position then Some(0)
    else match ColumnAtPosition(columns[1..], position)
      case Some(i) => Some(i + 1)
      case None => None
  }

  /** The slot of the index called `name`, if any. */
  function IndexIndex(indexes: seq<Index>, name: string): (r: Option<nat>)
    ensures r.Some? ==> r.value < |indexes| && indexes[r.value].name == name
    ensures r.None? <==> forall i :: 0 <= i < |indexes| ==> indexes[i].name != name
    decreases |indexes|
  {
    if |indexes| == 0 then None
    else if indexes[0].name == name then Some(0)
    else match IndexIndex(indexes[1..], name)
      case Some(i) => Some(i + 1)
      case None => None
  }

  function FindColumn(t: Table, name: string): (r: Option<Column>)
    ensures r.Some? ==> r.value in t.columns && r.value.name == name
    ensures r.None? <==> forall i :: 0 <= i < |t.columns| ==> t.columns[i].name != name
  {
    match ColumnIndex(t.columns, name)
    case Some(i) => Some(t.columns[i])
    case None => None
  }

  /** The key expressions of every listed index, in order, joined with `sep`. */
  function JoinColumnListForIndex(indexes: seq<Index>, sep: string): (r: string)
    ensures |indexes| == 1 ==> r == Text.Join(indexes[0].expressions, sep)
  {
    Text.Join(Expressions(indexes), sep)
  }

  function Expressions(indexes: seq<Index>): (r: seq<string>)
    ensures |indexes| == 1 ==> r == indexes[0].expressions
    decreases |indexes|
  {
    if |indexes| == 0 then [] else indexes[0].expressions + Expressions(indexes[1..])
  }

  function IndexNames(indexes: seq<Index>): (r: set<string>)
  {
    set i | 0 <= i < |indexes| :: indexes[i].name
  }

  /** Appending an index adds exactly its name to the names in use. */
  lemma IndexNamesAppend(indexes: seq<Index>, x: Index)
    ensures IndexNames(indexes + [x]) == IndexNames(indexes) + {x.name}
  {
    var r := indexes + [x];
    forall n | n in IndexNames(r) ensures n in IndexNames(indexes) + {x.name} {
      var j :| 0 <= j < |r| && r[j].name == n;
      if j < |indexes| { assert indexes[j].name == n; }
    }
    forall n | n in IndexNames(indexes) + {x.name} ensures n in IndexNames(r) {
      if n != x.name {
        var j :| 0 <= j < |indexes| && indexes[j].name == n;
        assert r[j].name == n;
      } else {
        assert r[|indexes|].name == n;
      }
    }
  }

  function TableNames(tables: seq<Table>): (r: set<string>)
  {
    set i | 0 <= i < |tables| :: tables[i].name
  }

  function ColumnNames(columns: seq<Column>): (r: set<string>)
  {
    set i | 0 <= i < |columns| :: columns[i].name
  }

  // ---------------------------------------------------------------------------------------
  // Well-formedness: the invariants every state reached by a walk keeps.
  // ---------------------------------------------------------------------------------------

  /** Column positions are exactly 1..N: each in range and no two equal. */
  predicate DensePositions(columns: seq<Column>)
  {
    && (forall i :: 0 <= i < |columns| ==> 1 <= columns[i].position <= |columns|)
    && (forall i, j :: 0 <= i < j < |columns| ==> columns[i].position != columns[j].position)
  }

  predicate DistinctColumnNames(columns: seq<Column>)
  {
    forall i, j :: 0 <= i < j < |columns| ==> columns[i].name != columns[j].name
  }

  predicate DistinctIndexNames(indexes: seq<Index>)
  {
    forall i, j :: 0 <= i < j < |indexes| ==> indexes[i].name != indexes[j].name
  }

  /**
   * The primary key is the index named PRIMARY and no other: an index is primary exactly
   * when it carries the reserved name, and a primary index is unique.
   */
  predicate PrimaryKeyReserved(indexes: seq<Index>)
  {
    forall i :: 0 <= i < |indexes| ==>
      && (indexes[i].primary <==> indexes[i].name == PrimaryKeyName)
      && (indexes[i].primary ==> indexes[i].unique)
  }

  predicate NonEmptyKeys(indexes: seq<Index>)
  {
    forall i :: 0 <= i < |indexes| ==> |indexes[i].expressions| >= 1
  }

  predicate WellFormedIndexes(indexes: seq<Index>)
  {
    DistinctIndexNames(indexes) && PrimaryKeyReserved(indexes) && NonEmptyKeys(indexes)
  }

  predicate WellFormedTable(t: Table)
  {
    DensePositions(t.columns) && DistinctColumnNames(t.columns) && WellFormedIndexes(t.indexes)
  }

  predicate DistinctTableNames(tables: seq<Table>)
  {
    forall i, j :: 0 <= i < j < |tables| ==> tables[i].name != tables[j].name
  }

  predicate WellFormedSchema(s: Schema)
  {
    DistinctTableNames(s.tables) && forall i :: 0 <= i < |s.tables| ==> WellFormedTable(s.tables[i])
  }
}
