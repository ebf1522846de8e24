/**
 * The MySQL schema differ: from two schema snapshots, the ALTER script that turns the old one
 * into the new one.  Each table's columns, primary key, indexes and foreign keys are its
 * "children", identified within the table by kind and name.  The script comes in three runs:
 *
 *  1. creations, table by table in the new snapshot's order: CREATE TABLE for a new table;
 *     for a kept table ADD COLUMN for new columns, MODIFY COLUMN for changed ones, then ADD for
 *     new primary keys, indexes and foreign keys;
 *  2. in-place changes: for a primary key, index or foreign key whose name is kept but whose
 *     definition changed, DROP of that name immediately followed by ADD of the new definition;
 *  3. removals, in reverse of the order they were found: DROP of every child whose name is gone
 *     from a kept table, and DROP TABLE of every table gone from the snapshot.
 *
 * So a reused name is always dropped before it is added again, and a new name is always added
 * before an old one is dropped.
 */
module Differ {
  import opened Wrappers
  import opened DifferAst
  import Text

  // ---------------------------------------------------------------------------------------
  // Schema snapshots.
  // ---------------------------------------------------------------------------------------

  /** A column; `definition` is its type and attributes as one rendered text. */
  datatype ColumnDef = ColumnDef(name: string, definition: string)

  datatype IndexFlavour = PlainKey | UniqueKey | FulltextKey

  datatype IndexDef = IndexDef(name: string, flavour: IndexFlavour, keys: seq<KeyPart>, option: Option<IndexOption>)

  datatype PrimaryKeyDef = PrimaryKeyDef(keys: seq<KeyPart>, option: Option<IndexOption>)

  datatype ForeignKeyDef = ForeignKeyDef(name: string, columns: seq<string>, refTable: string, refColumns: seq<string>)

  datatype TableDef = TableDef(
    name: string,
    columns: seq<ColumnDef>,
    primaryKey: Option<PrimaryKeyDef>,
    indexes: seq<IndexDef>,
    foreignKeys: seq<ForeignKeyDef>)

  datatype SchemaDef = SchemaDef(tables: seq<TableDef>)

  // ---------------------------------------------------------------------------------------
  // Children of a table, keyed by kind and name.
  // ---------------------------------------------------------------------------------------

  datatype ObjKind = ColumnKind | PrimaryKeyKind | IndexKind | ForeignKeyKind

  /** A child of a table. */
  datatype Obj =
    | ColumnObj(column: ColumnDef)
    | PrimaryKeyObj(primaryKey: PrimaryKeyDef)
    | IndexObj(index: IndexDef)
    | ForeignKeyObj(foreignKey: ForeignKeyDef)

  /** What identifies a child within its table; the primary key has the empty name. */
  datatype ChildKey = ChildKey(kind: ObjKind, name: string)

  function KeyOf(o: Obj): (k: ChildKey)
    ensures k.kind == ColumnKind <==> o.ColumnObj?
    ensures k.kind == PrimaryKeyKind <==> o.PrimaryKeyObj?
  {
    match o
    case ColumnObj(c) => ChildKey(ColumnKind, c.name)
    case PrimaryKeyObj(_) => ChildKey(PrimaryKeyKind, "")
    case IndexObj(i) => ChildKey(IndexKind, i.name)
    case ForeignKeyObj(f) => ChildKey(ForeignKeyKind, f.name)
  }

  function ColumnChildren(t: TableDef): (r: seq<Obj>)
    ensures |r| == |t.columns|
    ensures forall i :: 0 <= i < |r| ==> r[i] == ColumnObj(t.columns[i])
  {
    seq(|t.columns|, i requires 0 <= i < |t.columns| => ColumnObj(t.columns[i]))
  }

  /** The primary key, the indexes and the foreign keys, in that order. */
  function ConstraintChildren(t: TableDef): (r: seq<Obj>)
    ensures forall i :: 0 <= i < |r| ==> !r[i].ColumnObj?
  {
    (if t.primaryKey.Some? then [PrimaryKeyObj(t.primaryKey.value)] else [])
    + seq(|t.indexes|, i requires 0 <= i < |t.indexes| => IndexObj(t.indexes[i]))
    + seq(|t.foreignKeys|, i requires 0 <= i < |t.foreignKeys| => ForeignKeyObj(t.foreignKeys[i]))
  }

  function Children(t: TableDef): (r: seq<Obj>)
  {
    ColumnChildren(t) + ConstraintChildren(t)
  }

  /** The first child of `objs` with key `k`. */
  function FindObj(objs: seq<Obj>, k: ChildKey): (r: Option<Obj>)
    ensures r.Some? ==> r.value in objs && KeyOf(r.value) == k
    ensures r.None? <==> forall i :: 0 <= i < |objs| ==> KeyOf(objs[i]) != k
    decreases |objs|
  {
    if |objs| == 0 then None
    else if KeyOf(objs[0]) == k then Some(objs[0])
    else FindObj(objs[1..], k)
  }

  function FindTableDef(tables: seq<TableDef>, name: string): (r: Option<TableDef>)
    ensures r.Some? ==> r.value in tables && r.value.name == name
    ensures r.None? <==> forall i :: 0 <= i < |tables| ==> tables[i].name != name
    decreases |tables|
  {
    if |tables| == 0 then None
    else if tables[0].name == name then Some(tables[0])
    else FindTableDef(tables[1..], name)
  }

  /** A snapshot as the differ may take it: names unique among tables and within each table. */
  predicate DistinctKeys(objs: seq<Obj>)
  {
    forall i, j :: 0 <= i < j < |objs| ==> KeyOf(objs[i]) != KeyOf(objs[j])
  }

  predicate WellFormedSchemaDef(s: SchemaDef)
  {
    && (forall i, j :: 0 <= i < j < |s.tables| ==> s.tables[i].name != s.tables[j].name)
    && (forall i :: 0 <= i < |s.tables| ==> DistinctKeys(Children(s.tables[i])))
  }

  // ---------------------------------------------------------------------------------------
  // When a kept child counts as changed.
  // ---------------------------------------------------------------------------------------

  /**
   * Whether two children under the same key are the same definition: a column by its
   * definition text; a primary key by its key parts and options; an index by its flavour, key
   * parts and options; a foreign key by its columns and referenced table and columns.
   */
  function Same(o: Obj, n: Obj): bool
  {
    match (o, n)
    case (ColumnObj(a), ColumnObj(b)) => a.definition == b.definition
    case (PrimaryKeyObj(a), PrimaryKeyObj(b)) =>
      IsKeyPartEqual(a.keys, b.keys) && IsIndexOptionEqual(a.option, b.option)
    case (IndexObj(a), IndexObj(b)) =>
      a.flavour == b.flavour && IsKeyPartEqual(a.keys, b.keys) && IsIndexOptionEqual(a.option, b.option)
    case (ForeignKeyObj(a), ForeignKeyObj(b)) =>
      a.columns == b.columns && a.refTable == b.refTable && a.refColumns == b.refColumns
    case _ => false
  }

  /** Under one key, the differ sees no change exactly when the two children are identical. */
  lemma SameIsIdentity(o: Obj, n: Obj)
    requires KeyOf(o) == KeyOf(n)
    ensures Same(o, n) <==> o == n
  {
    match (o, n)
    case (PrimaryKeyObj(a), PrimaryKeyObj(b)) =>
      KeyPartEqualIsIdentity(a.keys, b.keys);
      IndexOptionEqualCases(a.option, b.option);
    case (IndexObj(a), IndexObj(b)) =>
      KeyPartEqualIsIdentity(a.keys, b.keys);
      IndexOptionEqualCases(a.option, b.option);
    case _ =>
  }

  // ---------------------------------------------------------------------------------------
  // Statements and the diff.
  // ---------------------------------------------------------------------------------------

  datatype DiffStmt =
    | CreateTableStmt(table: TableDef)
    | DropTableStmt(tableName: string)
    | AddStmt(tableName: string, obj: Obj)
    | ModifyColumnStmt(tableName: string, column: ColumnDef)
    | DropStmt(tableName: string, key: ChildKey)

  /** ADD for every child of `objs` whose key `other` lacks. */
  function AddedObjs(t: string, other: seq<Obj>, objs: seq<Obj>): (r: seq<DiffStmt>)
    ensures forall i :: 0 <= i < |r| ==>
      r[i].AddStmt? && r[i].tableName == t && r[i].obj in objs && FindObj(other, KeyOf(r[i].obj)).None?
    decreases |objs|
  {
    if |objs| == 0 then []
    else
      (if FindObj(other, KeyOf(objs[0])).None? then [AddStmt(t, objs[0])] else [])
      + AddedObjs(t, other, objs[1..])
  }

  /** MODIFY COLUMN for every column of `objs` that `other` has with another definition. */
  function ModifiedColumns(t: string, other: seq<Obj>, objs: seq<Obj>): (r: seq<DiffStmt>)
    ensures forall i :: 0 <= i < |r| ==>
      && r[i].ModifyColumnStmt? && r[i].tableName == t && ColumnObj(r[i].column) in objs
      && var p := FindObj(other, KeyOf(ColumnObj(r[i].column)));
         p.Some? && !Same(p.value, ColumnObj(r[i].column))
    decreases |objs|
  {
    if |objs| == 0 then []
    else
      var p := FindObj(other, KeyOf(objs[0]));
      (if objs[0].ColumnObj? && p.Some? && !Same(p.value, objs[0]) then [ModifyColumnStmt(t, objs[0].column)] else [])
      + ModifiedColumns(t, other, objs[1..])
  }

  /** DROP then ADD for every child of `objs` that `other` has with another definition. */
  function ReplacedObjs(t: string, other: seq<Obj>, objs: seq<Obj>): (r: seq<DiffStmt>)
    ensures forall i :: 0 <= i < |r| ==> (r[i].AddStmt? || r[i].DropStmt?) && r[i].tableName == t
    ensures forall i :: 0 <= i < |r| && r[i].AddStmt? ==>
      r[i].obj in objs && var p := FindObj(other, KeyOf(r[i].obj)); p.Some? && !Same(p.value, r[i].obj)
    decreases |objs|
  {
    if |objs| == 0 then []
    else
      var p := FindObj(other, KeyOf(objs[0]));
      (if p.Some? && !Same(p.value, objs[0]) then [DropStmt(t, KeyOf(objs[0])), AddStmt(t, objs[0])] else [])
      + ReplacedObjs(t, other, objs[1..])
  }

  /** DROP for every child of `objs` whose key `other` lacks. */
  function RemovedObjs(t: string, other: seq<Obj>, objs: seq<Obj>): (r: seq<DiffStmt>)
    ensures forall i :: 0 <= i < |r| ==>
      && r[i].DropStmt? && r[i].tableName == t && FindObj(other, r[i].key).None?
      && FindObj(objs, r[i].key).Some?
    decreases |objs|
  {
    if |objs| == 0 then []
    else
      (if FindObj(other, KeyOf(objs[0])).None? then [DropStmt(t, KeyOf(objs[0]))] else [])
      + RemovedObjs(t, other, objs[1..])
  }

  /** Run 1 for one table of the new snapshot. */
  function TableCreates(oldS: SchemaDef, nt: TableDef): (r: seq<DiffStmt>)
  {
    match FindTableDef(oldS.tables, nt.name)
    case None => [CreateTableStmt(nt)]
    case Some(ot) =>
      AddedObjs(nt.name, Children(ot), ColumnChildren(nt))
      + ModifiedColumns(nt.name, Children(ot), ColumnChildren(nt))
      + AddedObjs(nt.name, Children(ot), ConstraintChildren(nt))
  }

  /** Run 2 for one table of the new snapshot. */
  function TableReplaces(oldS: SchemaDef, nt: TableDef): (r: seq<DiffStmt>)
  {
    match FindTableDef(oldS.tables, nt.name)
    case None => []
    case Some(ot) => ReplacedObjs(nt.name, Children(ot), ConstraintChildren(nt))
  }

  /** Run 3's child drops for one table of the new snapshot, in the order found. */
  function TableRemovals(oldS: SchemaDef, nt: TableDef): (r: seq<DiffStmt>)
  {
    match FindTableDef(oldS.tables, nt.name)
    case None => []
    case Some(ot) => RemovedObjs(nt.name, Children(nt), Children(ot))
  }

  /** DROP TABLE of an old table the new snapshot lacks. */
  function TableDrop(newS: SchemaDef, ot: TableDef): (r: seq<DiffStmt>)
  {
    if FindTableDef(newS.tables, ot.name).None? then [DropTableStmt(ot.name)] else []
  }

  /** The statements `f` gives for each table, table by table. */
  function PerTable(tables: seq<TableDef>, f: TableDef -> seq<DiffStmt>): (r: seq<DiffStmt>)
    decreases |tables|
  {
    if |tables| == 0 then [] else f(tables[0]) + PerTable(tables[1..], f)
  }

  function Creates(oldS: SchemaDef, newS: SchemaDef): (r: seq<DiffStmt>)
  {
    PerTable(newS.tables, nt => TableCreates(oldS, nt))
  }

  function Replaces(oldS: SchemaDef, newS: SchemaDef): (r: seq<DiffStmt>)
  {
    PerTable(newS.tables, nt => TableReplaces(oldS, nt))
  }

  /** Run 3 in the order found: child drops table by table, then the dropped tables. */
  function Removals(oldS: SchemaDef, newS: SchemaDef): (r: seq<DiffStmt>)
  {
    PerTable(newS.tables, nt => TableRemovals(oldS, nt)) + PerTable(oldS.tables, ot => TableDrop(newS, ot))
  }

  function Reverse<T>(s: seq<T>): (r: seq<T>)
    ensures |r| == |s|
    ensures forall i :: 0 <= i < |s| ==> r[i] == s[|s| - 1 - i]
    decreases |s|
  {
    if |s| == 0 then [] else Reverse(s[1..]) + [s[0]]
  }

  /** The statements that turn `oldS` into `newS`: creations, in-place changes, then removals reversed. */
  function Diff(oldS: SchemaDef, newS: SchemaDef): (r: seq<DiffStmt>)
  {
    Creates(oldS, newS) + Replaces(oldS, newS) + Reverse(Removals(oldS, newS))
  }

  // ---------------------------------------------------------------------------------------
  // Rendering.
  // ---------------------------------------------------------------------------------------

  function Quote(name: string): string
  {
    "`" + name + "`"
  }

  function OpText(op: BinaryOp): string
  {
    match op
    case Plus => "+"
    case Minus => "-"
    case Mul => "*"
    case Div => "/"
  }

  function IntText(v: int): string
  {
    if v < 0 then "-" + Text.NatToString(-v) else Text.NatToString(v)
  }

  function RenderExpr(e: Expr): string
    decreases e
  {
    match e
    case ColumnRef(n) => Quote(n)
    case IntValue(v) => IntText(v)
    case StringValue(t) => "'" + t + "'"
    case Binary(op, l, r) => RenderExpr(l) + OpText(op) + RenderExpr(r)
    case FuncCall(f, args) =>
      f + "(" + Text.Join(seq(|args|, i requires 0 <= i < |args| => RenderExpr(args[i])), ", ") + ")"
  }

  /** An expression key part in parentheses, otherwise the quoted column. */
  function RenderKeyPart(k: KeyPart): string
  {
    if k.expr.Some? then "(" + RenderExpr(k.expr.value) + ")"
    else if k.column.Some? then Quote(k.column.value)
    else ""
  }

  function KeyPartTexts(keys: seq<KeyPart>): (r: seq<string>)
    ensures |r| == |keys|
    ensures forall i :: 0 <= i < |keys| ==> r[i] == RenderKeyPart(keys[i])
  {
    seq(|keys|, i requires 0 <= i < |keys| => RenderKeyPart(keys[i]))
  }

  function RenderKeyParts(keys: seq<KeyPart>): string
  {
    Text.Join(KeyPartTexts(keys), ", ")
  }

  function IndexTypeText(t: IndexType): string
  {
    match t
    case TypeInvalid => ""
    case BTree => "BTREE"
    case Hash => "HASH"
    case RTree => "RTREE"
  }

  /** The option block's present parts, in MySQL's order, separated by spaces. */
  function RenderOption(o: IndexOption): string
  {
    var parts :=
      (if o.keyBlockSize > 0 then ["KEY_BLOCK_SIZE=" + Text.NatToString(o.keyBlockSize)] else [])
      + (if o.indexType != TypeInvalid then ["USING " + IndexTypeText(o.indexType)] else [])
      + (if o.parserName != "" then ["WITH PARSER " + Quote(o.parserName)] else [])
      + (if o.comment != "" then ["COMMENT '" + o.comment + "'"] else [])
      + (match o.visibility
         case VisibilityDefault => []
         case Visible => ["VISIBLE"]
         case Invisible => ["INVISIBLE"]);
    Text.Join(parts, " ")
  }

  function OptionSuffix(option: Option<IndexOption>): string
  {
    if option.None? || RenderOption(option.value) == "" then "" else " " + RenderOption(option.value)
  }

  function FlavourText(f: IndexFlavour): string
  {
    match f
    case PlainKey => "INDEX"
    case UniqueKey => "UNIQUE INDEX"
    case FulltextKey => "FULLTEXT"
  }

  function QuotedList(names: seq<string>): string
  {
    Text.Join(seq(|names|, i requires 0 <= i < |names| => Quote(names[i])), ", ")
  }

  /** A child's definition as it follows ADD (and, without ADD, as it appears in CREATE TABLE). */
  function ObjDefinition(o: Obj): string
  {
    match o
    case ColumnObj(c) => Quote(c.name) + " " + c.definition
    case PrimaryKeyObj(pk) => "PRIMARY KEY(" + RenderKeyParts(pk.keys) + ")" + OptionSuffix(pk.option)
    case IndexObj(i) => FlavourText(i.flavour) + " " + Quote(i.name) + "(" + RenderKeyParts(i.keys) + ")" + OptionSuffix(i.option)
    case ForeignKeyObj(f) =>
      "CONSTRAINT " + Quote(f.name) + " FOREIGN KEY (" + QuotedList(f.columns) + ") REFERENCES "
      + Quote(f.refTable) + "(" + QuotedList(f.refColumns) + ")"
  }

  function AddClause(o: Obj): string
  {
    if o.ColumnObj? then "ADD COLUMN (" + ObjDefinition(o) + ")" else "ADD " + ObjDefinition(o)
  }

  function DropClause(k: ChildKey): string
  {
    match k.kind
    case ColumnKind => "DROP COLUMN " + Quote(k.name)
    case PrimaryKeyKind => "DROP PRIMARY KEY"
    case IndexKind => "DROP INDEX " + Quote(k.name)
    case ForeignKeyKind => "DROP FOREIGN KEY " + Quote(k.name)
  }

  const Delimiter: string := ";\n"

  /** One statement's text, always ending with the delimiter. */
  function RenderStmt(s: DiffStmt): (r: string)
    ensures |r| >= |Delimiter| && r[|r| - |Delimiter|..] == Delimiter
  {
    var body := match s
      case CreateTableStmt(t) =>
        var children := Children(t);
        "CREATE TABLE " + Quote(t.name) + " ("
        + Text.Join(seq(|children|, i requires 0 <= i < |children| => ObjDefinition(children[i])), ", ") + ")"
      case DropTableStmt(n) => "DROP TABLE " + Quote(n)
      case AddStmt(t, o) => "ALTER TABLE " + Quote(t) + " " + AddClause(o)
      case ModifyColumnStmt(t, c) => "ALTER TABLE " + Quote(t) + " MODIFY COLUMN " + ObjDefinition(ColumnObj(c))
      case DropStmt(t, k) => "ALTER TABLE " + Quote(t) + " " + DropClause(k);
    body + Delimiter
  }

  /** The script: every statement's text, in order. */
  function Render(stmts: seq<DiffStmt>): (r: string)
    decreases |stmts|
  {
    if |stmts| == 0 then "" else RenderStmt(stmts[0]) + Render(stmts[1..])
  }

  /** The differ's output text for two snapshots. */
  function SchemaDiff(oldS: SchemaDef, newS: SchemaDef): (r: string)
  {
    Render(Diff(oldS, newS))
  }
}
