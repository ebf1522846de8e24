/**
 * The catalog walk-through for the MySQL dialect: typed DDL statements applied one at a time
 * to a `Catalog.DatabaseState`.  Each handler either transforms the state or reports a typed
 * error; the walk stops at the first error and hands back the state reached so far.
 */
module WalkThrough {
  import opened Wrappers
  import opened Catalog
  import IndexNaming

  // ---------------------------------------------------------------------------------------
  // Statements (the parser's output, taken as given).
  // ---------------------------------------------------------------------------------------

  datatype ColumnOption =
    | PrimaryKeyOption
    | NotNullOption
    | NullOption
    | AutoIncrementOption
    | UniqueKeyOption
    | DefaultOption(value: string)
    | CommentOption(text: string)
    | CollateOption(collation: string)

  /** A column definition; the type (with its length) is an opaque string. */
  datatype ColumnDef = ColumnDef(
    name: string,
    columnType: string,
    characterSet: string,
    options: seq<ColumnOption>)

  datatype ColumnPosition = PositionNone | PositionFirst | PositionAfter(column: string)

  /** One key of an index: a column name or a computed expression (kept as its text). */
  datatype KeyPart = KeyColumn(name: string) | KeyExpression(text: string)

  datatype ConstraintKind =
    | PrimaryKeyConstraint
    | IndexConstraint
    | UniqueConstraint
    | FulltextConstraint
    | ForeignKeyConstraint
    | CheckConstraint

  /** `USING <type>` and `VISIBLE`/`INVISIBLE` of an index definition. */
  datatype IndexOptions = IndexOptions(using: Option<string>, invisible: bool)

  /** A table-level constraint or index clause; `name` is "" when none was given. */
  datatype Constraint = Constraint(
    kind: ConstraintKind,
    name: string,
    keys: seq<KeyPart>,
    options: IndexOptions)

  datatype TableOption =
    | CollateTableOption(collation: string)
    | EngineTableOption(engine: string)
    | CommentTableOption(comment: string)

  /** One clause of ALTER TABLE. `SetColumnDefault(c, None)` is ALTER COLUMN c DROP DEFAULT. */
  datatype AlterSpec =
    | SetTableOptions(tableOptions: seq<TableOption>)
    | AddColumn(column: ColumnDef, position: ColumnPosition)
    | AddConstraint(constraint: Constraint)
    | DropColumn(columnName: string)
    | DropPrimaryKey
    | DropIndex(indexName: string)
    | ModifyColumn(column: ColumnDef, position: ColumnPosition)
    | ChangeColumn(oldName: string, column: ColumnDef, position: ColumnPosition)
    | RenameColumn(oldName: string, newName: string)
    | SetColumnDefault(columnName: string, value: Option<string>)
    | RenameIndex(oldName: string, newName: string)
    | AlterIndexVisibility(indexName: string, visible: bool)
    | RenameTable(newName: string)

  /** The index flavours a standalone CREATE INDEX can ask for. */
  datatype IndexKind = PlainIndex | UniqueIndex | FulltextIndex

  datatype Stmt =
    | CreateTable(tableName: string, columns: seq<ColumnDef>, constraints: seq<Constraint>)
    | AlterTable(tableName: string, specs: seq<AlterSpec>)
    | DropTable(tableNames: seq<string>)
    | CreateIndex(indexName: string, tableName: string, kind: IndexKind, keys: seq<KeyPart>, options: IndexOptions)
    | DropIndexStmt(indexName: string, tableName: string)
    | Unsupported(description: string)

  // ---------------------------------------------------------------------------------------
  // Errors and configuration.
  // ---------------------------------------------------------------------------------------

  datatype ErrorType =
    | TableExists
    | TableNotExists
    | ColumnExists
    | ColumnNotExists
    | IndexExists
    | IndexNotExists
    | PrimaryKeyExists
    | IndexEmptyKeys
    | IncorrectIndexName
    | UnsupportedStatement

  datatype WalkThroughError = WalkThroughError(errorType: ErrorType, content: string)

  /** With `checkIntegrity` off, a reference to a missing object is a silent no-op. */
  datatype FinderContext = FinderContext(checkIntegrity: bool)

  function Quoted(name: string): string
  {
    "`" + name + "`"
  }

  function TableNotExistsError(table: string): WalkThroughError
  {
    WalkThroughError(TableNotExists, "Table " + Quoted(table) + " does not exist")
  }

  function TableExistsError(table: string): WalkThroughError
  {
    WalkThroughError(TableExists, "Table " + Quoted(table) + " already exists")
  }

  function ColumnNotExistsError(column: string, table: string): WalkThroughError
  {
    WalkThroughError(ColumnNotExists, "Column " + Quoted(column) + " does not exist in table " + Quoted(table))
  }

  function ColumnExistsError(column: string, table: string): WalkThroughError
  {
    WalkThroughError(ColumnExists, "Column " + Quoted(column) + " already exists in table " + Quoted(table))
  }

  function IndexNotExistsError(index: string, table: string): WalkThroughError
  {
    WalkThroughError(IndexNotExists, "Index " + Quoted(index) + " does not exist in table " + Quoted(table))
  }

  function IndexExistsError(index: string, table: string): WalkThroughError
  {
    WalkThroughError(IndexExists, "Index " + Quoted(index) + " already exists in table " + Quoted(table))
  }

  /** What a reference to a missing object yields: an error under integrity checking, else `fallback`. */
  function Missing<T>(ctx: FinderContext, err: WalkThroughError, fallback: T): (r: Result<T, WalkThroughError>)
    ensures ctx.checkIntegrity ==> r == Failure(err)
    ensures !ctx.checkIntegrity ==> r == Success(fallback)
  {
    if ctx.checkIntegrity then Failure(err) else Success(fallback)
  }

  // ---------------------------------------------------------------------------------------
  // Column positions.
  // ---------------------------------------------------------------------------------------

  function RemoveAt<T>(s: seq<T>, i: nat): (r: seq<T>)
    requires i < |s|
    ensures |r| == |s| - 1
    ensures forall j :: 0 <= j < i ==> r[j] == s[j]
    ensures forall j :: i <= j < |r| ==> r[j] == s[j + 1]
  {
    s[..i] + s[i + 1..]
  }

  /** Moves every column at position `from` or later one place later, freeing slot `from`. */
  function ShiftUp(columns: seq<Column>, from: nat): (r: seq<Column>)
  {
    seq(|columns|, i requires 0 <= i < |columns| =>
      if columns[i].position >= from then columns[i].(position := columns[i].position + 1) else columns[i])
  }

  /** Moves every column after position `above` one place earlier, closing the gap at `above`. */
  function ShiftDown(columns: seq<Column>, above: nat): (r: seq<Column>)
  {
    seq(|columns|, i requires 0 <= i < |columns| =>
      if columns[i].position > above then columns[i].(position := columns[i].position - 1) else columns[i])
  }

  /**
   * Opens the slot a new column goes to: the end, the front (FIRST), or right after the named
   * column (AFTER).  A missing AFTER column is an error under integrity checking; otherwise the
   * column goes to the end.
   */
  function InsertPosition(columns: seq<Column>, table: string, position: ColumnPosition, ctx: FinderContext)
    : (r: Result<(seq<Column>, nat), WalkThroughError>)
    ensures r.Success? ==> |r.value.0| == |columns|
    ensures r.Success? && position.PositionNone? ==> r.value == (columns, |columns| + 1)
    ensures r.Success? && position.PositionFirst? ==> r.value.1 == 1
    ensures r.Success? && position.PositionAfter? && ColumnIndex(columns, position.column).None?
            ==> r.value == (columns, |columns| + 1)
    ensures r.Failure? <==> position.PositionAfter? && ctx.checkIntegrity && ColumnIndex(columns, position.column).None?
  {
    match position
    case PositionNone => Success((columns, |columns| + 1))
    case PositionFirst => Success((ShiftUp(columns, 1), 1))
    case PositionAfter(after) =>
      match ColumnIndex(columns, after)
      case Some(i) =>
        var p := columns[i].position + 1;
        Success((ShiftUp(columns, p), p))
      case None => Missing(ctx, ColumnNotExistsError(after, table), (columns, |columns| + 1))
  }

  // ---------------------------------------------------------------------------------------
  // Column definitions.
  // ---------------------------------------------------------------------------------------

  /**
   * Nullability after reading the options left to right: NOT NULL clears it, NULL sets it
   * (the last of the two wins), AUTO_INCREMENT clears it unless NULL is declared explicitly.
   */
  function NullableAfter(options: seq<ColumnOption>, nullable: bool, explicitNull: bool): bool
    decreases |options|
  {
    if |options| == 0 then nullable
    else
      var n := match options[0]
        case NotNullOption => false
        case NullOption => true
        case AutoIncrementOption => if explicitNull then nullable else false
        case _ => nullable;
      NullableAfter(options[1..], n, explicitNull)
  }

  /** A column of the primary key is never nullable, whatever else its options say. */
  function Nullable(options: seq<ColumnOption>): bool
  {
    PrimaryKeyOption !in options && NullableAfter(options, true, NullOption in options)
  }

  /** The value of the last DEFAULT option, if any. */
  function DefaultOf(options: seq<ColumnOption>): (r: Option<string>)
    ensures (forall i :: 0 <= i < |options| ==> !options[i].DefaultOption?) <==> r.None?
    decreases |options|
  {
    if |options| == 0 then None
    else if options[|options| - 1].DefaultOption? then Some(options[|options| - 1].value)
    else DefaultOf(options[..|options| - 1])
  }

  /** The text of the last COMMENT option, "" if none. */
  function CommentOf(options: seq<ColumnOption>): (r: string)
    ensures (forall i :: 0 <= i < |options| ==> !options[i].CommentOption?) ==> r == ""
    decreases |options|
  {
    if |options| == 0 then ""
    else if options[|options| - 1].CommentOption? then options[|options| - 1].text
    else CommentOf(options[..|options| - 1])
  }

  /** The collation of the last COLLATE option, "" if none. */
  function CollationOf(options: seq<ColumnOption>): (r: string)
    ensures (forall i :: 0 <= i < |options| ==> !options[i].CollateOption?) ==> r == ""
    decreases |options|
  {
    if |options| == 0 then ""
    else if options[|options| - 1].CollateOption? then options[|options| - 1].collation
    else CollationOf(options[..|options| - 1])
  }

  function NewColumn(def: ColumnDef, position: nat): (c: Column)
  {
    Column(def.name, position, DefaultOf(def.options), Nullable(def.options), def.columnType,
           def.characterSet, CollationOf(def.options), CommentOf(def.options))
  }

  // ---------------------------------------------------------------------------------------
  // Indexes.
  // ---------------------------------------------------------------------------------------

  function IndexTypeOf(options: IndexOptions): string
  {
    options.using.GetOr(DefaultIndexType)
  }

  /**
   * Adds a non-primary index.  An explicit name is used as given and must be neither the
   * reserved primary-key name nor taken; an empty name is replaced by the default name derived
   * from the first key.  The key list must not be empty.  The index is appended.
   */
  function AddIndexToTable(t: Table, name: string, keys: seq<string>, unique: bool, indexType: string, visible: bool)
    : (r: Result<Table, WalkThroughError>)
    ensures r.Failure? <==> |keys| == 0 || (name != "" && (name == PrimaryKeyName || name in IndexNames(t.indexes)))
    ensures r.Success? ==>
      && r.value == t.(indexes := r.value.indexes)
      && |r.value.indexes| == |t.indexes| + 1
      && r.value.indexes[..|t.indexes|] == t.indexes
      && var added := r.value.indexes[|t.indexes|];
         && added == Index(added.name, keys, indexType, unique, false, visible)
         && added.name !in IndexNames(t.indexes) && added.name != PrimaryKeyName
         && (name != "" ==> added.name == name)
         && (name == "" ==> added.name == IndexNaming.AutoName(IndexNames(t.indexes), keys[0]))
  {
    if |keys| == 0 then
      Failure(WalkThroughError(IndexEmptyKeys, "Index " + Quoted(name) + " in table " + Quoted(t.name) + " has empty key"))
    else if name == "" then
      var auto := IndexNaming.AutoName(IndexNames(t.indexes), keys[0]);
      Success(t.(indexes := t.indexes + [Index(auto, keys, indexType, unique, false, visible)]))
    else if name == PrimaryKeyName then
      Failure(WalkThroughError(IncorrectIndexName, "Incorrect index name " + Quoted(name)))
    else if IndexIndex(t.indexes, name).Some? then
      Failure(IndexExistsError(name, t.name))
    else
      Success(t.(indexes := t.indexes + [Index(name, keys, indexType, unique, false, visible)]))
  }

  /**
   * Adds the primary key: a unique, primary, visible index named PRIMARY, appended.  Fails
   * when the table already has one or the key list is empty.
   */
  function AddPrimaryKeyToTable(t: Table, keys: seq<string>, indexType: string): (r: Result<Table, WalkThroughError>)
    ensures r.Failure? <==> |keys| == 0 || PrimaryKeyName in IndexNames(t.indexes)
    ensures r.Failure? && PrimaryKeyName in IndexNames(t.indexes) ==> r.error.errorType == PrimaryKeyExists
    ensures r.Success? ==>
      && r.value == t.(indexes := r.value.indexes)
      && |r.value.indexes| == |t.indexes| + 1
      && r.value.indexes[..|t.indexes|] == t.indexes
      && IndexNames(r.value.indexes) == IndexNames(t.indexes) + {PrimaryKeyName}
      && var pk := r.value.indexes[|t.indexes|];
         && pk.name == PrimaryKeyName && pk.primary && pk.unique && pk.visible
         && pk.expressions == keys && pk.indexType == indexType
  {
    if IndexIndex(t.indexes, PrimaryKeyName).Some? then
      Failure(WalkThroughError(PrimaryKeyExists, "Primary key exists in table " + Quoted(t.name)))
    else if |keys| == 0 then
      Failure(WalkThroughError(IndexEmptyKeys, "Primary key in table " + Quoted(t.name) + " has empty key"))
    else
      var pk := Index(PrimaryKeyName, keys, indexType, true, true, true);
      IndexNamesAppend(t.indexes, pk);
      Success(t.(indexes := t.indexes + [pk]))
  }

  function KeyText(k: KeyPart): string
  {
    match k
    case KeyColumn(n) => n
    case KeyExpression(e) => e
  }

  /**
   * The key list an index stores: column names and expression texts, in order.  Under
   * integrity checking every key column must exist.
   */
  function ResolveKeys(t: Table, keys: seq<KeyPart>, ctx: FinderContext): (r: Result<seq<string>, WalkThroughError>)
    ensures r.Success? ==> |r.value| == |keys| && forall i :: 0 <= i < |keys| ==> r.value[i] == KeyText(keys[i])
    ensures r.Failure? <==>
      ctx.checkIntegrity && exists i :: 0 <= i < |keys| && keys[i].KeyColumn? && ColumnIndex(t.columns, keys[i].name).None?
    decreases |keys|
  {
    if |keys| == 0 then Success([])
    else
      var first :- ResolveKey(t, keys[0], ctx);
      var rest :- ResolveKeys(t, keys[1..], ctx);
      assert forall i :: 1 <= i < |keys| ==> keys[i] == keys[1..][i - 1];
      Success([first] + rest)
  }

  /** One key part: a column must exist under integrity checking; an expression is kept as written. */
  function ResolveKey(t: Table, k: KeyPart, ctx: FinderContext): (r: Result<string, WalkThroughError>)
    ensures r.Success? ==> r.value == KeyText(k)
    ensures r.Failure? <==> ctx.checkIntegrity && k.KeyColumn? && ColumnIndex(t.columns, k.name).None?
  {
    match k
    case KeyColumn(n) =>
      if ColumnIndex(t.columns, n).None? then Missing(ctx, ColumnNotExistsError(n, t.name), n) else Success(n)
    case KeyExpression(e) => Success(e)
  }

  /** Marks every column named by a key column of `keys` NOT NULL (a primary key's columns). */
  function MarkNotNull(columns: seq<Column>, keys: seq<KeyPart>): (r: seq<Column>)
  {
    seq(|columns|, i requires 0 <= i < |columns| =>
      if KeyColumn(columns[i].name) in keys then columns[i].(nullable := false) else columns[i])
  }

  /** The index an index or constraint clause adds; foreign keys and checks add none. */
  function AddConstraintToTable(t: Table, c: Constraint, ctx: FinderContext): (r: Result<Table, WalkThroughError>)
  {
    match c.kind
    case PrimaryKeyConstraint =>
      var keys :- ResolveKeys(t, c.keys, ctx);
      AddPrimaryKeyToTable(t.(columns := MarkNotNull(t.columns, c.keys)), keys, IndexTypeOf(c.options))
    case IndexConstraint =>
      var keys :- ResolveKeys(t, c.keys, ctx);
      AddIndexToTable(t, c.name, keys, false, IndexTypeOf(c.options), !c.options.invisible)
    case UniqueConstraint =>
      var keys :- ResolveKeys(t, c.keys, ctx);
      AddIndexToTable(t, c.name, keys, true, IndexTypeOf(c.options), !c.options.invisible)
    case FulltextConstraint =>
      var keys :- ResolveKeys(t, c.keys, ctx);
      AddIndexToTable(t, c.name, keys, false, FulltextIndexType, !c.options.invisible)
    case ForeignKeyConstraint => Success(t)
    case CheckConstraint => Success(t)
  }

  /** The indexes a column's inline PRIMARY KEY and UNIQUE options create, in option order. */
  function AddInlineIndexes(t: Table, column: string, options: seq<ColumnOption>): (r: Result<Table, WalkThroughError>)
    decreases |options|
  {
    if |options| == 0 then Success(t)
    else
      var t1 :- match options[0]
        case PrimaryKeyOption => AddPrimaryKeyToTable(t, [column], DefaultIndexType)
        case UniqueKeyOption => AddIndexToTable(t, "", [column], true, DefaultIndexType, true)
        case _ => Success(t);
      AddInlineIndexes(t1, column, options[1..])
  }

  /**
   * Adds a column at the requested position, renumbering the others, then the indexes its
   * inline options declare.  Fails if a column of that name exists.
   */
  function AddColumnToTable(t: Table, def: ColumnDef, position: ColumnPosition, ctx: FinderContext)
    : (r: Result<Table, WalkThroughError>)
  {
    if ColumnIndex(t.columns, def.name).Some? then Failure(ColumnExistsError(def.name, t.name))
    else
      var slot :- InsertPosition(t.columns, t.name, position, ctx);
      AddInlineIndexes(t.(columns := slot.0 + [NewColumn(def, slot.1)]), def.name, def.options)
  }

  // ---------------------------------------------------------------------------------------
  // Key lists under column drops and renames.
  // ---------------------------------------------------------------------------------------

  function RemoveKey(keys: seq<string>, name: string): (r: seq<string>)
    ensures forall k :: k in r <==> k in keys && k != name
    ensures |r| <= |keys|
    decreases |keys|
  {
    if |keys| == 0 then []
    else (if keys[0] == name then [] else [keys[0]]) + RemoveKey(keys[1..], name)
  }

  /** Removes `name` from every key list and drops the indexes left without keys. */
  function DropKeyFromIndexes(indexes: seq<Index>, name: string): (r: seq<Index>)
    decreases |indexes|
  {
    if |indexes| == 0 then []
    else
      var keys := RemoveKey(indexes[0].expressions, name);
      (if |keys| == 0 then [] else [indexes[0].(expressions := keys)]) + DropKeyFromIndexes(indexes[1..], name)
  }

  function RenameKey(keys: seq<string>, oldName: string, newName: string): (r: seq<string>)
    ensures |r| == |keys|
    ensures oldName != newName ==> oldName !in r
    ensures forall k :: k in r ==> k in keys || k == newName
  {
    seq(|keys|, i requires 0 <= i < |keys| => if keys[i] == oldName then newName else keys[i])
  }

  /** Rewrites `oldName` to `newName` in every key list. */
  function RenameKeyInIndexes(indexes: seq<Index>, oldName: string, newName: string): (r: seq<Index>)
  {
    seq(|indexes|, i requires 0 <= i < |indexes| =>
      indexes[i].(expressions := RenameKey(indexes[i].expressions, oldName, newName)))
  }

  // ---------------------------------------------------------------------------------------
  // ALTER TABLE clauses on one table.
  // ---------------------------------------------------------------------------------------

  function DropColumnFromTable(t: Table, name: string, ctx: FinderContext): (r: Result<Table, WalkThroughError>)
  {
    match ColumnIndex(t.columns, name)
    case None => Missing(ctx, ColumnNotExistsError(name, t.name), t)
    case Some(i) =>
      Success(t.(columns := ShiftDown(RemoveAt(t.columns, i), t.columns[i].position),
                 indexes := DropKeyFromIndexes(t.indexes, name)))
  }

  /** The position clause that puts a re-created column back where it was. */
  function SamePosition(columns: seq<Column>, position: nat): (r: ColumnPosition)
  {
    if position <= 1 then PositionFirst
    else match ColumnAtPosition(columns, position - 1)
      case Some(j) => PositionAfter(columns[j].name)
      case None => PositionNone
  }

  /**
   * MODIFY and CHANGE COLUMN: the old column is removed and the new definition created in its
   * place (or where the position clause says); key lists follow a rename.
   */
  function ChangeColumnInTable(t: Table, oldName: string, def: ColumnDef, position: ColumnPosition, ctx: FinderContext)
    : (r: Result<Table, WalkThroughError>)
  {
    match ColumnIndex(t.columns, oldName)
    case None => Missing(ctx, ColumnNotExistsError(oldName, t.name), t)
    case Some(i) =>
      var rest := ShiftDown(RemoveAt(t.columns, i), t.columns[i].position);
      var where := if position.PositionNone? then SamePosition(rest, t.columns[i].position) else position;
      var t1 :- AddColumnToTable(t.(columns := rest), def, where, ctx);
      Success(t1.(indexes := RenameKeyInIndexes(t1.indexes, oldName, def.name)))
  }

  function RenameColumnInTable(t: Table, oldName: string, newName: string, ctx: FinderContext)
    : (r: Result<Table, WalkThroughError>)
  {
    match ColumnIndex(t.columns, oldName)
    case None => Missing(ctx, ColumnNotExistsError(oldName, t.name), t)
    case Some(i) =>
      if newName != oldName && ColumnIndex(t.columns, newName).Some? then Failure(ColumnExistsError(newName, t.name))
      else Success(t.(columns := t.columns[i := t.columns[i].(name := newName)],
                      indexes := RenameKeyInIndexes(t.indexes, oldName, newName)))
  }

  function SetColumnDefaultInTable(t: Table, name: string, value: Option<string>, ctx: FinderContext)
    : (r: Result<Table, WalkThroughError>)
  {
    match ColumnIndex(t.columns, name)
    case None => Missing(ctx, ColumnNotExistsError(name, t.name), t)
    case Some(i) => Success(t.(columns := t.columns[i := t.columns[i].(default := value)]))
  }

  function DropIndexFromTable(t: Table, name: string, ctx: FinderContext): (r: Result<Table, WalkThroughError>)
  {
    match IndexIndex(t.indexes, name)
    case None => Missing(ctx, IndexNotExistsError(name, t.name), t)
    case Some(i) => Success(t.(indexes := RemoveAt(t.indexes, i)))
  }

  function RenameIndexInTable(t: Table, oldName: string, newName: string, ctx: FinderContext)
    : (r: Result<Table, WalkThroughError>)
  {
    if oldName == PrimaryKeyName || newName == PrimaryKeyName then
      Failure(WalkThroughError(IncorrectIndexName,
        "Incorrect index name " + Quoted(if oldName == PrimaryKeyName then oldName else newName)))
    else match IndexIndex(t.indexes, oldName)
      case None => Missing(ctx, IndexNotExistsError(oldName, t.name), t)
      case Some(i) =>
        if newName != oldName && IndexIndex(t.indexes, newName).Some? then Failure(IndexExistsError(newName, t.name))
        else Success(t.(indexes := t.indexes[i := t.indexes[i].(name := newName)]))
  }

  function SetIndexVisibilityInTable(t: Table, name: string, visible: bool, ctx: FinderContext)
    : (r: Result<Table, WalkThroughError>)
  {
    match IndexIndex(t.indexes, name)
    case None => Missing(ctx, IndexNotExistsError(name, t.name), t)
    case Some(i) => Success(t.(indexes := t.indexes[i := t.indexes[i].(visible := visible)]))
  }

  function SetTableOptionsOnTable(t: Table, options: seq<TableOption>): (r: Table)
    decreases |options|
  {
    if |options| == 0 then t
    else
      var t1 := match options[0]
        case CollateTableOption(c) => t.(collation := c)
        case EngineTableOption(e) => t.(engine := e)
        case CommentTableOption(c) => t.(comment := c);
      SetTableOptionsOnTable(t1, options[1..])
  }

  /** Every clause but RENAME TO, which acts on the schema. */
  function ApplySpecToTable(t: Table, spec: AlterSpec, ctx: FinderContext): (r: Result<Table, WalkThroughError>)
    requires !spec.RenameTable?
  {
    match spec
    case SetTableOptions(options) => Success(SetTableOptionsOnTable(t, options))
    case AddColumn(def, position) => AddColumnToTable(t, def, position, ctx)
    case AddConstraint(c) => AddConstraintToTable(t, c, ctx)
    case DropColumn(name) => DropColumnFromTable(t, name, ctx)
    case DropPrimaryKey => DropIndexFromTable(t, PrimaryKeyName, ctx)
    case DropIndex(name) => DropIndexFromTable(t, name, ctx)
    case ModifyColumn(def, position) => ChangeColumnInTable(t, def.name, def, position, ctx)
    case ChangeColumn(oldName, def, position) => ChangeColumnInTable(t, oldName, def, position, ctx)
    case RenameColumn(oldName, newName) => RenameColumnInTable(t, oldName, newName, ctx)
    case SetColumnDefault(name, value) => SetColumnDefaultInTable(t, name, value, ctx)
    case RenameIndex(oldName, newName) => RenameIndexInTable(t, oldName, newName, ctx)
    case AlterIndexVisibility(name, visible) => SetIndexVisibilityInTable(t, name, visible, ctx)
  }

  // ---------------------------------------------------------------------------------------
  // Statements on the schema.
  // ---------------------------------------------------------------------------------------

  /** The schema after one handler, and the error it stopped at, if any. */
  datatype Step = Step(schema: Schema, error: Option<WalkThroughError>)

  function BuildColumns(t: Table, columns: seq<ColumnDef>, ctx: FinderContext): (r: Result<Table, WalkThroughError>)
    decreases |columns|
  {
    if |columns| == 0 then Success(t)
    else
      var t1 :- AddColumnToTable(t, columns[0], PositionNone, ctx);
      BuildColumns(t1, columns[1..], ctx)
  }

  function BuildConstraints(t: Table, constraints: seq<Constraint>, ctx: FinderContext): (r: Result<Table, WalkThroughError>)
    decreases |constraints|
  {
    if |constraints| == 0 then Success(t)
    else
      var t1 :- AddConstraintToTable(t, constraints[0], ctx);
      BuildConstraints(t1, constraints[1..], ctx)
  }

  /** The table a CREATE TABLE describes: columns in order, then its table-level clauses. */
  function BuildTable(name: string, columns: seq<ColumnDef>, constraints: seq<Constraint>, ctx: FinderContext)
    : (r: Result<Table, WalkThroughError>)
  {
    var t :- BuildColumns(Table(name, "", "", "", [], []), columns, ctx);
    BuildConstraints(t, constraints, ctx)
  }

  function CreateTableInSchema(s: Schema, name: string, columns: seq<ColumnDef>, constraints: seq<Constraint>, ctx: FinderContext)
    : (r: Step)
  {
    if TableIndex(s.tables, name).Some? then Step(s, Some(TableExistsError(name)))
    else match BuildTable(name, columns, constraints, ctx)
      case Failure(e) => Step(s, Some(e))
      case Success(t) => Step(s.(tables := s.tables + [t]), None)
  }

  /** Drops the named tables left to right; under integrity checking the first missing one stops it. */
  function DropTablesFromSchema(s: Schema, names: seq<string>, ctx: FinderContext): (r: Step)
    decreases |names|
  {
    if |names| == 0 then Step(s, None)
    else match TableIndex(s.tables, names[0])
      case None =>
        if ctx.checkIntegrity then Step(s, Some(TableNotExistsError(names[0])))
        else DropTablesFromSchema(s, names[1..], ctx)
      case Some(i) => DropTablesFromSchema(s.(tables := RemoveAt(s.tables, i)), names[1..], ctx)
  }

  /** One ALTER TABLE clause on the table currently called `name`; yields the table's name after it. */
  function ApplySpec(s: Schema, name: string, spec: AlterSpec, ctx: FinderContext)
    : (r: Result<(Schema, string), WalkThroughError>)
  {
    match TableIndex(s.tables, name)
    case None => Failure(TableNotExistsError(name))
    case Some(i) =>
      if spec.RenameTable? then
        if spec.newName == name then Success((s, name))
        else if TableIndex(s.tables, spec.newName).Some? then Failure(TableExistsError(spec.newName))
        else Success((s.(tables := s.tables[i := s.tables[i].(name := spec.newName)]), spec.newName))
      else
        var t :- ApplySpecToTable(s.tables[i], spec, ctx);
        Success((s.(tables := s.tables[i := t]), name))
  }

  /** The clauses of one ALTER TABLE, left to right, each seeing the previous ones' effect. */
  function ApplySpecs(s: Schema, name: string, specs: seq<AlterSpec>, ctx: FinderContext): (r: Step)
    decreases |specs|
  {
    if |specs| == 0 then Step(s, None)
    else match ApplySpec(s, name, specs[0], ctx)
      case Failure(e) => Step(s, Some(e))
      case Success(next) => ApplySpecs(next.0, next.1, specs[1..], ctx)
  }

  function AlterTableInSchema(s: Schema, name: string, specs: seq<AlterSpec>, ctx: FinderContext): (r: Step)
  {
    if TableIndex(s.tables, name).None? then
      Step(s, if ctx.checkIntegrity then Some(TableNotExistsError(name)) else None)
    else ApplySpecs(s, name, specs, ctx)
  }

  /** The clause a standalone CREATE INDEX amounts to. */
  function IndexClause(indexName: string, kind: IndexKind, keys: seq<KeyPart>, options: IndexOptions): (c: Constraint)
  {
    var k := match kind
      case PlainIndex => IndexConstraint
      case UniqueIndex => UniqueConstraint
      case FulltextIndex => FulltextConstraint;
    Constraint(k, indexName, keys, options)
  }

  /** Applies `f` to the named table: a missing table is an error under integrity checking, else a no-op. */
  function OnTable(s: Schema, name: string, ctx: FinderContext, f: Table -> Result<Table, WalkThroughError>): (r: Step)
  {
    match TableIndex(s.tables, name)
    case None => Step(s, if ctx.checkIntegrity then Some(TableNotExistsError(name)) else None)
    case Some(i) =>
      match f(s.tables[i])
      case Failure(e) => Step(s, Some(e))
      case Success(t) => Step(s.(tables := s.tables[i := t]), None)
  }

  /** Dispatch on the statement kind. */
  function ApplyStmt(s: Schema, stmt: Stmt, ctx: FinderContext): (r: Step)
  {
    match stmt
    case CreateTable(name, columns, constraints) => CreateTableInSchema(s, name, columns, constraints, ctx)
    case AlterTable(name, specs) => AlterTableInSchema(s, name, specs, ctx)
    case DropTable(names) => DropTablesFromSchema(s, names, ctx)
    case CreateIndex(indexName, tableName, kind, keys, options) =>
      OnTable(s, tableName, ctx, t => AddConstraintToTable(t, IndexClause(indexName, kind, keys, options), ctx))
    case DropIndexStmt(indexName, tableName) =>
      OnTable(s, tableName, ctx, t => DropIndexFromTable(t, indexName, ctx))
    case Unsupported(description) =>
      Step(s, Some(WalkThroughError(UnsupportedStatement, "Unsupported statement: " + description)))
  }

  /** The walk's result: the state reached and, when it stopped early, the error it stopped at. */
  datatype Outcome = Outcome(state: DatabaseState, error: Option<WalkThroughError>)

  /** Applies the statements in order, stopping at the first error. */
  function Walk(d: DatabaseState, stmts: seq<Stmt>, ctx: FinderContext): (r: Outcome)
    decreases |stmts|
  {
    if |stmts| == 0 then Outcome(d, None)
    else
      var step := ApplyStmt(d.schema, stmts[0], ctx);
      if step.error.Some? then Outcome(d.(schema := step.schema), step.error)
      else Walk(d.(schema := step.schema), stmts[1..], ctx)
  }
}
