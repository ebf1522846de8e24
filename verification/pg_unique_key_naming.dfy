/**
 * The PostgreSQL review rule for unique-key names: which statements name a unique key, the
 * metadata its naming template is filled with (the key's column list and table), the advice
 * each such key draws (internal error, pattern mismatch, over-long name), and the single OK
 * advice when no key draws any.
 *
 * The catalog lookup, the schema-name normalisation, the template-to-regexp compilation and
 * the regexp match live outside this rule; they are parameters here.
 */
module PgUniqueKeyNaming {
  import opened Wrappers
  import Text

  // ---------------------------------------------------------------------------------------
  // Statements, as the parser hands them over.
  // ---------------------------------------------------------------------------------------

  datatype TableName = TableName(schema: string, name: string)

  datatype ConstraintType =
    | PrimaryKey | PrimaryKeyUsingIndex | Unique | UniqueUsingIndex | ForeignKey | CheckConstraint
    | NotNull | Null | Default | Exclusion

  /** A table- or column-level constraint; `indexName` is set for the USING INDEX forms. */
  datatype ConstraintDef = ConstraintDef(ctype: ConstraintType, name: string, keyList: seq<string>, indexName: string)

  datatype ColumnDef = ColumnDef(name: string, constraintList: seq<ConstraintDef>)

  datatype IndexDef = IndexDef(name: string, table: TableName, unique: bool, keyList: seq<string>)

  /**
   * A syntax-tree node the walk reaches, with that node's own text.  The nodes are given as one
   * flat list in walk order, so the items nested in an ALTER TABLE statement (ADD CONSTRAINT,
   * ADD COLUMN) appear as nodes of their own.  Nodes this rule ignores are `OtherStmt`.
   */
  datatype Node =
    | CreateTableStmt(text: string, name: TableName, columnList: seq<ColumnDef>, constraintList: seq<ConstraintDef>)
    | AddConstraintStmt(text: string, table: TableName, constraint: ConstraintDef)
    | AddColumnListStmt(text: string, table: TableName, columnList: seq<ColumnDef>)
    | CreateIndexStmt(text: string, index: IndexDef)
    | RenameConstraintStmt(text: string, table: TableName, constraintName: string, newName: string)
    | RenameIndexStmt(text: string, table: TableName, indexName: string, newName: string)
    | OtherStmt(text: string)

  // ---------------------------------------------------------------------------------------
  // The catalog the rule consults.
  // ---------------------------------------------------------------------------------------

  datatype CatalogIndex = CatalogIndex(name: string, expressions: seq<string>, unique: bool, primary: bool)

  datatype IndexFind = IndexFind(schemaName: string, tableName: string, indexName: string)

  /** The table an index lookup settled on, and the indexes found (empty when none). */
  datatype FoundIndex = FoundIndex(tableName: string, indexList: seq<CatalogIndex>)

  datatype Catalog = Catalog(findIndex: IndexFind -> FoundIndex, normalizeSchemaName: string -> string)

  /** A catalog lookup of index `indexName`, with the schema name normalised first. */
  function FindIndex(cat: Catalog, schemaName: string, tableName: string, indexName: string): FoundIndex
  {
    cat.findIndex(IndexFind(cat.normalizeSchemaName(schemaName), tableName, indexName))
  }

  /** Every expression of the found indexes, in order. */
  function Expressions(indexList: seq<CatalogIndex>): seq<string>
    decreases |indexList|
  {
    if |indexList| == 0 then [] else indexList[0].expressions + Expressions(indexList[1..])
  }

  /** The column list of found indexes: all their expressions joined with `sep`. */
  function JoinColumnListForIndex(indexList: seq<CatalogIndex>, sep: string): string
  {
    Text.Join(Expressions(indexList), sep)
  }

  // ---------------------------------------------------------------------------------------
  // Template metadata.
  // ---------------------------------------------------------------------------------------

  /** The placeholders a naming template may use. */
  datatype Token = ColumnListToken | TableNameToken

  type MetaData = map<Token, string>

  /** A unique key to check: its name, the table reported in advice, and the template values. */
  datatype IndexMetaData = IndexMetaData(indexName: string, tableName: string, metaData: MetaData)

  function TemplateValues(columnList: string, tableName: string): (m: MetaData)
    ensures m.Keys == {ColumnListToken, TableNameToken}
    ensures m[ColumnListToken] == columnList && m[TableNameToken] == tableName
  {
    map[ColumnListToken := columnList, TableNameToken := tableName]
  }

  /**
   * The metadata of a constraint declared on `tableName`: a UNIQUE constraint gives its own
   * name and key list; UNIQUE USING INDEX gives its name with the found index's columns and
   * table when the index exists; any other constraint gives nothing.
   */
  function UniqueKeyMetadata(cat: Catalog, schemaName: string, tableName: string, c: ConstraintDef): (r: Option<IndexMetaData>)
    ensures r.Some? <==>
      c.ctype == Unique || (c.ctype == UniqueUsingIndex && |FindIndex(cat, schemaName, tableName, c.indexName).indexList| != 0)
    ensures r.Some? ==> r.value.indexName == c.name
    ensures r.Some? ==> r.value.metaData.Keys == {ColumnListToken, TableNameToken}
    ensures r.Some? ==> r.value.metaData[TableNameToken] == r.value.tableName
    ensures r.Some? && c.ctype == Unique ==>
      r.value.tableName == tableName && r.value.metaData[ColumnListToken] == Text.Join(c.keyList, "_")
    ensures r.Some? && c.ctype == UniqueUsingIndex ==>
      var found := FindIndex(cat, schemaName, tableName, c.indexName);
      r.value.tableName == found.tableName
      && r.value.metaData[ColumnListToken] == JoinColumnListForIndex(found.indexList, "_")
  {
    match c.ctype
    case Unique =>
      Some(IndexMetaData(c.name, tableName, TemplateValues(Text.Join(c.keyList, "_"), tableName)))
    case UniqueUsingIndex =>
      var found := FindIndex(cat, schemaName, tableName, c.indexName);
      if |found.indexList| != 0 then
        Some(IndexMetaData(c.name, found.tableName, TemplateValues(JoinColumnListForIndex(found.indexList, "_"), found.tableName)))
      else None
    case _ => None
  }

  /** The metadata of every constraint in `cs` that has some, in order. */
  function Collect(cat: Catalog, schemaName: string, tableName: string, cs: seq<ConstraintDef>): (r: seq<IndexMetaData>)
    ensures |r| <= |cs|
    ensures forall i :: 0 <= i < |r| ==>
      r[i].metaData.Keys == {ColumnListToken, TableNameToken} && r[i].metaData[TableNameToken] == r[i].tableName
    decreases |cs|
  {
    if |cs| == 0 then []
    else
      var head := UniqueKeyMetadata(cat, schemaName, tableName, cs[0]);
      (if head.Some? then [head.value] else []) + Collect(cat, schemaName, tableName, cs[1..])
  }

  /** The constraints of all columns, column by column. */
  function ColumnConstraints(columns: seq<ColumnDef>): seq<ConstraintDef>
    decreases |columns|
  {
    if |columns| == 0 then [] else columns[0].constraintList + ColumnConstraints(columns[1..])
  }

  /** The unique keys a statement names or renames, with their template values. */
  function MetaDataList(cat: Catalog, node: Node): (r: seq<IndexMetaData>)
    ensures forall i :: 0 <= i < |r| ==> r[i].metaData.Keys == {ColumnListToken, TableNameToken}
    ensures node.OtherStmt? ==> r == []
    ensures node.AddConstraintStmt? || node.CreateIndexStmt? || node.RenameConstraintStmt? || node.RenameIndexStmt? ==>
      |r| <= 1
    ensures node.CreateIndexStmt? ==>
      (r != [] <==> node.index.unique)
      && (r != [] ==> r[0].indexName == node.index.name && r[0].tableName == node.index.table.name
                      && r[0].metaData[ColumnListToken] == Text.Join(node.index.keyList, "_"))
    ensures node.RenameConstraintStmt? ==>
      var found := FindIndex(cat, node.table.schema, node.table.name, node.constraintName);
      (r != [] <==> |found.indexList| != 0 && found.indexList[0].unique && !found.indexList[0].primary)
      && (r != [] ==> r[0].indexName == node.newName && r[0].tableName == node.table.name
                      && r[0].metaData[TableNameToken] == found.tableName)
    ensures node.RenameIndexStmt? ==>
      var found := FindIndex(cat, node.table.schema, "", node.indexName);
      (r != [] <==> |found.indexList| != 0 && found.indexList[0].unique && !found.indexList[0].primary)
      && (r != [] ==> r[0].indexName == node.newName && r[0].tableName == found.tableName
                      && r[0].metaData[TableNameToken] == found.tableName)
  {
    match node
    case CreateTableStmt(_, name, columns, constraints) =>
      Collect(cat, name.schema, name.name, constraints)
      + Collect(cat, name.schema, name.name, ColumnConstraints(columns))
    case AddConstraintStmt(_, table, c) =>
      var m := UniqueKeyMetadata(cat, table.schema, table.name, c);
      if m.Some? then [m.value] else []
    case AddColumnListStmt(_, table, columns) =>
      Collect(cat, table.schema, table.name, ColumnConstraints(columns))
    case CreateIndexStmt(_, index) =>
      if index.unique then
        [IndexMetaData(index.name, index.table.name, TemplateValues(Text.Join(index.keyList, "_"), index.table.name))]
      else []
    case RenameConstraintStmt(_, table, constraintName, newName) =>
      var found := FindIndex(cat, table.schema, table.name, constraintName);
      if |found.indexList| != 0 && found.indexList[0].unique && !found.indexList[0].primary then
        [IndexMetaData(newName, table.name, TemplateValues(JoinColumnListForIndex(found.indexList, "_"), found.tableName))]
      else []
    case RenameIndexStmt(_, table, indexName, newName) =>
      // ALTER INDEX ... RENAME TO names no table, so the lookup is by schema and index only.
      var found := FindIndex(cat, table.schema, "", indexName);
      if |found.indexList| != 0 && found.indexList[0].unique && !found.indexList[0].primary then
        [IndexMetaData(newName, found.tableName, TemplateValues(JoinColumnListForIndex(found.indexList, "_"), found.tableName))]
      else []
    case OtherStmt(_) => []
  }

  // ---------------------------------------------------------------------------------------
  // Advice.
  // ---------------------------------------------------------------------------------------

  datatype Status = Success | Warn | Error

  datatype Code = Ok | Internal | NamingUKConventionMismatch

  datatype Advice = Advice(status: Status, code: Code, title: string, content: string)

  /**
   * The decoded rule: the level its advice carries, its title, the naming template and its
   * placeholders, the length limit (none when not positive), and the regexp machinery, which
   * compiles a template filled with metadata into a pattern or an error message.
   */
  datatype Rule = Rule(
    level: Status,
    title: string,
    format: string,
    templateList: seq<string>,
    maxLength: int,
    templateRegexp: (string, seq<string>, MetaData) -> Result<string, string>,
    matchString: (string, string) -> bool)

  /** A Go `%q` rendering, for text without quotes, backslashes or control characters. */
  function Quoted(s: string): string
  {
    "\"" + s + "\""
  }

  const InternalTitle: string := "Internal error for unique key naming convention rule"

  function InternalAdvice(rule: Rule, text: string, err: string): Advice
  {
    Advice(rule.level, Internal, InternalTitle, Quoted(text) + " meet internal error " + Quoted(err))
  }

  function PatternMismatchAdvice(rule: Rule, md: IndexMetaData, pattern: string): Advice
  {
    Advice(rule.level, NamingUKConventionMismatch, rule.title,
      "Unique key in table \"" + md.tableName + "\" mismatches the naming convention, expect "
      + Quoted(pattern) + " but found \"" + md.indexName + "\"")
  }

  function LengthAdvice(rule: Rule, md: IndexMetaData): Advice
    requires rule.maxLength > 0
  {
    Advice(rule.level, NamingUKConventionMismatch, rule.title,
      "Unique key \"" + md.indexName + "\" in table \"" + md.tableName
      + "\" mismatches the naming convention, its length should be within "
      + Text.NatToString(rule.maxLength as nat) + " characters")
  }

  predicate TooLong(rule: Rule, name: string)
  {
    rule.maxLength > 0 && |name| > rule.maxLength
  }

  /**
   * The advice one unique key draws: an internal error alone when the template does not
   * compile; otherwise a mismatch when the name does not match the pattern, then one more
   * when it is longer than a positive length limit.
   */
  function KeyAdvice(rule: Rule, text: string, md: IndexMetaData): (r: seq<Advice>)
    ensures rule.templateRegexp(rule.format, rule.templateList, md.metaData).Failure? ==>
      r == [InternalAdvice(rule, text, rule.templateRegexp(rule.format, rule.templateList, md.metaData).error)]
    ensures |r| <= 2
    ensures forall i :: 0 <= i < |r| ==> r[i].status == rule.level && r[i].code != Ok
  {
    match rule.templateRegexp(rule.format, rule.templateList, md.metaData)
    case Failure(err) => [InternalAdvice(rule, text, err)]
    case Success(pattern) =>
      (if !rule.matchString(pattern, md.indexName) then [PatternMismatchAdvice(rule, md, pattern)] else [])
      + (if TooLong(rule, md.indexName) then [LengthAdvice(rule, md)] else [])
  }

  /** The advice of every key in `mds`, in order. */
  function KeysAdvice(rule: Rule, text: string, mds: seq<IndexMetaData>): (r: seq<Advice>)
    ensures forall i :: 0 <= i < |r| ==> r[i].status == rule.level && r[i].code != Ok
    decreases |mds|
  {
    if |mds| == 0 then [] else KeyAdvice(rule, text, mds[0]) + KeysAdvice(rule, text, mds[1..])
  }

  /** The advice one statement draws. */
  function Visit(rule: Rule, cat: Catalog, node: Node): (r: seq<Advice>)
    ensures forall i :: 0 <= i < |r| ==> r[i].status == rule.level && r[i].code != Ok
  {
    KeysAdvice(rule, node.text, MetaDataList(cat, node))
  }

  /** The advice of every statement, statement by statement. */
  function VisitAll(rule: Rule, cat: Catalog, root: seq<Node>): (r: seq<Advice>)
    ensures forall i :: 0 <= i < |r| ==> r[i].status == rule.level && r[i].code != Ok
    decreases |root|
  {
    if |root| == 0 then [] else Visit(rule, cat, root[0]) + VisitAll(rule, cat, root[1..])
  }

  const OkAdvice: Advice := Advice(Status.Success, Ok, "OK", "")

  /** The rule's verdict on parsed statements: their advice, or the single OK advice when there is none. */
  function Check(rule: Rule, cat: Catalog, root: seq<Node>): (r: seq<Advice>)
    ensures |r| >= 1
    ensures forall i :: 0 <= i < |r| && r[i].code == Ok ==> r == [OkAdvice]
  {
    var advice := VisitAll(rule, cat, root);
    if |advice| == 0 then [OkAdvice] else advice
  }
}
