/**
 * What the walk-through promises statement by statement: the layout CREATE TABLE produces,
 * the primary-key and not-null rules, the equivalence of CREATE INDEX with the inline
 * clause, the two faces of DROP TABLE, and the effect of each ALTER TABLE clause.
 */
module WalkThroughProperties {
  import opened Wrappers
  import opened Catalog
  import opened WalkThrough
  import WalkThroughInvariants

  // ---------------------------------------------------------------------------------------
  // CREATE TABLE.
  // ---------------------------------------------------------------------------------------

  /** The columns a list of definitions appends, numbered on from `after`. */
  function Appended(defs: seq<ColumnDef>, after: nat): (r: seq<Column>)
    ensures |r| == |defs|
  {
    seq(|defs|, i requires 0 <= i < |defs| => NewColumn(defs[i], after + i + 1))
  }

  lemma AddInlineIndexesKeepsColumns(t: Table, column: string, options: seq<ColumnOption>)
    requires AddInlineIndexes(t, column, options).Success?
    ensures AddInlineIndexes(t, column, options).value.columns == t.columns
    decreases |options|
  {
    if |options| > 0 {
      var t1 := match options[0]
        case PrimaryKeyOption => AddPrimaryKeyToTable(t, [column], DefaultIndexType)
        case UniqueKeyOption => AddIndexToTable(t, "", [column], true, DefaultIndexType, true)
        case _ => Success(t);
      AddInlineIndexesKeepsColumns(t1.value, column, options[1..]);
    }
  }

  /** A column's inline PRIMARY KEY and UNIQUE options only append indexes over that column. */
  lemma {:induction false} AddInlineIndexesAppends(t: Table, column: string, options: seq<ColumnOption>)
    requires AddInlineIndexes(t, column, options).Success?
    ensures var r := AddInlineIndexes(t, column, options).value;
      && |r.indexes| >= |t.indexes| && r.indexes[..|t.indexes|] == t.indexes
      && forall x :: |t.indexes| <= x < |r.indexes| ==> r.indexes[x].expressions == [column]
    decreases |options|
  {
    if |options| > 0 {
      var t1 := match options[0]
        case PrimaryKeyOption => AddPrimaryKeyToTable(t, [column], DefaultIndexType)
        case UniqueKeyOption => AddIndexToTable(t, "", [column], true, DefaultIndexType, true)
        case _ => Success(t);
      AddInlineIndexesAppends(t1.value, column, options[1..]);
      var r := AddInlineIndexes(t, column, options).value;
      assert r == AddInlineIndexes(t1.value, column, options[1..]).value;
      assert r.indexes[..|t1.value.indexes|][..|t.indexes|] == r.indexes[..|t.indexes|];
    }
  }

  /** A column added without a position goes last, at the next position. */
  lemma AddColumnAppends(t: Table, def: ColumnDef, ctx: FinderContext)
    requires AddColumnToTable(t, def, PositionNone, ctx).Success?
    ensures AddColumnToTable(t, def, PositionNone, ctx).value.columns == t.columns + [NewColumn(def, |t.columns| + 1)]
  {
    var t0 := t.(columns := t.columns + [NewColumn(def, |t.columns| + 1)]);
    AddInlineIndexesKeepsColumns(t0, def.name, def.options);
  }

  lemma AppendedFirst(defs: seq<ColumnDef>, after: nat)
    requires |defs| > 0
    ensures Appended(defs, after) == [NewColumn(defs[0], after + 1)] + Appended(defs[1..], after + 1)
  {
  }

  /** The column list of CREATE TABLE: the definitions in order, at positions 1, 2, 3, ... */
  lemma {:induction false} BuildColumnsAppends(t: Table, defs: seq<ColumnDef>, ctx: FinderContext)
    requires BuildColumns(t, defs, ctx).Success?
    ensures BuildColumns(t, defs, ctx).value.columns == t.columns + Appended(defs, |t.columns|)
    decreases |defs|
  {
    if |defs| > 0 {
      AddColumnAppends(t, defs[0], ctx);
      var t1 := AddColumnToTable(t, defs[0], PositionNone, ctx).value;
      BuildColumnsAppends(t1, defs[1..], ctx);
      AppendedFirst(defs, |t.columns|);
      assert t1.columns + Appended(defs[1..], |t1.columns|) == t.columns + Appended(defs, |t.columns|);
    }
  }

  /** A table-level clause changes no column except, for a primary key, its nullability. */
  lemma ConstraintKeepsLayout(t: Table, c: Constraint, ctx: FinderContext)
    requires AddConstraintToTable(t, c, ctx).Success?
    ensures var t1 := AddConstraintToTable(t, c, ctx).value;
      |t1.columns| == |t.columns| && forall k :: 0 <= k < |t.columns| ==>
        t1.columns[k] == t.columns[k].(nullable := t1.columns[k].nullable)
  {
    var t1 := AddConstraintToTable(t, c, ctx).value;
    if c.kind.PrimaryKeyConstraint? {
      var keys := ResolveKeys(t, c.keys, ctx).value;
      var marked := MarkNotNull(t.columns, c.keys);
      assert t1 == AddPrimaryKeyToTable(t.(columns := marked), keys, IndexTypeOf(c.options)).value;
      assert t1.columns == marked;
    } else if c.kind.IndexConstraint? || c.kind.UniqueConstraint? || c.kind.FulltextConstraint? {
      var keys := ResolveKeys(t, c.keys, ctx).value;
      assert t1.columns == t.columns;
    }
  }

  lemma {:induction false} BuildConstraintsKeepsLayout(t: Table, constraints: seq<Constraint>, ctx: FinderContext)
    requires BuildConstraints(t, constraints, ctx).Success?
    ensures |BuildConstraints(t, constraints, ctx).value.columns| == |t.columns|
    ensures forall k :: 0 <= k < |t.columns| ==>
      BuildConstraints(t, constraints, ctx).value.columns[k]
        == t.columns[k].(nullable := BuildConstraints(t, constraints, ctx).value.columns[k].nullable)
    decreases |constraints|
  {
    if |constraints| > 0 {
      ConstraintKeepsLayout(t, constraints[0], ctx);
      var t1 := AddConstraintToTable(t, constraints[0], ctx).value;
      BuildConstraintsKeepsLayout(t1, constraints[1..], ctx);
    }
  }

  /**
   * A successful CREATE TABLE appends one table whose columns carry the declared names, in
   * declaration order, at positions 1..N; the tables already there are untouched.
   */
  lemma CreateTablePositions(s: Schema, name: string, defs: seq<ColumnDef>, constraints: seq<Constraint>, ctx: FinderContext)
    requires CreateTableInSchema(s, name, defs, constraints, ctx).error.None?
    ensures var tables := CreateTableInSchema(s, name, defs, constraints, ctx).schema.tables;
      && |tables| == |s.tables| + 1 && tables[..|s.tables|] == s.tables
      && var t := tables[|s.tables|];
         && t.name == name && |t.columns| == |defs|
         && forall i :: 0 <= i < |defs| ==> t.columns[i].name == defs[i].name && t.columns[i].position == i + 1
  {
    var empty := Table(name, "", "", "", [], []);
    BuildColumnsAppends(empty, defs, ctx);
    var t0 := BuildColumns(empty, defs, ctx).value;
    BuildConstraintsKeepsLayout(t0, constraints, ctx);
    WalkThroughInvariants.BuildColumnsKeepsWellFormed(empty, defs, ctx);
    WalkThroughInvariants.BuildConstraintsKeepsWellFormed(t0, constraints, ctx);
  }

  // ---------------------------------------------------------------------------------------
  // Nullability of a column definition.
  // ---------------------------------------------------------------------------------------

  predicate ClearsNull(o: ColumnOption)
  {
    o.PrimaryKeyOption? || o.NotNullOption? || o.AutoIncrementOption?
  }

  lemma {:induction false} NullableAfterKeepsWithoutClearing(options: seq<ColumnOption>, nullable: bool, explicitNull: bool)
    requires forall i :: 0 <= i < |options| ==> !options[i].NotNullOption?
    requires explicitNull || forall i :: 0 <= i < |options| ==> !options[i].AutoIncrementOption?
    ensures NullableAfter(options, nullable, explicitNull) == (nullable || NullOption in options)
    decreases |options|
  {
    if |options| > 0 {
      NullableAfterKeepsWithoutClearing(options[1..], if options[0].NullOption? then true else nullable, explicitNull);
      assert NullOption in options <==> options[0] == NullOption || NullOption in options[1..];
    }
  }

  lemma {:induction false} NullableAfterClears(options: seq<ColumnOption>, nullable: bool)
    requires NullOption !in options
    requires exists i :: 0 <= i < |options| && (options[i].NotNullOption? || options[i].AutoIncrementOption?)
    ensures !NullableAfter(options, nullable, false)
    decreases |options|
  {
    if options[0].NotNullOption? || options[0].AutoIncrementOption? {
      NullableAfterStaysCleared(options[1..], false);
    } else {
      var i :| 0 <= i < |options| && (options[i].NotNullOption? || options[i].AutoIncrementOption?);
      assert options[1..][i - 1] == options[i];
      NullableAfterClears(options[1..], nullable);
    }
  }

  lemma {:induction false} NullableAfterStaysCleared(options: seq<ColumnOption>, explicitNull: bool)
    requires NullOption !in options
    ensures !NullableAfter(options, false, explicitNull)
    decreases |options|
  {
    if |options| > 0 {
      assert NullOption !in options[1..];
      NullableAfterStaysCleared(options[1..], explicitNull);
    }
  }

  /** Reading `a + b` is reading `a`, then reading `b` from where `a` left off. */
  lemma {:induction false} NullableAfterSplit(a: seq<ColumnOption>, b: seq<ColumnOption>, nullable: bool, explicitNull: bool)
    ensures NullableAfter(a + b, nullable, explicitNull) == NullableAfter(b, NullableAfter(a, nullable, explicitNull), explicitNull)
    decreases |a|
  {
    if |a| == 0 {
      assert a + b == b;
    } else {
      assert (a + b)[0] == a[0];
      assert (a + b)[1..] == a[1..] + b;
      var n := match a[0]
        case NotNullOption => false
        case NullOption => true
        case AutoIncrementOption => if explicitNull then nullable else false
        case _ => nullable;
      NullableAfterSplit(a[1..], b, n, explicitNull);
    }
  }

  /** Reading everything up to and including option `i`, which is NOT NULL or NULL, gives what `i` says. */
  lemma NullableAfterUpTo(options: seq<ColumnOption>, i: nat, explicitNull: bool)
    requires i < |options| && (options[i].NotNullOption? || options[i].NullOption?)
    ensures NullableAfter(options[..i + 1], true, explicitNull) == options[i].NullOption?
  {
    NullableAfterSplit(options[..i], [options[i]], true, explicitNull);
    assert options[..i + 1] == options[..i] + [options[i]];
    assert [options[i]][1..] == [];
  }

  /**
   * A column is nullable unless declared PRIMARY KEY, NOT NULL or AUTO_INCREMENT.  PRIMARY KEY
   * always makes it NOT NULL; otherwise the last of NOT NULL and NULL decides, and an explicit
   * NULL anywhere leaves an AUTO_INCREMENT column nullable.
   */
  lemma NullableRules(options: seq<ColumnOption>)
    ensures (forall i :: 0 <= i < |options| ==> !ClearsNull(options[i])) ==> Nullable(options)
    ensures NullOption !in options && (exists i :: 0 <= i < |options| && ClearsNull(options[i])) ==> !Nullable(options)
    ensures NullOption in options && (forall i :: 0 <= i < |options| ==> !options[i].PrimaryKeyOption? && !options[i].NotNullOption?)
      ==> Nullable(options)
    ensures PrimaryKeyOption in options ==> !Nullable(options)
    ensures forall i :: 0 <= i < |options| && options[i].NotNullOption? && NullOption !in options[i + 1..] ==>
              !Nullable(options)
    ensures PrimaryKeyOption !in options ==>
              forall i :: 0 <= i < |options| && options[i].NullOption? && NotNullOption !in options[i + 1..] ==>
                Nullable(options)
  {
    var e := NullOption in options;
    if forall i :: 0 <= i < |options| ==> !ClearsNull(options[i]) {
      NullableAfterKeepsWithoutClearing(options, true, e);
    }
    if NullOption !in options && PrimaryKeyOption !in options && exists i :: 0 <= i < |options| && ClearsNull(options[i]) {
      var i :| 0 <= i < |options| && ClearsNull(options[i]);
      assert options[i] != PrimaryKeyOption;
      NullableAfterClears(options, true);
    }
    if NullOption in options && forall i :: 0 <= i < |options| ==> !options[i].PrimaryKeyOption? && !options[i].NotNullOption? {
      NullableAfterKeepsWithoutClearing(options, true, true);
    }
    forall i | 0 <= i < |options| && options[i].NotNullOption? && NullOption !in options[i + 1..]
      ensures !Nullable(options)
    {
      NullableAfterUpTo(options, i, e);
      NullableAfterSplit(options[..i + 1], options[i + 1..], true, e);
      assert options == options[..i + 1] + options[i + 1..];
      NullableAfterStaysCleared(options[i + 1..], e);
    }
    forall i | PrimaryKeyOption !in options && 0 <= i < |options| && options[i].NullOption? && NotNullOption !in options[i + 1..]
      ensures Nullable(options)
    {
      NullableAfterUpTo(options, i, e);
      NullableAfterSplit(options[..i + 1], options[i + 1..], true, e);
      assert options == options[..i + 1] + options[i + 1..];
      assert options[i] in options;
      NullableAfterKeepsWithoutClearing(options[i + 1..], true, true);
    }
  }

  // ---------------------------------------------------------------------------------------
  // Primary keys.
  // ---------------------------------------------------------------------------------------

  /** The indexes of a table that are primary. */
  function PrimaryIndexes(indexes: seq<Index>): (r: set<nat>)
  {
    set i | 0 <= i < |indexes| && indexes[i].primary
  }

  /**
   * In a well-formed table at most one index is primary, and it is the one named PRIMARY.
   */
  lemma AtMostOnePrimary(t: Table)
    requires WellFormedTable(t)
    ensures |PrimaryIndexes(t.indexes)| <= 1
    ensures forall i :: i in PrimaryIndexes(t.indexes) ==> t.indexes[i].name == PrimaryKeyName && t.indexes[i].unique
  {
    var p := PrimaryIndexes(t.indexes);
    if p != {} {
      var i :| i in p;
      forall j | j in p
        ensures j == i
      {
        assert t.indexes[j].name == t.indexes[i].name;
      }
      assert p == {i};
    }
  }

  /**
   * PRIMARY KEY (k1, k2, ...) adds the single primary index, named PRIMARY, unique, visible,
   * over exactly the listed keys, and makes each listed column NOT NULL; every other column
   * keeps its nullability.
   */
  lemma AddPrimaryKeyProperties(t: Table, c: Constraint, ctx: FinderContext)
    requires WellFormedTable(t) && c.kind.PrimaryKeyConstraint?
    requires AddConstraintToTable(t, c, ctx).Success?
    ensures var r := AddConstraintToTable(t, c, ctx).value;
      && r == t.(columns := r.columns, indexes := r.indexes)
      && |r.indexes| == |t.indexes| + 1 && r.indexes[..|t.indexes|] == t.indexes
      && PrimaryIndexes(r.indexes) == {|t.indexes|}
      && (var pk := r.indexes[|t.indexes|];
          && pk.name == PrimaryKeyName && pk.unique && pk.visible
          && |pk.expressions| == |c.keys| && (forall i :: 0 <= i < |c.keys| ==> pk.expressions[i] == KeyText(c.keys[i])))
      && |r.columns| == |t.columns|
      && forall k :: 0 <= k < |t.columns| ==>
           && r.columns[k] == t.columns[k].(nullable := r.columns[k].nullable)
           && r.columns[k].nullable == (t.columns[k].nullable && KeyColumn(t.columns[k].name) !in c.keys)
  {
    var r := AddConstraintToTable(t, c, ctx).value;
    forall i | 0 <= i < |t.indexes|
      ensures !t.indexes[i].primary
    {
      assert t.indexes[i].name in IndexNames(t.indexes);
    }
    forall i | 0 <= i < |t.indexes|
      ensures !r.indexes[i].primary
    {
      assert r.indexes[i] == t.indexes[i];
    }
    assert PrimaryIndexes(r.indexes) == {|t.indexes|};
  }

  // ---------------------------------------------------------------------------------------
  // CREATE INDEX and DROP INDEX are the ALTER TABLE clauses.
  // ---------------------------------------------------------------------------------------

  /** CREATE [UNIQUE|FULLTEXT] INDEX n ON t (...) acts as ALTER TABLE t ADD that index. */
  lemma CreateIndexIsAlterAdd(s: Schema, indexName: string, tableName: string, kind: IndexKind, keys: seq<KeyPart>,
                              options: IndexOptions, ctx: FinderContext)
    ensures ApplyStmt(s, CreateIndex(indexName, tableName, kind, keys, options), ctx)
         == ApplyStmt(s, AlterTable(tableName, [AddConstraint(IndexClause(indexName, kind, keys, options))]), ctx)
  {
    var c := IndexClause(indexName, kind, keys, options);
    match TableIndex(s.tables, tableName)
    case None =>
    case Some(i) =>
      var spec := AddConstraint(c);
      assert [spec][1..] == [];
      match AddConstraintToTable(s.tables[i], c, ctx)
      case Failure(e) =>
        assert ApplySpec(s, tableName, spec, ctx) == Failure(e);
      case Success(t) =>
        var s1 := s.(tables := s.tables[i := t]);
        assert ApplySpec(s, tableName, spec, ctx) == Success((s1, tableName));
        assert ApplySpecs(s1, tableName, [], ctx) == Step(s1, None);
  }

  /** DROP INDEX n ON t acts as ALTER TABLE t DROP INDEX n. */
  lemma DropIndexIsAlterDrop(s: Schema, indexName: string, tableName: string, ctx: FinderContext)
    ensures ApplyStmt(s, DropIndexStmt(indexName, tableName), ctx)
         == ApplyStmt(s, AlterTable(tableName, [DropIndex(indexName)]), ctx)
  {
    match TableIndex(s.tables, tableName)
    case None =>
    case Some(i) =>
      var spec := DropIndex(indexName);
      assert [spec][1..] == [];
      match DropIndexFromTable(s.tables[i], indexName, ctx)
      case Failure(e) =>
        assert ApplySpec(s, tableName, spec, ctx) == Failure(e);
      case Success(t) =>
        var s1 := s.(tables := s.tables[i := t]);
        assert ApplySpec(s, tableName, spec, ctx) == Success((s1, tableName));
        assert ApplySpecs(s1, tableName, [], ctx) == Step(s1, None);
  }

  /** The CREATE INDEX statement that states an index clause of table `table` on its own. */
  function IndexStatement(table: string, c: Constraint): (r: Stmt)
    requires IsIndexClause(c)
    ensures r.CreateIndex? && r.tableName == table
    ensures ApplyStmt(Schema("", [], [], []), r, FinderContext(true)).error == Some(TableNotExistsError(table))
  {
    var kind := if c.kind.IndexConstraint? then PlainIndex else if c.kind.UniqueConstraint? then UniqueIndex else FulltextIndex;
    CreateIndex(c.name, table, kind, c.keys, c.options)
  }

  predicate IsIndexClause(c: Constraint)
  {
    c.kind.IndexConstraint? || c.kind.UniqueConstraint? || c.kind.FulltextConstraint?
  }

  function IndexStatements(table: string, constraints: seq<Constraint>): (r: seq<Stmt>)
    requires forall i :: 0 <= i < |constraints| ==> IsIndexClause(constraints[i])
    ensures |r| == |constraints|
    ensures forall i :: 0 <= i < |r| ==> r[i] == IndexStatement(table, constraints[i])
  {
    seq(|constraints|, i requires 0 <= i < |constraints| => IndexStatement(table, constraints[i]))
  }

  lemma IndexStatementAddsClause(table: string, c: Constraint)
    requires IsIndexClause(c)
    ensures var st := IndexStatement(table, c);
      IndexClause(st.indexName, st.kind, st.keys, st.options) == c
  {
  }

  /** One index statement on the last table adds its clause to that table and touches nothing else. */
  lemma IndexStatementStep(s: Schema, pre: seq<Table>, t: Table, c: Constraint, ctx: FinderContext)
    requires IsIndexClause(c)
    requires s.tables == pre + [t]
    requires forall i :: 0 <= i < |pre| ==> pre[i].name != t.name
    requires AddConstraintToTable(t, c, ctx).Success?
    ensures ApplyStmt(s, IndexStatement(t.name, c), ctx)
         == Step(s.(tables := pre + [AddConstraintToTable(t, c, ctx).value]), None)
    ensures AddConstraintToTable(t, c, ctx).value.name == t.name
  {
    assert TableIndex(s.tables, t.name) == Some(|pre|) by {
      assert s.tables[|pre|].name == t.name;
    }
    IndexStatementAddsClause(t.name, c);
    assert (pre + [t])[|pre| := AddConstraintToTable(t, c, ctx).value] == pre + [AddConstraintToTable(t, c, ctx).value];
  }

  /** The index statements replayed on the freshly created last table add its clauses one by one. */
  lemma {:induction false} IndexStatementsReplay(d: DatabaseState, pre: seq<Table>, t: Table, cs: seq<Constraint>, ctx: FinderContext)
    requires forall i :: 0 <= i < |cs| ==> IsIndexClause(cs[i])
    requires d.schema.tables == pre + [t]
    requires forall i :: 0 <= i < |pre| ==> pre[i].name != t.name
    requires BuildConstraints(t, cs, ctx).Success?
    ensures Walk(d, IndexStatements(t.name, cs), ctx)
         == Outcome(d.(schema := d.schema.(tables := pre + [BuildConstraints(t, cs, ctx).value])), None)
    decreases |cs|
  {
    if |cs| == 0 {
      assert d.schema == d.schema.(tables := pre + [t]);
    } else {
      var stmts := IndexStatements(t.name, cs);
      var t1 := AddConstraintToTable(t, cs[0], ctx).value;
      IndexStatementStep(d.schema, pre, t, cs[0], ctx);
      var step := ApplyStmt(d.schema, stmts[0], ctx);
      assert stmts[1..] == IndexStatements(t1.name, cs[1..]);
      IndexStatementsReplay(d.(schema := step.schema), pre, t1, cs[1..], ctx);
    }
  }

  /**
   * Creating a table without its index clauses and then adding them with CREATE INDEX
   * statements gives the same state as the CREATE TABLE that lists them inline.
   */
  lemma CreateIndexMatchesInlineClauses(d: DatabaseState, name: string, defs: seq<ColumnDef>, cs: seq<Constraint>, ctx: FinderContext)
    requires forall i :: 0 <= i < |cs| ==> IsIndexClause(cs[i])
    requires DistinctTableNames(d.schema.tables)
    requires Walk(d, [CreateTable(name, defs, cs)], ctx).error.None?
    ensures Walk(d, [CreateTable(name, defs, [])] + IndexStatements(name, cs), ctx) == Walk(d, [CreateTable(name, defs, cs)], ctx)
  {
    var t0 := BuildColumns(Table(name, "", "", "", [], []), defs, ctx).value;
    WalkThroughInvariants.BuildColumnsKeepsWellFormed(Table(name, "", "", "", [], []), defs, ctx);
    var pre := d.schema.tables;
    var d1 := d.(schema := d.schema.(tables := pre + [t0]));
    assert ApplyStmt(d.schema, CreateTable(name, defs, []), ctx) == Step(d1.schema, None);
    var stmts := [CreateTable(name, defs, [])] + IndexStatements(name, cs);
    assert stmts[1..] == IndexStatements(t0.name, cs);
    IndexStatementsReplay(d1, pre, t0, cs, ctx);
  }

  // ---------------------------------------------------------------------------------------
  // DROP TABLE.
  // ---------------------------------------------------------------------------------------

  /** Removing one table keeps every other one and nothing else. */
  lemma RemoveTableMembership(tables: seq<Table>, i: nat)
    requires DistinctTableNames(tables) && i < |tables|
    ensures DistinctTableNames(RemoveAt(tables, i))
    ensures forall t :: t in RemoveAt(tables, i) <==> t in tables && t.name != tables[i].name
  {
    var r := RemoveAt(tables, i);
    forall a, b | 0 <= a < b < |r|
      ensures r[a].name != r[b].name
    {
      if b < i {
        assert r[a] == tables[a] && r[b] == tables[b];
      } else if a < i {
        assert r[a] == tables[a] && r[b] == tables[b + 1];
      } else {
        assert r[a] == tables[a + 1] && r[b] == tables[b + 1];
      }
    }
    forall t | t in tables && t.name != tables[i].name
      ensures t in r
    {
      var j :| 0 <= j < |tables| && tables[j] == t;
      if j < i {
        assert r[j] == t;
      } else {
        assert j != i;
        assert r[j - 1] == t;
      }
    }
    forall t | t in r
      ensures t in tables && t.name != tables[i].name
    {
      var j :| 0 <= j < |r| && r[j] == t;
      if j < i {
        assert tables[j] == t;
        assert tables[j].name != tables[i].name;
      } else {
        assert tables[j + 1] == t;
        assert tables[i].name != tables[j + 1].name;
      }
    }
  }

  /**
   * Without integrity checking DROP TABLE never fails: it keeps exactly the tables not named
   * in the statement, and the schema's views and extensions.
   */
  lemma {:induction false} DropTablesWithoutIntegrity(s: Schema, names: seq<string>, ctx: FinderContext)
    requires DistinctTableNames(s.tables) && !ctx.checkIntegrity
    ensures DropTablesFromSchema(s, names, ctx).error.None?
    ensures DropTablesFromSchema(s, names, ctx).schema == s.(tables := DropTablesFromSchema(s, names, ctx).schema.tables)
    ensures forall t :: t in DropTablesFromSchema(s, names, ctx).schema.tables <==> t in s.tables && t.name !in names
    decreases |names|
  {
    if |names| > 0 {
      match TableIndex(s.tables, names[0])
      case None =>
        DropTablesWithoutIntegrity(s, names[1..], ctx);
        forall t | t in s.tables
          ensures t.name != names[0]
        {
        }
      case Some(i) =>
        RemoveTableMembership(s.tables, i);
        DropTablesWithoutIntegrity(s.(tables := RemoveAt(s.tables, i)), names[1..], ctx);
    }
  }

  /**
   * DROP TABLE over names that exist, each named once, succeeds with or without integrity
   * checking and keeps exactly the other tables, one fewer per name.
   */
  lemma {:induction false} DropExistingTables(s: Schema, names: seq<string>, ctx: FinderContext)
    requires DistinctTableNames(s.tables)
    requires forall i, j :: 0 <= i < j < |names| ==> names[i] != names[j]
    requires forall i :: 0 <= i < |names| ==> names[i] in TableNames(s.tables)
    ensures DropTablesFromSchema(s, names, ctx).error.None?
    ensures DropTablesFromSchema(s, names, ctx).schema == s.(tables := DropTablesFromSchema(s, names, ctx).schema.tables)
    ensures forall t :: t in DropTablesFromSchema(s, names, ctx).schema.tables <==> t in s.tables && t.name !in names
    ensures |DropTablesFromSchema(s, names, ctx).schema.tables| + |names| == |s.tables|
    decreases |names|
  {
    if |names| > 0 {
      var i := TableIndex(s.tables, names[0]).value;
      RemoveTableMembership(s.tables, i);
      var s1 := s.(tables := RemoveAt(s.tables, i));
      forall k | 0 <= k < |names[1..]|
        ensures names[1..][k] in TableNames(s1.tables)
      {
        var j :| 0 <= j < |s.tables| && s.tables[j].name == names[k + 1];
        assert names[k + 1] != names[0];
        assert s.tables[j] in s1.tables;
        var j1 :| 0 <= j1 < |s1.tables| && s1.tables[j1] == s.tables[j];
      }
      DropExistingTables(s1, names[1..], ctx);
    }
  }

  /**
   * DROP TABLE naming every table of the schema once leaves an empty table list and the
   * view and extension lists as they were.
   */
  lemma DropAllTables(s: Schema, names: seq<string>, ctx: FinderContext)
    requires DistinctTableNames(s.tables) && |names| == |s.tables|
    requires forall i, j :: 0 <= i < j < |names| ==> names[i] != names[j]
    requires forall i :: 0 <= i < |names| ==> names[i] in TableNames(s.tables)
    ensures DropTablesFromSchema(s, names, ctx) == Step(Schema(s.name, [], s.views, s.extensions), None)
  {
    DropExistingTables(s, names, ctx);
  }

  /**
   * With integrity checking, DROP TABLE whose first name is missing fails with
   * "Table `<name>` does not exist" and changes nothing.
   */
  lemma DropMissingTableFails(s: Schema, names: seq<string>, ctx: FinderContext)
    requires ctx.checkIntegrity && |names| > 0
    requires forall t :: t in s.tables ==> t.name != names[0]
    ensures DropTablesFromSchema(s, names, ctx)
         == Step(s, Some(WalkThroughError(TableNotExists, "Table `" + names[0] + "` does not exist")))
  {
    forall i | 0 <= i < |s.tables|
      ensures s.tables[i].name != names[0]
    {
      assert s.tables[i] in s.tables;
    }
    assert "Table " + Quoted(names[0]) + " does not exist" == "Table `" + names[0] + "` does not exist";
  }

  /**
   * DROP TABLE is not atomic: with integrity checking, dropping an existing `a` and then a
   * missing `b` fails on `b`, and `a` stays dropped.
   */
  lemma PartialDrop(s: Schema, a: string, b: string, ctx: FinderContext)
    requires ctx.checkIntegrity
    requires TableIndex(s.tables, a).Some? && TableIndex(s.tables, b).None?
    ensures DropTablesFromSchema(s, [a, b], ctx)
         == Step(s.(tables := RemoveAt(s.tables, TableIndex(s.tables, a).value)), Some(TableNotExistsError(b)))
  {
  }

  /**
   * A walk is fail-fast and not transactional: walking `a + b` walks `a`, and continues with
   * `b` from the state `a` reached only when `a` raised no error; otherwise it stops with the
   * state and error of the failing statement, that statement's partial effect included.
   */
  lemma {:induction false} WalkAppend(d: DatabaseState, a: seq<Stmt>, b: seq<Stmt>, ctx: FinderContext)
    ensures Walk(d, a + b, ctx)
         == if Walk(d, a, ctx).error.Some? then Walk(d, a, ctx) else Walk(Walk(d, a, ctx).state, b, ctx)
    decreases |a|
  {
    if |a| == 0 {
      assert a + b == b;
    } else {
      assert (a + b)[0] == a[0];
      assert (a + b)[1..] == a[1..] + b;
      var step := ApplyStmt(d.schema, a[0], ctx);
      if step.error.None? {
        WalkAppend(d.(schema := step.schema), a[1..], b, ctx);
      }
    }
  }
}
