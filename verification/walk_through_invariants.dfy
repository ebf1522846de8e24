/**
 * Every handler of the walk-through keeps the catalog well formed: column positions stay a
 * permutation of 1..N, column, index and table names stay distinct, only the index named
 * PRIMARY is primary, and no index is left without keys.  This holds for the state the walk
 * stops at after an error too.
 */
module WalkThroughInvariants {
  import opened Wrappers
  import opened Catalog
  import opened WalkThrough

  /** Two column lists that differ at most in positions. */
  predicate SameButPositions(a: seq<Column>, b: seq<Column>)
  {
    |a| == |b| && forall k :: 0 <= k < |a| ==> b[k] == a[k].(position := b[k].position)
  }

  lemma ShiftUpOnlyMoves(columns: seq<Column>, from: nat)
    ensures SameButPositions(columns, ShiftUp(columns, from))
  {
  }

  /** Opening slot p (1 <= p <= N+1) and filling it keeps positions dense. */
  lemma InsertKeepsDense(columns: seq<Column>, p: nat, c: Column)
    requires DensePositions(columns)
    requires 1 <= p <= |columns| + 1 && c.position == p
    ensures DensePositions(ShiftUp(columns, p) + [c])
  {
    var r := ShiftUp(columns, p) + [c];
    forall i, j | 0 <= i < j < |r|
      ensures r[i].position != r[j].position
    {
      if j < |columns| {
        assert columns[i].position != columns[j].position;
      }
    }
  }

  /** Removing the column at slot i and closing its gap keeps positions dense. */
  lemma RemoveKeepsDense(columns: seq<Column>, i: nat)
    requires DensePositions(columns) && i < |columns|
    ensures DensePositions(ShiftDown(RemoveAt(columns, i), columns[i].position))
  {
    var p := columns[i].position;
    var rest := RemoveAt(columns, i);
    var r := ShiftDown(rest, p);
    forall k | 0 <= k < |rest|
      ensures rest[k].position != p
    {
      if k < i {
        assert rest[k] == columns[k];
      } else {
        assert rest[k] == columns[k + 1];
      }
    }
    forall a, b | 0 <= a < b < |rest|
      ensures rest[a].position != rest[b].position
    {
      if b < i {
        assert rest[a] == columns[a] && rest[b] == columns[b];
      } else if a < i {
        assert rest[a] == columns[a] && rest[b] == columns[b + 1];
      } else {
        assert rest[a] == columns[a + 1] && rest[b] == columns[b + 1];
      }
    }
    forall k | 0 <= k < |r|
      ensures 1 <= r[k].position <= |r|
    {
      assert 1 <= rest[k].position <= |columns|;
    }
  }

  lemma RemoveKeepsDistinctNames(columns: seq<Column>, i: nat)
    requires DistinctColumnNames(columns) && i < |columns|
    ensures DistinctColumnNames(ShiftDown(RemoveAt(columns, i), columns[i].position))
    ensures forall k :: 0 <= k < |columns| - 1 ==>
      ShiftDown(RemoveAt(columns, i), columns[i].position)[k].name != columns[i].name
  {
    var rest := RemoveAt(columns, i);
    forall a, b | 0 <= a < b < |rest|
      ensures rest[a].name != rest[b].name
    {
      if b < i {
        assert rest[a] == columns[a] && rest[b] == columns[b];
      } else if a < i {
        assert rest[a] == columns[a] && rest[b] == columns[b + 1];
      } else {
        assert rest[a] == columns[a + 1] && rest[b] == columns[b + 1];
      }
    }
    forall k | 0 <= k < |rest|
      ensures rest[k].name != columns[i].name
    {
      if k < i {
        assert rest[k] == columns[k];
      } else {
        assert rest[k] == columns[k + 1];
      }
    }
  }

  /** Whatever slot InsertPosition opens, placing the new column there keeps positions dense. */
  lemma InsertPositionKeepsDense(columns: seq<Column>, table: string, position: ColumnPosition, ctx: FinderContext, c: Column)
    requires DensePositions(columns)
    requires InsertPosition(columns, table, position, ctx).Success?
    requires c.position == InsertPosition(columns, table, position, ctx).value.1
    ensures DensePositions(InsertPosition(columns, table, position, ctx).value.0 + [c])
    ensures SameButPositions(columns, InsertPosition(columns, table, position, ctx).value.0)
  {
    var slot := InsertPosition(columns, table, position, ctx).value;
    match position
    case PositionNone =>
      assert slot.0 == columns;
    case PositionFirst =>
      InsertKeepsDense(columns, 1, c);
    case PositionAfter(after) =>
      match ColumnIndex(columns, after)
      case Some(i) =>
        InsertKeepsDense(columns, columns[i].position + 1, c);
      case None =>
        assert slot.0 == columns;
  }

  lemma AddIndexKeepsWellFormed(t: Table, name: string, keys: seq<string>, unique: bool, indexType: string, visible: bool)
    requires WellFormedTable(t)
    requires AddIndexToTable(t, name, keys, unique, indexType, visible).Success?
    ensures WellFormedTable(AddIndexToTable(t, name, keys, unique, indexType, visible).value)
  {
    var r := AddIndexToTable(t, name, keys, unique, indexType, visible).value;
    var n := |t.indexes|;
    forall i | 0 <= i < n
      ensures r.indexes[i].name != r.indexes[n].name
    {
      assert r.indexes[i] == t.indexes[i];
      assert t.indexes[i].name in IndexNames(t.indexes);
    }
  }

  lemma AddPrimaryKeyKeepsWellFormed(t: Table, keys: seq<string>, indexType: string)
    requires WellFormedTable(t)
    requires AddPrimaryKeyToTable(t, keys, indexType).Success?
    ensures WellFormedTable(AddPrimaryKeyToTable(t, keys, indexType).value)
  {
    var r := AddPrimaryKeyToTable(t, keys, indexType).value;
    forall i | 0 <= i < |t.indexes|
      ensures t.indexes[i].name != PrimaryKeyName
    {
      assert t.indexes[i].name in IndexNames(t.indexes);
    }
  }

  lemma {:induction false} AddInlineIndexesKeepsWellFormed(t: Table, column: string, options: seq<ColumnOption>)
    requires WellFormedTable(t)
    requires AddInlineIndexes(t, column, options).Success?
    ensures WellFormedTable(AddInlineIndexes(t, column, options).value)
    ensures AddInlineIndexes(t, column, options).value.columns == t.columns
    ensures AddInlineIndexes(t, column, options).value.name == t.name
    decreases |options|
  {
    if |options| > 0 {
      match options[0]
      case PrimaryKeyOption =>
        AddPrimaryKeyKeepsWellFormed(t, [column], DefaultIndexType);
        AddInlineIndexesKeepsWellFormed(AddPrimaryKeyToTable(t, [column], DefaultIndexType).value, column, options[1..]);
      case UniqueKeyOption =>
        AddIndexKeepsWellFormed(t, "", [column], true, DefaultIndexType, true);
        AddInlineIndexesKeepsWellFormed(AddIndexToTable(t, "", [column], true, DefaultIndexType, true).value, column, options[1..]);
      case _ =>
        AddInlineIndexesKeepsWellFormed(t, column, options[1..]);
    }
  }

  lemma AddColumnKeepsWellFormed(t: Table, def: ColumnDef, position: ColumnPosition, ctx: FinderContext)
    requires WellFormedTable(t)
    requires AddColumnToTable(t, def, position, ctx).Success?
    ensures WellFormedTable(AddColumnToTable(t, def, position, ctx).value)
    ensures AddColumnToTable(t, def, position, ctx).value.name == t.name
  {
    var slot := InsertPosition(t.columns, t.name, position, ctx).value;
    var c := NewColumn(def, slot.1);
    InsertPositionKeepsDense(t.columns, t.name, position, ctx, c);
    var t1 := t.(columns := slot.0 + [c]);
    assert ColumnIndex(t.columns, def.name).None?;
    assert DistinctColumnNames(t1.columns);
    AddInlineIndexesKeepsWellFormed(t1, def.name, def.options);
  }

  lemma AddConstraintKeepsWellFormed(t: Table, c: Constraint, ctx: FinderContext)
    requires WellFormedTable(t)
    requires AddConstraintToTable(t, c, ctx).Success?
    ensures WellFormedTable(AddConstraintToTable(t, c, ctx).value)
    ensures AddConstraintToTable(t, c, ctx).value.name == t.name
  {
    match c.kind
    case PrimaryKeyConstraint =>
      var keys := ResolveKeys(t, c.keys, ctx).value;
      var t1 := t.(columns := MarkNotNull(t.columns, c.keys));
      assert forall k :: 0 <= k < |t.columns| ==>
        t1.columns[k].position == t.columns[k].position && t1.columns[k].name == t.columns[k].name;
      AddPrimaryKeyKeepsWellFormed(t1, keys, IndexTypeOf(c.options));
    case IndexConstraint =>
      AddIndexKeepsWellFormed(t, c.name, ResolveKeys(t, c.keys, ctx).value, false, IndexTypeOf(c.options), !c.options.invisible);
    case UniqueConstraint =>
      AddIndexKeepsWellFormed(t, c.name, ResolveKeys(t, c.keys, ctx).value, true, IndexTypeOf(c.options), !c.options.invisible);
    case FulltextConstraint =>
      AddIndexKeepsWellFormed(t, c.name, ResolveKeys(t, c.keys, ctx).value, false, FulltextIndexType, !c.options.invisible);
    case ForeignKeyConstraint =>
    case CheckConstraint =>
  }

  lemma TailKeepsWellFormed(indexes: seq<Index>)
    requires WellFormedIndexes(indexes) && |indexes| > 0
    ensures WellFormedIndexes(indexes[1..])
  {
    var tail := indexes[1..];
    forall a, b | 0 <= a < b < |tail|
      ensures tail[a].name != tail[b].name
    {
      assert tail[a] == indexes[a + 1] && tail[b] == indexes[b + 1];
    }
  }

  lemma TailNames(indexes: seq<Index>)
    requires DistinctIndexNames(indexes) && |indexes| > 0
    ensures indexes[0].name !in IndexNames(indexes[1..])
    ensures IndexNames(indexes) == {indexes[0].name} + IndexNames(indexes[1..])
  {
    var tail := indexes[1..];
    forall x | x in IndexNames(tail)
      ensures x != indexes[0].name && x in IndexNames(indexes)
    {
      var j :| 0 <= j < |tail| && tail[j].name == x;
      assert indexes[j + 1].name == x;
    }
    forall x | x in IndexNames(indexes)
      ensures x == indexes[0].name || x in IndexNames(tail)
    {
      var j :| 0 <= j < |indexes| && indexes[j].name == x;
      if j > 0 {
        assert tail[j - 1].name == x;
      }
    }
  }

  /** Dropping a key keeps a sub-list of the indexes, each with its name and flags. */
  lemma {:induction false} DropKeyKeepsWellFormed(indexes: seq<Index>, name: string)
    requires WellFormedIndexes(indexes)
    ensures WellFormedIndexes(DropKeyFromIndexes(indexes, name))
    ensures IndexNames(DropKeyFromIndexes(indexes, name)) <= IndexNames(indexes)
    decreases |indexes|
  {
    if |indexes| > 0 {
      TailKeepsWellFormed(indexes);
      TailNames(indexes);
      DropKeyKeepsWellFormed(indexes[1..], name);
      var rest := DropKeyFromIndexes(indexes[1..], name);
      var keys := RemoveKey(indexes[0].expressions, name);
      if |keys| == 0 {
        assert DropKeyFromIndexes(indexes, name) == rest;
      } else {
        var first := indexes[0].(expressions := keys);
        var r := [first] + rest;
        assert DropKeyFromIndexes(indexes, name) == r;
        ConsKeepsWellFormed(first, rest);
      }
    }
  }

  lemma ConsKeepsWellFormed(first: Index, rest: seq<Index>)
    requires WellFormedIndexes(rest) && first.name !in IndexNames(rest)
    requires (first.primary <==> first.name == PrimaryKeyName) && (first.primary ==> first.unique)
    requires |first.expressions| >= 1
    ensures WellFormedIndexes([first] + rest)
    ensures IndexNames([first] + rest) == {first.name} + IndexNames(rest)
  {
    var r := [first] + rest;
    forall a, b | 0 <= a < b < |r|
      ensures r[a].name != r[b].name
    {
      assert r[b] == rest[b - 1];
      if a > 0 {
        assert r[a] == rest[a - 1];
      } else {
        assert rest[b - 1].name in IndexNames(rest);
      }
    }
    forall k | 0 <= k < |r|
      ensures (r[k].primary <==> r[k].name == PrimaryKeyName) && (r[k].primary ==> r[k].unique)
      ensures |r[k].expressions| >= 1
    {
      if k > 0 {
        assert r[k] == rest[k - 1];
      }
    }
    TailNames(r);
  }

  lemma RenameKeyKeepsWellFormed(indexes: seq<Index>, oldName: string, newName: string)
    requires WellFormedIndexes(indexes)
    ensures WellFormedIndexes(RenameKeyInIndexes(indexes, oldName, newName))
  {
    var r := RenameKeyInIndexes(indexes, oldName, newName);
    assert forall k :: 0 <= k < |r| ==> r[k].name == indexes[k].name;
  }

  lemma DropColumnKeepsWellFormed(t: Table, name: string, ctx: FinderContext)
    requires WellFormedTable(t)
    requires DropColumnFromTable(t, name, ctx).Success?
    ensures WellFormedTable(DropColumnFromTable(t, name, ctx).value)
  {
    match ColumnIndex(t.columns, name)
    case None =>
    case Some(i) =>
      RemoveKeepsDense(t.columns, i);
      RemoveKeepsDistinctNames(t.columns, i);
      DropKeyKeepsWellFormed(t.indexes, name);
  }

  lemma ChangeColumnKeepsWellFormed(t: Table, oldName: string, def: ColumnDef, position: ColumnPosition, ctx: FinderContext)
    requires WellFormedTable(t)
    requires ChangeColumnInTable(t, oldName, def, position, ctx).Success?
    ensures WellFormedTable(ChangeColumnInTable(t, oldName, def, position, ctx).value)
    ensures ChangeColumnInTable(t, oldName, def, position, ctx).value.name == t.name
  {
    match ColumnIndex(t.columns, oldName)
    case None =>
    case Some(i) =>
      var rest := ShiftDown(RemoveAt(t.columns, i), t.columns[i].position);
      var where := if position.PositionNone? then SamePosition(rest, t.columns[i].position) else position;
      RemoveKeepsDense(t.columns, i);
      RemoveKeepsDistinctNames(t.columns, i);
      AddColumnKeepsWellFormed(t.(columns := rest), def, where, ctx);
      var t1 := AddColumnToTable(t.(columns := rest), def, where, ctx).value;
      RenameKeyKeepsWellFormed(t1.indexes, oldName, def.name);
  }

  lemma RenameColumnKeepsWellFormed(t: Table, oldName: string, newName: string, ctx: FinderContext)
    requires WellFormedTable(t)
    requires RenameColumnInTable(t, oldName, newName, ctx).Success?
    ensures WellFormedTable(RenameColumnInTable(t, oldName, newName, ctx).value)
  {
    match ColumnIndex(t.columns, oldName)
    case None =>
    case Some(i) =>
      RenameKeyKeepsWellFormed(t.indexes, oldName, newName);
  }

  lemma DropIndexKeepsWellFormed(t: Table, name: string, ctx: FinderContext)
    requires WellFormedTable(t)
    requires DropIndexFromTable(t, name, ctx).Success?
    ensures WellFormedTable(DropIndexFromTable(t, name, ctx).value)
  {
    match IndexIndex(t.indexes, name)
    case None =>
    case Some(i) =>
      var r := RemoveAt(t.indexes, i);
      forall a, b | 0 <= a < b < |r|
        ensures r[a].name != r[b].name
      {
        if b < i {
          assert r[a] == t.indexes[a] && r[b] == t.indexes[b];
        } else if a < i {
          assert r[a] == t.indexes[a] && r[b] == t.indexes[b + 1];
        } else {
          assert r[a] == t.indexes[a + 1] && r[b] == t.indexes[b + 1];
        }
      }
  }

  lemma RenameIndexKeepsWellFormed(t: Table, oldName: string, newName: string, ctx: FinderContext)
    requires WellFormedTable(t)
    requires RenameIndexInTable(t, oldName, newName, ctx).Success?
    ensures WellFormedTable(RenameIndexInTable(t, oldName, newName, ctx).value)
  {
    match IndexIndex(t.indexes, oldName)
    case None =>
    case Some(i) =>
      var r := RenameIndexInTable(t, oldName, newName, ctx).value.indexes;
      forall k | 0 <= k < |t.indexes| && k != i
        ensures t.indexes[k].name != newName
      {
        if newName == oldName {
          if k < i {
            assert t.indexes[k].name != t.indexes[i].name;
          } else {
            assert t.indexes[i].name != t.indexes[k].name;
          }
        }
      }
  }

  lemma ApplyColumnSpecKeepsWellFormed(t: Table, spec: AlterSpec, ctx: FinderContext)
    requires WellFormedTable(t)
    requires spec.AddColumn? || spec.DropColumn? || spec.ModifyColumn? || spec.ChangeColumn? || spec.RenameColumn?
    requires ApplySpecToTable(t, spec, ctx).Success?
    ensures WellFormedTable(ApplySpecToTable(t, spec, ctx).value)
    ensures ApplySpecToTable(t, spec, ctx).value.name == t.name
  {
    match spec
    case AddColumn(def, position) => AddColumnKeepsWellFormed(t, def, position, ctx);
    case DropColumn(name) => DropColumnKeepsWellFormed(t, name, ctx);
    case ModifyColumn(def, position) => ChangeColumnKeepsWellFormed(t, def.name, def, position, ctx);
    case ChangeColumn(oldName, def, position) => ChangeColumnKeepsWellFormed(t, oldName, def, position, ctx);
    case RenameColumn(oldName, newName) => RenameColumnKeepsWellFormed(t, oldName, newName, ctx);
  }

  lemma SetColumnDefaultKeepsWellFormed(t: Table, name: string, value: Option<string>, ctx: FinderContext)
    requires WellFormedTable(t)
    requires SetColumnDefaultInTable(t, name, value, ctx).Success?
    ensures WellFormedTable(SetColumnDefaultInTable(t, name, value, ctx).value)
    ensures SetColumnDefaultInTable(t, name, value, ctx).value.name == t.name
  {
    match ColumnIndex(t.columns, name)
    case None =>
    case Some(i) =>
      var cs := t.columns[i := t.columns[i].(default := value)];
      assert forall k :: 0 <= k < |cs| ==> cs[k].name == t.columns[k].name && cs[k].position == t.columns[k].position;
  }

  lemma SetIndexVisibilityKeepsWellFormed(t: Table, name: string, visible: bool, ctx: FinderContext)
    requires WellFormedTable(t)
    requires SetIndexVisibilityInTable(t, name, visible, ctx).Success?
    ensures WellFormedTable(SetIndexVisibilityInTable(t, name, visible, ctx).value)
    ensures SetIndexVisibilityInTable(t, name, visible, ctx).value.name == t.name
  {
    match IndexIndex(t.indexes, name)
    case None =>
    case Some(i) =>
      var xs := t.indexes[i := t.indexes[i].(visible := visible)];
      assert forall k :: 0 <= k < |xs| ==> xs[k] == t.indexes[k].(visible := xs[k].visible);
  }

  lemma ApplyIndexSpecKeepsWellFormed(t: Table, spec: AlterSpec, ctx: FinderContext)
    requires WellFormedTable(t)
    requires spec.AddConstraint? || spec.DropPrimaryKey? || spec.DropIndex? || spec.RenameIndex?
    requires ApplySpecToTable(t, spec, ctx).Success?
    ensures WellFormedTable(ApplySpecToTable(t, spec, ctx).value)
    ensures ApplySpecToTable(t, spec, ctx).value.name == t.name
  {
    match spec
    case AddConstraint(c) => AddConstraintKeepsWellFormed(t, c, ctx);
    case DropPrimaryKey => DropIndexKeepsWellFormed(t, PrimaryKeyName, ctx);
    case DropIndex(name) => DropIndexKeepsWellFormed(t, name, ctx);
    case RenameIndex(oldName, newName) => RenameIndexKeepsWellFormed(t, oldName, newName, ctx);
  }

  lemma ApplySpecToTableKeepsWellFormed(t: Table, spec: AlterSpec, ctx: FinderContext)
    requires WellFormedTable(t) && !spec.RenameTable?
    requires ApplySpecToTable(t, spec, ctx).Success?
    ensures WellFormedTable(ApplySpecToTable(t, spec, ctx).value)
    ensures ApplySpecToTable(t, spec, ctx).value.name == t.name
  {
    if spec.AddColumn? || spec.DropColumn? || spec.ModifyColumn? || spec.ChangeColumn? || spec.RenameColumn? {
      ApplyColumnSpecKeepsWellFormed(t, spec, ctx);
    } else if spec.AddConstraint? || spec.DropPrimaryKey? || spec.DropIndex? || spec.RenameIndex? {
      ApplyIndexSpecKeepsWellFormed(t, spec, ctx);
    } else {
      match spec
      case SetTableOptions(options) =>
        SetTableOptionsKeepsColumnsAndIndexes(t, options);
      case SetColumnDefault(name, value) => SetColumnDefaultKeepsWellFormed(t, name, value, ctx);
      case AlterIndexVisibility(name, visible) => SetIndexVisibilityKeepsWellFormed(t, name, visible, ctx);
    }
  }


  lemma {:induction false} SetTableOptionsKeepsColumnsAndIndexes(t: Table, options: seq<TableOption>)
    ensures SetTableOptionsOnTable(t, options).columns == t.columns
    ensures SetTableOptionsOnTable(t, options).indexes == t.indexes
    ensures SetTableOptionsOnTable(t, options).name == t.name
    decreases |options|
  {
    if |options| > 0 {
      var t1 := match options[0]
        case CollateTableOption(c) => t.(collation := c)
        case EngineTableOption(e) => t.(engine := e)
        case CommentTableOption(c) => t.(comment := c);
      SetTableOptionsKeepsColumnsAndIndexes(t1, options[1..]);
    }
  }

  lemma {:induction false} BuildColumnsKeepsWellFormed(t: Table, columns: seq<ColumnDef>, ctx: FinderContext)
    requires WellFormedTable(t)
    requires BuildColumns(t, columns, ctx).Success?
    ensures WellFormedTable(BuildColumns(t, columns, ctx).value)
    ensures BuildColumns(t, columns, ctx).value.name == t.name
    decreases |columns|
  {
    if |columns| > 0 {
      AddColumnKeepsWellFormed(t, columns[0], PositionNone, ctx);
      BuildColumnsKeepsWellFormed(AddColumnToTable(t, columns[0], PositionNone, ctx).value, columns[1..], ctx);
    }
  }

  lemma {:induction false} BuildConstraintsKeepsWellFormed(t: Table, constraints: seq<Constraint>, ctx: FinderContext)
    requires WellFormedTable(t)
    requires BuildConstraints(t, constraints, ctx).Success?
    ensures WellFormedTable(BuildConstraints(t, constraints, ctx).value)
    ensures BuildConstraints(t, constraints, ctx).value.name == t.name
    decreases |constraints|
  {
    if |constraints| > 0 {
      AddConstraintKeepsWellFormed(t, constraints[0], ctx);
      BuildConstraintsKeepsWellFormed(AddConstraintToTable(t, constraints[0], ctx).value, constraints[1..], ctx);
    }
  }

  /** Replacing one table by a well-formed one of the same name keeps the schema well formed. */
  lemma ReplaceTableKeepsWellFormed(s: Schema, i: nat, t: Table)
    requires WellFormedSchema(s) && i < |s.tables|
    requires WellFormedTable(t) && t.name == s.tables[i].name
    ensures WellFormedSchema(s.(tables := s.tables[i := t]))
  {
  }

  lemma CreateTableKeepsWellFormed(s: Schema, name: string, columns: seq<ColumnDef>, constraints: seq<Constraint>, ctx: FinderContext)
    requires WellFormedSchema(s)
    ensures WellFormedSchema(CreateTableInSchema(s, name, columns, constraints, ctx).schema)
  {
    if TableIndex(s.tables, name).None? && BuildTable(name, columns, constraints, ctx).Success? {
      var empty := Table(name, "", "", "", [], []);
      BuildColumnsKeepsWellFormed(empty, columns, ctx);
      var t := BuildColumns(empty, columns, ctx).value;
      BuildConstraintsKeepsWellFormed(t, constraints, ctx);
    }
  }

  lemma {:induction false} DropTablesKeepsWellFormed(s: Schema, names: seq<string>, ctx: FinderContext)
    requires WellFormedSchema(s)
    ensures WellFormedSchema(DropTablesFromSchema(s, names, ctx).schema)
    decreases |names|
  {
    if |names| > 0 {
      match TableIndex(s.tables, names[0])
      case None =>
        if !ctx.checkIntegrity {
          DropTablesKeepsWellFormed(s, names[1..], ctx);
        }
      case Some(i) =>
        var s1 := s.(tables := RemoveAt(s.tables, i));
        assert WellFormedSchema(s1) by {
          var r := s1.tables;
          forall a, b | 0 <= a < b < |r|
            ensures r[a].name != r[b].name
          {
            if b < i {
              assert r[a] == s.tables[a] && r[b] == s.tables[b];
            } else if a < i {
              assert r[a] == s.tables[a] && r[b] == s.tables[b + 1];
            } else {
              assert r[a] == s.tables[a + 1] && r[b] == s.tables[b + 1];
            }
          }
        }
        DropTablesKeepsWellFormed(s1, names[1..], ctx);
    }
  }

  lemma ApplySpecKeepsWellFormed(s: Schema, name: string, spec: AlterSpec, ctx: FinderContext)
    requires WellFormedSchema(s)
    requires ApplySpec(s, name, spec, ctx).Success?
    ensures WellFormedSchema(ApplySpec(s, name, spec, ctx).value.0)
  {
    var i := TableIndex(s.tables, name).value;
    if !spec.RenameTable? {
      ApplySpecToTableKeepsWellFormed(s.tables[i], spec, ctx);
    }
  }

  lemma {:induction false} ApplySpecsKeepsWellFormed(s: Schema, name: string, specs: seq<AlterSpec>, ctx: FinderContext)
    requires WellFormedSchema(s)
    ensures WellFormedSchema(ApplySpecs(s, name, specs, ctx).schema)
    decreases |specs|
  {
    if |specs| > 0 {
      match ApplySpec(s, name, specs[0], ctx)
      case Failure(e) =>
      case Success(next) =>
        ApplySpecKeepsWellFormed(s, name, specs[0], ctx);
        ApplySpecsKeepsWellFormed(next.0, next.1, specs[1..], ctx);
    }
  }

  lemma CreateIndexKeepsWellFormed(s: Schema, indexName: string, tableName: string, kind: IndexKind, keys: seq<KeyPart>,
                                   options: IndexOptions, ctx: FinderContext)
    requires WellFormedSchema(s)
    ensures WellFormedSchema(ApplyStmt(s, CreateIndex(indexName, tableName, kind, keys, options), ctx).schema)
  {
    var c := IndexClause(indexName, kind, keys, options);
    match TableIndex(s.tables, tableName)
    case None =>
    case Some(i) =>
      var r := AddConstraintToTable(s.tables[i], c, ctx);
      if r.Success? {
        AddConstraintKeepsWellFormed(s.tables[i], c, ctx);
        ReplaceTableKeepsWellFormed(s, i, r.value);
      }
  }

  lemma DropIndexStmtKeepsWellFormed(s: Schema, indexName: string, tableName: string, ctx: FinderContext)
    requires WellFormedSchema(s)
    ensures WellFormedSchema(ApplyStmt(s, DropIndexStmt(indexName, tableName), ctx).schema)
  {
    match TableIndex(s.tables, tableName)
    case None =>
    case Some(i) =>
      var r := DropIndexFromTable(s.tables[i], indexName, ctx);
      if r.Success? {
        DropIndexKeepsWellFormed(s.tables[i], indexName, ctx);
        ReplaceTableKeepsWellFormed(s, i, r.value);
      }
  }

  /** Each statement handler keeps the schema well formed, whether it succeeds or stops. */
  lemma ApplyStmtKeepsWellFormed(s: Schema, stmt: Stmt, ctx: FinderContext)
    requires WellFormedSchema(s)
    ensures WellFormedSchema(ApplyStmt(s, stmt, ctx).schema)
  {
    match stmt
    case CreateTable(name, columns, constraints) => CreateTableKeepsWellFormed(s, name, columns, constraints, ctx);
    case AlterTable(name, specs) =>
      if TableIndex(s.tables, name).Some? {
        ApplySpecsKeepsWellFormed(s, name, specs, ctx);
      }
    case DropTable(names) => DropTablesKeepsWellFormed(s, names, ctx);
    case CreateIndex(indexName, tableName, kind, keys, options) =>
      CreateIndexKeepsWellFormed(s, indexName, tableName, kind, keys, options, ctx);
    case DropIndexStmt(indexName, tableName) =>
      DropIndexStmtKeepsWellFormed(s, indexName, tableName, ctx);
    case Unsupported(_) =>
  }

  /**
   * A walk from a well-formed state ends in a well-formed state, also when it stops at an
   * error: positions stay dense, names stay distinct and PRIMARY stays the only primary key.
   */
  lemma {:induction false} WalkKeepsWellFormed(d: DatabaseState, stmts: seq<Stmt>, ctx: FinderContext)
    requires WellFormedSchema(d.schema)
    ensures WellFormedSchema(Walk(d, stmts, ctx).state.schema)
    decreases |stmts|
  {
    if |stmts| > 0 {
      ApplyStmtKeepsWellFormed(d.schema, stmts[0], ctx);
      var step := ApplyStmt(d.schema, stmts[0], ctx);
      if step.error.None? {
        WalkKeepsWellFormed(d.(schema := step.schema), stmts[1..], ctx);
      }
    }
  }
}
