/**
 * The walk-through's ALTER TABLE scenario: the first scenario's table with a fifth column e,
 * then thirteen single-clause ALTER TABLE statements.  Each clause is evaluated on the table
 * the previous one left; the walk's outcome is the test's catalog, with the columns stored in
 * the order the clauses appended them (a column's order is its position).
 */
module WalkThroughAlterExample {
  import opened Wrappers
  import opened Catalog
  import opened WalkThrough
  import opened WalkThroughExamples

  // ---------------------------------------------------------------------------------------
  // The statements and the catalog the test expects.
  // ---------------------------------------------------------------------------------------

  function AlterDefs(): seq<ColumnDef>
  {
    Defs() + [Plain("e")]
  }

  const TableOptions := [ CollateTableOption("utf8mb4_0900_ai_ci"), EngineTableOption("INNODB"),
                          CommentTableOption("This is a table comment") ]
  const AddIdxAB := Constraint(IndexConstraint, "idx_a_b", [KeyColumn("a"), KeyColumn("b")], NoOptions)
  const ModifyB := ColumnDef("b", "varchar(20)", "", [])
  const ChangeD := ColumnDef("d_copy", "varchar(10)", "", [CollateOption("utf8mb4_polish_ci")])

  function AlterStatements(): seq<Stmt>
  {
    [ CreateTable("t", AlterDefs(), Clauses()),
      AlterTable("t", [SetTableOptions(TableOptions)]),
      AlterTable("t", [AddColumn(Plain("a1"), PositionAfter("a"))]),
      AlterTable("t", [AddConstraint(AddIdxAB)]),
      AlterTable("t", [DropColumn("c")]),
      AlterTable("t", [DropPrimaryKey]),
      AlterTable("t", [DropIndex("b_2")]),
      AlterTable("t", [ModifyColumn(ModifyB, PositionFirst)]),
      AlterTable("t", [ChangeColumn("d", ChangeD, PositionNone)]),
      AlterTable("t", [RenameColumn("a", "a_copy")]),
      AlterTable("t", [RenameTable("t_copy")]),
      AlterTable("t_copy", [SetColumnDefault("a_copy", None)]),
      AlterTable("t_copy", [RenameIndex("b", "idx_b")]),
      AlterTable("t_copy", [AlterIndexVisibility("b_3", false)]) ]
  }

  /** The table the test expects, columns listed by position. */
  function AlterExpected(): Table
  {
    Table("t_copy", "utf8mb4_0900_ai_ci", "INNODB", "This is a table comment",
      [ Column("b", 1, None, true, "varchar(20)", "", "", ""),
        Column("a_copy", 2, None, false, "int(11)", "", "", ""),
        Column("a1", 3, None, true, "int(11)", "", "", ""),
        Column("d_copy", 4, None, true, "varchar(10)", "", "utf8mb4_polish_ci", ""),
        Column("e", 5, None, true, "int(11)", "", "", "") ],
      [ Index("idx_b", ["b"], "BTREE", true, false, true),
        Index("idx_a", ["a_copy"], "BTREE", false, false, true),
        Index("b_3", ["b", "d_copy"], "BTREE", true, false, false),
        Index("b_4", ["b", "d_copy"], "FULLTEXT", false, false, false),
        Index("idx_a_b", ["a_copy", "b"], "BTREE", false, false, true) ])
  }

  // ---------------------------------------------------------------------------------------
  // The table after each statement.
  // ---------------------------------------------------------------------------------------

  const ColE := Column("e", 5, None, true, "int(11)", "", "", "")
  const ColA1 := Column("a1", 2, None, true, "int(11)", "", "", "")
  const NewB := Column("b", 1, None, true, "varchar(20)", "", "", "")
  const DCopy := Column("d_copy", 4, None, true, "varchar(10)", "", "utf8mb4_polish_ci", "")
  const IdxAB := Index("idx_a_b", ["a", "b"], "BTREE", false, false, true)
  const B3NoC := Index("b_3", ["b", "d"], "BTREE", true, false, true)
  const B3Copy := Index("b_3", ["b", "d_copy"], "BTREE", true, false, true)
  const B4Copy := Index("b_4", ["b", "d_copy"], "FULLTEXT", false, false, false)

  const Created := Table("t", "", "", "", [ColA, ColB, ColC, ColD, ColE], [Pk, UniqB, IdxA, B2, B3, B4])
  const WithOptions := Created.(collation := "utf8mb4_0900_ai_ci", engine := "INNODB", comment := "This is a table comment")
  const WithA1 := WithOptions.(columns := [ColA, ColB.(position := 3), ColC.(position := 4), ColD.(position := 5),
                                           ColE.(position := 6), ColA1])
  const WithIdxAB := WithA1.(indexes := [Pk, UniqB, IdxA, B2, B3, B4, IdxAB])
  const WithoutC := WithIdxAB.(columns := [ColA, ColB.(position := 3), ColD.(position := 4), ColE, ColA1],
                               indexes := [Pk, UniqB, IdxA, B2, B3NoC, B4, IdxAB])
  const WithoutPk := WithoutC.(indexes := [UniqB, IdxA, B2, B3NoC, B4, IdxAB])
  const WithoutB2 := WithoutC.(indexes := [UniqB, IdxA, B3NoC, B4, IdxAB])
  const BFirst := WithoutB2.(columns := [ColA.(position := 2), ColD, ColE, ColA1.(position := 3), NewB])
  const DChanged := BFirst.(columns := [ColA.(position := 2), ColE, ColA1.(position := 3), NewB, DCopy],
                            indexes := [UniqB, IdxA, B3Copy, B4Copy, IdxAB])
  const ARenamed := DChanged.(columns := [ColA.(name := "a_copy", position := 2), ColE, ColA1.(position := 3), NewB, DCopy],
                              indexes := [UniqB, IdxA.(expressions := ["a_copy"]), B3Copy, B4Copy,
                                          IdxAB.(expressions := ["a_copy", "b"])])
  const TableRenamed := ARenamed.(name := "t_copy")
  const DefaultDropped := TableRenamed.(columns := [ColA.(name := "a_copy", position := 2, default := None), ColE,
                                                    ColA1.(position := 3), NewB, DCopy])
  const IndexRenamed := DefaultDropped.(indexes := [UniqB.(name := "idx_b"), IdxA.(expressions := ["a_copy"]), B3Copy,
                                                    B4Copy, IdxAB.(expressions := ["a_copy", "b"])])
  const Invisible := IndexRenamed.(indexes := [UniqB.(name := "idx_b"), IdxA.(expressions := ["a_copy"]),
                                               B3Copy.(visible := false), B4Copy, IdxAB.(expressions := ["a_copy", "b"])])

  // ---------------------------------------------------------------------------------------
  // One lemma per statement.
  // ---------------------------------------------------------------------------------------

  lemma ColumnE()
    ensures BuildColumns(Table("t", "", "", "", Cols, [Pk, UniqB]), [Plain("e")], Ctx)
         == Success(Table("t", "", "", "", [ColA, ColB, ColC, ColD, ColE], [Pk, UniqB]))
  {
    PlainColumnAdded(Table("t", "", "", "", Cols, [Pk, UniqB]), "e", Ctx);
    assert Cols + [ColE] == [ColA, ColB, ColC, ColD, ColE];
    assert [Plain("e")][1..] == [];
  }

  lemma AlterColumnSteps()
    ensures BuildColumns(Table("t", "", "", "", [], []), AlterDefs(), Ctx)
         == Success(Table("t", "", "", "", [ColA, ColB, ColC, ColD, ColE], [Pk, UniqB]))
  {
    ColumnA();
    ColumnB();
    ColumnC();
    ColumnD();
    ColumnE();
    var defs := AlterDefs();
    assert defs[0] == Defs()[0] && defs[1] == Defs()[1] && defs[2] == Defs()[2] && defs[3] == Defs()[3];
    assert defs[4..] == [Plain("e")];
    assert defs[3..][1..] == defs[4..];
    assert defs[2..][1..] == defs[3..];
    assert defs[1..][1..] == defs[2..];
  }

  lemma CreatedTable()
    ensures BuildTable("t", AlterDefs(), Clauses(), Ctx) == Success(Created)
  {
    AlterColumnSteps();
    ConstraintSteps([ColA, ColB, ColC, ColD, ColE]);
    TableBuilt("t", AlterDefs(), Clauses(), Ctx, Table("t", "", "", "", [ColA, ColB, ColC, ColD, ColE], [Pk, UniqB]), Created);
  }

  lemma SetOptionsStep()
    ensures ApplySpecToTable(Created, SetTableOptions(TableOptions), Ctx) == Success(WithOptions)
  {
    var o := TableOptions;
    assert o[1..][1..] == [o[2]];
    assert o[1..][1..][1..] == [];
  }

  lemma AddA1Step()
    ensures ApplySpecToTable(WithOptions, AddColumn(Plain("a1"), PositionAfter("a")), Ctx) == Success(WithA1)
  {
    var cols := WithOptions.columns;
    assert ColumnIndex(cols, "a1").None?;
    ColumnAt(cols, 0, "a");
    var shifted := [ColA, ColB.(position := 3), ColC.(position := 4), ColD.(position := 5), ColE.(position := 6)];
    assert ShiftUp(cols, 2) == shifted;
    assert InsertPosition(cols, "t", PositionAfter("a"), Ctx) == Success((shifted, 2));
    assert NewColumn(Plain("a1"), 2) == ColA1;
    assert shifted + [ColA1] == WithA1.columns;
  }

  lemma KeysAB(t: Table)
    requires |t.columns| >= 2 && t.columns[0].name == "a" && t.columns[1].name == "b"
    ensures ResolveKeys(t, AddIdxAB.keys, Ctx) == Success(["a", "b"])
  {
    ColumnAt(t.columns, 0, "a");
    ColumnAt(t.columns, 1, "b");
    ResolvedKeys(t, AddIdxAB.keys, ["a", "b"], Ctx);
  }

  lemma AddIdxABToTable(t: Table)
    requires |t.columns| >= 2 && t.columns[0].name == "a" && t.columns[1].name == "b"
    requires t.indexes == [Pk, UniqB, IdxA, B2, B3, B4]
    ensures AddConstraintToTable(t, AddIdxAB, Ctx) == Success(t.(indexes := [Pk, UniqB, IdxA, B2, B3, B4, IdxAB]))
  {
    KeysAB(t);
    NamesUpToB4();
    assert "idx_a_b" !in IndexNames(t.indexes);
    assert IdxAB == Index(AddIdxAB.name, ["a", "b"], IndexTypeOf(AddIdxAB.options), false, false, !AddIdxAB.options.invisible);
    NamedClauseStep(t, AddIdxAB, ["a", "b"], IdxAB);
    assert t.indexes + [IdxAB] == [Pk, UniqB, IdxA, B2, B3, B4, IdxAB];
  }

  lemma AddIdxABStep()
    ensures ApplySpecToTable(WithA1, AddConstraint(AddIdxAB), Ctx) == Success(WithIdxAB)
  {
    AddIdxABToTable(WithA1);
  }


  lemma {:induction false} RemoveKeyAbsent(keys: seq<string>, name: string)
    requires name !in keys
    ensures RemoveKey(keys, name) == keys
    decreases |keys|
  {
    if |keys| > 0 {
      assert keys[0] != name;
      RemoveKeyAbsent(keys[1..], name);
      assert [keys[0]] + keys[1..] == keys;
    }
  }

  lemma {:induction false} DropKeyAbsent(indexes: seq<Index>, name: string)
    requires forall i :: 0 <= i < |indexes| ==> name !in indexes[i].expressions && |indexes[i].expressions| > 0
    ensures DropKeyFromIndexes(indexes, name) == indexes
    decreases |indexes|
  {
    if |indexes| > 0 {
      RemoveKeyAbsent(indexes[0].expressions, name);
      DropKeyAbsent(indexes[1..], name);
      assert [indexes[0]] + indexes[1..] == indexes;
    }
  }

  lemma {:induction false} DropKeyConcat(a: seq<Index>, b: seq<Index>, name: string)
    ensures DropKeyFromIndexes(a + b, name) == DropKeyFromIndexes(a, name) + DropKeyFromIndexes(b, name)
    decreases |a|
  {
    if |a| == 0 {
      assert a + b == b;
    } else {
      assert (a + b)[0] == a[0];
      assert (a + b)[1..] == a[1..] + b;
      DropKeyConcat(a[1..], b, name);
    }
  }

  lemma DropCFromB3()
    ensures DropKeyFromIndexes([B3], "c") == [B3NoC]
  {
    assert RemoveKey(["b", "c", "d"], "c") == ["b", "d"] by {
      assert ["b", "c", "d"][1..] == ["c", "d"];
      assert ["c", "d"][1..] == ["d"];
      assert ["d"][1..] == [];
    }
    assert [B3][1..] == [];
  }

  lemma DropCKeepsOthers()
    ensures DropKeyFromIndexes([Pk, UniqB, IdxA, B2], "c") == [Pk, UniqB, IdxA, B2]
    ensures DropKeyFromIndexes([B4, IdxAB], "c") == [B4, IdxAB]
  {
    DropKeyAbsent([Pk, UniqB, IdxA, B2], "c");
    DropKeyAbsent([B4, IdxAB], "c");
  }

  lemma DropCIndexes()
    ensures DropKeyFromIndexes(WithIdxAB.indexes, "c") == WithoutC.indexes
  {
    var before := [Pk, UniqB, IdxA, B2];
    var after := [B4, IdxAB];
    DropCKeepsOthers();
    DropCFromB3();
    DropKeyConcat(before, [B3], "c");
    DropKeyConcat(before + [B3], after, "c");
    assert WithIdxAB.indexes == before + [B3] + after;
    assert WithoutC.indexes == before + [B3NoC] + after;
  }

  lemma DropCColumns()
    ensures ColumnIndex(WithIdxAB.columns, "c") == Some(2)
    ensures ShiftDown(RemoveAt(WithIdxAB.columns, 2), 4) == WithoutC.columns
  {
    var cols := WithIdxAB.columns;
    ColumnAt(cols, 2, "c");
    var kept := [ColA, ColB.(position := 3), ColD.(position := 5), ColE.(position := 6), ColA1];
    assert RemoveAt(cols, 2) == kept;
    assert ShiftDown(kept, 4) == WithoutC.columns;
  }

  lemma DropCStep()
    ensures ApplySpecToTable(WithIdxAB, DropColumn("c"), Ctx) == Success(WithoutC)
  {
    DropCColumns();
    assert WithIdxAB.columns[2].position == 4;
    DropCIndexes();
  }

  lemma DropPkStep()
    ensures ApplySpecToTable(WithoutC, DropPrimaryKey, Ctx) == Success(WithoutPk)
  {
    IndexAt(WithoutC.indexes, 0, PrimaryKeyName);
    assert RemoveAt(WithoutC.indexes, 0) == WithoutPk.indexes;
  }

  lemma DropB2Step()
    ensures ApplySpecToTable(WithoutPk, DropIndex("b_2"), Ctx) == Success(WithoutB2)
  {
    IndexAt(WithoutPk.indexes, 2, "b_2");
    assert RemoveAt(WithoutPk.indexes, 2) == WithoutB2.indexes;
  }

  /** Renaming a key column to its own name leaves every key list as it was. */
  lemma RenameKeyToItself(indexes: seq<Index>, name: string)
    ensures RenameKeyInIndexes(indexes, name, name) == indexes
  {
    var r := RenameKeyInIndexes(indexes, name, name);
    forall i | 0 <= i < |indexes| ensures r[i] == indexes[i] {
      assert RenameKey(indexes[i].expressions, name, name) == indexes[i].expressions;
    }
  }

  /** The columns once b is removed: d and e move down one place. */
  const WithoutB := [ColA, ColD.(position := 3), ColE.(position := 4), ColA1]

  lemma ModifyBRemoves()
    ensures ColumnIndex(WithoutB2.columns, "b") == Some(1)
    ensures ShiftDown(RemoveAt(WithoutB2.columns, 1), 3) == WithoutB
  {
    var cols := WithoutB2.columns;
    ColumnAt(cols, 1, "b");
    var kept := [ColA, ColD.(position := 4), ColE, ColA1];
    assert RemoveAt(cols, 1) == kept;
    assert ShiftDown(kept, 3) == WithoutB;
  }

  lemma ModifyBAdds()
    ensures AddColumnToTable(WithoutB2.(columns := WithoutB), ModifyB, PositionFirst, Ctx) == Success(BFirst)
  {
    var rest := WithoutB;
    assert ColumnIndex(rest, "b").None?;
    var shifted := [ColA.(position := 2), ColD, ColE, ColA1.(position := 3)];
    assert ShiftUp(rest, 1) == shifted;
    assert NewColumn(ModifyB, 1) == NewB;
    assert shifted + [NewB] == BFirst.columns;
  }

  lemma ModifyBStep()
    ensures ApplySpecToTable(WithoutB2, ModifyColumn(ModifyB, PositionFirst), Ctx) == Success(BFirst)
  {
    ModifyBRemoves();
    ModifyBAdds();
    assert WithoutB2.columns[1].position == 3;
    RenameKeyToItself(BFirst.indexes, "b");
  }

  lemma ChangeDIndexes()
    ensures RenameKeyInIndexes(BFirst.indexes, "d", "d_copy") == DChanged.indexes
  {
    var r := RenameKeyInIndexes(BFirst.indexes, "d", "d_copy");
    assert RenameKey(["b"], "d", "d_copy") == ["b"];
    assert RenameKey(["a"], "d", "d_copy") == ["a"];
    assert RenameKey(["b", "d"], "d", "d_copy") == ["b", "d_copy"];
    assert RenameKey(["a", "b"], "d", "d_copy") == ["a", "b"];
    assert r[0] == UniqB && r[1] == IdxA && r[2] == B3Copy && r[3] == B4Copy && r[4] == IdxAB;
  }

  /** The columns once d is removed: e moves down to 4. */
  const WithoutD := [ColA.(position := 2), ColE.(position := 4), ColA1.(position := 3), NewB]

  lemma ChangeDRemoves()
    ensures ColumnIndex(BFirst.columns, "d") == Some(1)
    ensures ShiftDown(RemoveAt(BFirst.columns, 1), 4) == WithoutD
  {
    var cols := BFirst.columns;
    ColumnAt(cols, 1, "d");
    var kept := [ColA.(position := 2), ColE, ColA1.(position := 3), NewB];
    assert RemoveAt(cols, 1) == kept;
    assert ShiftDown(kept, 4) == WithoutD;
  }

  lemma ChangeDPosition()
    ensures SamePosition(WithoutD, 4) == PositionAfter("a1")
  {
    var rest := WithoutD;
    assert rest[0].position == 2 && rest[1].position == 4 && rest[2].position == 3;
    PositionAt(rest, 2, 3);
  }

  /** The columns other than d_copy once it is added after a1: nothing moves. */
  const BeforeDCopy := [ColA.(position := 2), ColE, ColA1.(position := 3), NewB]

  lemma ChangeDSlot()
    ensures ColumnIndex(WithoutD, "d_copy").None?
    ensures InsertPosition(WithoutD, "t", PositionAfter("a1"), Ctx) == Success((BeforeDCopy, 4))
  {
    var rest := WithoutD;
    ColumnAt(rest, 2, "a1");
    assert ShiftUp(rest, 4) == BeforeDCopy;
  }

  lemma ChangeDColumn()
    ensures NewColumn(ChangeD, 4) == DCopy
    ensures AddInlineIndexes(BFirst.(columns := DChanged.columns), "d_copy", ChangeD.options)
         == Success(BFirst.(columns := DChanged.columns))
  {
    assert CollationOf(ChangeD.options) == "utf8mb4_polish_ci";
    assert ChangeD.options[1..] == [];
  }

  lemma ChangeDAdds()
    ensures SamePosition(WithoutD, 4) == PositionAfter("a1")
    ensures AddColumnToTable(BFirst.(columns := WithoutD), ChangeD, PositionAfter("a1"), Ctx)
         == Success(BFirst.(columns := DChanged.columns))
  {
    ChangeDPosition();
    ChangeDSlot();
    ChangeDColumn();
    assert BeforeDCopy + [DCopy] == DChanged.columns;
  }

  lemma ChangeDTable()
    ensures ChangeColumnInTable(BFirst, "d", ChangeD, PositionNone, Ctx) == Success(DChanged)
  {
    ChangeDRemoves();
    ChangeDAdds();
    assert BFirst.columns[1].position == 4;
    ChangeDIndexes();
    var t1 := BFirst.(columns := DChanged.columns);
    assert t1.(indexes := RenameKeyInIndexes(t1.indexes, "d", "d_copy")) == DChanged;
  }

  /** CHANGE COLUMN is the column change, whatever the table. */
  lemma ChangeSpec(t: Table, oldName: string, def: ColumnDef, position: ColumnPosition, ctx: FinderContext)
    ensures ApplySpecToTable(t, ChangeColumn(oldName, def, position), ctx) == ChangeColumnInTable(t, oldName, def, position, ctx)
  {
  }

  lemma ChangeDStep()
    ensures ApplySpecToTable(BFirst, ChangeColumn("d", ChangeD, PositionNone), Ctx) == Success(DChanged)
  {
    ChangeSpec(BFirst, "d", ChangeD, PositionNone, Ctx);
    ChangeDTable();
  }

  lemma RenameAIndexes()
    ensures RenameKeyInIndexes(DChanged.indexes, "a", "a_copy") == ARenamed.indexes
  {
    var r := RenameKeyInIndexes(DChanged.indexes, "a", "a_copy");
    assert RenameKey(["b"], "a", "a_copy") == ["b"];
    assert RenameKey(["a"], "a", "a_copy") == ["a_copy"];
    assert RenameKey(["b", "d_copy"], "a", "a_copy") == ["b", "d_copy"];
    assert RenameKey(["a", "b"], "a", "a_copy") == ["a_copy", "b"];
    assert r[0] == UniqB && r[2] == B3Copy && r[3] == B4Copy;
  }

  lemma RenameAStep()
    ensures ApplySpecToTable(DChanged, RenameColumn("a", "a_copy"), Ctx) == Success(ARenamed)
  {
    var cols := DChanged.columns;
    ColumnAt(cols, 0, "a");
    assert ColumnIndex(cols, "a_copy").None?;
    assert cols[0 := cols[0].(name := "a_copy")] == ARenamed.columns;
    RenameAIndexes();
  }

  lemma DropDefaultStep()
    ensures ApplySpecToTable(TableRenamed, SetColumnDefault("a_copy", None), Ctx) == Success(DefaultDropped)
  {
    var cols := TableRenamed.columns;
    ColumnAt(cols, 0, "a_copy");
    assert cols[0 := cols[0].(default := None)] == DefaultDropped.columns;
  }

  lemma RenameIndexStep()
    ensures ApplySpecToTable(DefaultDropped, RenameIndex("b", "idx_b"), Ctx) == Success(IndexRenamed)
  {
    var ix := DefaultDropped.indexes;
    IndexAt(ix, 0, "b");
    assert IndexIndex(ix, "idx_b").None?;
    assert ix[0 := ix[0].(name := "idx_b")] == IndexRenamed.indexes;
  }

  lemma InvisibleStep()
    ensures ApplySpecToTable(IndexRenamed, AlterIndexVisibility("b_3", false), Ctx) == Success(Invisible)
  {
    var ix := IndexRenamed.indexes;
    IndexAt(ix, 2, "b_3");
    assert ix[2 := ix[2].(visible := false)] == Invisible.indexes;
  }

  // ---------------------------------------------------------------------------------------
  // The walk.
  // ---------------------------------------------------------------------------------------

  /** The schema holding just `t`. */
  function Only(t: Table): (s: Schema)
    ensures s.tables == [t]
  {
    Schema("", [t], [], [])
  }

  /** One single-clause ALTER TABLE on the schema's only table is that clause on the table. */
  lemma AlterOnly(t: Table, spec: AlterSpec, t1: Table)
    requires !spec.RenameTable? && ApplySpecToTable(t, spec, Ctx) == Success(t1)
    ensures ApplyStmt(Only(t), AlterTable(t.name, [spec]), Ctx) == Step(Only(t1), None)
  {
    assert TableIndex([t], t.name) == Some(0);
    assert [t][0 := t1] == [t1];
    assert ApplySpec(Only(t), t.name, spec, Ctx) == Success((Only(t1), t.name));
    assert [spec][1..] == [];
    assert ApplySpecs(Only(t1), t.name, [], Ctx) == Step(Only(t1), None);
    assert ApplySpecs(Only(t), t.name, [spec], Ctx) == Step(Only(t1), None);
  }

  lemma RenameTableStep()
    ensures ApplyStmt(Only(ARenamed), AlterTable("t", [RenameTable("t_copy")]), Ctx) == Step(Only(TableRenamed), None)
  {
    assert TableIndex([ARenamed], "t") == Some(0);
    assert TableIndex([ARenamed], "t_copy").None?;
    assert [ARenamed][0 := TableRenamed] == [TableRenamed];
    assert ApplySpec(Only(ARenamed), "t", RenameTable("t_copy"), Ctx) == Success((Only(TableRenamed), "t_copy"));
    assert [RenameTable("t_copy")][1..] == [];
    assert ApplySpecs(Only(TableRenamed), "t_copy", [], Ctx) == Step(Only(TableRenamed), None);
  }

  /** The schema after each statement. */
  function AlterSchemas(): seq<Schema>
  {
    [ Start().schema, Only(Created), Only(WithOptions), Only(WithA1), Only(WithIdxAB), Only(WithoutC), Only(WithoutPk),
      Only(WithoutB2), Only(BFirst), Only(DChanged), Only(ARenamed), Only(TableRenamed), Only(DefaultDropped),
      Only(IndexRenamed), Only(Invisible) ]
  }

  lemma CreateInEmptySchema()
    ensures CreateTableInSchema(Start().schema, "t", AlterDefs(), Clauses(), Ctx) == Step(Only(Created), None)
  {
    CreatedTable();
    assert [] + [Created] == [Created];
  }

  lemma Statement0()
    ensures ApplyStmt(AlterSchemas()[0], AlterStatements()[0], Ctx) == Step(AlterSchemas()[1], None)
  {
    var st := AlterStatements()[0];
    assert st == CreateTable("t", AlterDefs(), Clauses());
    assert AlterSchemas()[0] == Start().schema && AlterSchemas()[1] == Only(Created);
    CreateInEmptySchema();
  }

  lemma Statement1()
    ensures ApplyStmt(AlterSchemas()[1], AlterStatements()[1], Ctx) == Step(AlterSchemas()[2], None)
  {
    assert AlterSchemas()[1] == Only(Created) && AlterSchemas()[2] == Only(WithOptions);
    assert AlterStatements()[1] == AlterTable(Created.name, [SetTableOptions(TableOptions)]);
    SetOptionsStep();
    AlterOnly(Created, SetTableOptions(TableOptions), WithOptions);
  }

  lemma Statement2()
    ensures ApplyStmt(AlterSchemas()[2], AlterStatements()[2], Ctx) == Step(AlterSchemas()[3], None)
  {
    assert AlterSchemas()[2] == Only(WithOptions) && AlterSchemas()[3] == Only(WithA1);
    assert AlterStatements()[2] == AlterTable(WithOptions.name, [AddColumn(Plain("a1"), PositionAfter("a"))]);
    AddA1Step();
    AlterOnly(WithOptions, AddColumn(Plain("a1"), PositionAfter("a")), WithA1);
  }

  lemma Statement3()
    ensures ApplyStmt(AlterSchemas()[3], AlterStatements()[3], Ctx) == Step(AlterSchemas()[4], None)
  {
    assert AlterSchemas()[3] == Only(WithA1) && AlterSchemas()[4] == Only(WithIdxAB);
    assert AlterStatements()[3] == AlterTable(WithA1.name, [AddConstraint(AddIdxAB)]);
    AddIdxABStep();
    AlterOnly(WithA1, AddConstraint(AddIdxAB), WithIdxAB);
  }

  lemma Statement4()
    ensures ApplyStmt(AlterSchemas()[4], AlterStatements()[4], Ctx) == Step(AlterSchemas()[5], None)
  {
    assert AlterSchemas()[4] == Only(WithIdxAB) && AlterSchemas()[5] == Only(WithoutC);
    assert AlterStatements()[4] == AlterTable(WithIdxAB.name, [DropColumn("c")]);
    DropCStep();
    AlterOnly(WithIdxAB, DropColumn("c"), WithoutC);
  }

  lemma Statement5()
    ensures ApplyStmt(AlterSchemas()[5], AlterStatements()[5], Ctx) == Step(AlterSchemas()[6], None)
  {
    assert AlterSchemas()[5] == Only(WithoutC) && AlterSchemas()[6] == Only(WithoutPk);
    assert AlterStatements()[5] == AlterTable(WithoutC.name, [DropPrimaryKey]);
    DropPkStep();
    AlterOnly(WithoutC, DropPrimaryKey, WithoutPk);
  }

  lemma Statement6()
    ensures ApplyStmt(AlterSchemas()[6], AlterStatements()[6], Ctx) == Step(AlterSchemas()[7], None)
  {
    assert AlterSchemas()[6] == Only(WithoutPk) && AlterSchemas()[7] == Only(WithoutB2);
    assert AlterStatements()[6] == AlterTable(WithoutPk.name, [DropIndex("b_2")]);
    DropB2Step();
    AlterOnly(WithoutPk, DropIndex("b_2"), WithoutB2);
  }

  lemma Statement7()
    ensures ApplyStmt(AlterSchemas()[7], AlterStatements()[7], Ctx) == Step(AlterSchemas()[8], None)
  {
    assert AlterSchemas()[7] == Only(WithoutB2) && AlterSchemas()[8] == Only(BFirst);
    assert AlterStatements()[7] == AlterTable(WithoutB2.name, [ModifyColumn(ModifyB, PositionFirst)]);
    ModifyBStep();
    AlterOnly(WithoutB2, ModifyColumn(ModifyB, PositionFirst), BFirst);
  }

  lemma Statement8()
    ensures ApplyStmt(AlterSchemas()[8], AlterStatements()[8], Ctx) == Step(AlterSchemas()[9], None)
  {
    assert AlterSchemas()[8] == Only(BFirst) && AlterSchemas()[9] == Only(DChanged);
    assert AlterStatements()[8] == AlterTable(BFirst.name, [ChangeColumn("d", ChangeD, PositionNone)]);
    ChangeDStep();
    AlterOnly(BFirst, ChangeColumn("d", ChangeD, PositionNone), DChanged);
  }

  lemma Statement9()
    ensures ApplyStmt(AlterSchemas()[9], AlterStatements()[9], Ctx) == Step(AlterSchemas()[10], None)
  {
    assert AlterSchemas()[9] == Only(DChanged) && AlterSchemas()[10] == Only(ARenamed);
    assert AlterStatements()[9] == AlterTable(DChanged.name, [RenameColumn("a", "a_copy")]);
    RenameAStep();
    AlterOnly(DChanged, RenameColumn("a", "a_copy"), ARenamed);
  }

  lemma Statement10()
    ensures ApplyStmt(AlterSchemas()[10], AlterStatements()[10], Ctx) == Step(AlterSchemas()[11], None)
  {
    RenameTableStep();
  }

  lemma Statement11()
    ensures ApplyStmt(AlterSchemas()[11], AlterStatements()[11], Ctx) == Step(AlterSchemas()[12], None)
  {
    assert AlterSchemas()[11] == Only(TableRenamed) && AlterSchemas()[12] == Only(DefaultDropped);
    assert AlterStatements()[11] == AlterTable(TableRenamed.name, [SetColumnDefault("a_copy", None)]);
    DropDefaultStep();
    AlterOnly(TableRenamed, SetColumnDefault("a_copy", None), DefaultDropped);
  }

  lemma Statement12()
    ensures ApplyStmt(AlterSchemas()[12], AlterStatements()[12], Ctx) == Step(AlterSchemas()[13], None)
  {
    assert AlterSchemas()[12] == Only(DefaultDropped) && AlterSchemas()[13] == Only(IndexRenamed);
    assert AlterStatements()[12] == AlterTable(DefaultDropped.name, [RenameIndex("b", "idx_b")]);
    RenameIndexStep();
    AlterOnly(DefaultDropped, RenameIndex("b", "idx_b"), IndexRenamed);
  }

  lemma Statement13()
    ensures ApplyStmt(AlterSchemas()[13], AlterStatements()[13], Ctx) == Step(AlterSchemas()[14], None)
  {
    assert AlterSchemas()[13] == Only(IndexRenamed) && AlterSchemas()[14] == Only(Invisible);
    assert AlterStatements()[13] == AlterTable(IndexRenamed.name, [AlterIndexVisibility("b_3", false)]);
    InvisibleStep();
    AlterOnly(IndexRenamed, AlterIndexVisibility("b_3", false), Invisible);
  }

  lemma FirstStatements()
    ensures forall k :: 0 <= k < 7 ==> ApplyStmt(AlterSchemas()[k], AlterStatements()[k], Ctx) == Step(AlterSchemas()[k + 1], None)
  {
    forall k | 0 <= k < 7
      ensures ApplyStmt(AlterSchemas()[k], AlterStatements()[k], Ctx) == Step(AlterSchemas()[k + 1], None)
    {
      if k == 0 { Statement0(); }
      else if k == 1 { Statement1(); }
      else if k == 2 { Statement2(); }
      else if k == 3 { Statement3(); }
      else if k == 4 { Statement4(); }
      else if k == 5 { Statement5(); }
      else { Statement6(); }
    }
  }

  lemma MiddleStatements()
    ensures forall k :: 7 <= k < 10 ==> ApplyStmt(AlterSchemas()[k], AlterStatements()[k], Ctx) == Step(AlterSchemas()[k + 1], None)
  {
    forall k | 7 <= k < 10
      ensures ApplyStmt(AlterSchemas()[k], AlterStatements()[k], Ctx) == Step(AlterSchemas()[k + 1], None)
    {
      if k == 7 { Statement7(); }
      else if k == 8 { Statement8(); }
      else { Statement9(); }
    }
  }

  lemma LastStatements()
    ensures forall k :: 10 <= k < 14 ==> ApplyStmt(AlterSchemas()[k], AlterStatements()[k], Ctx) == Step(AlterSchemas()[k + 1], None)
  {
    forall k | 10 <= k < 14
      ensures ApplyStmt(AlterSchemas()[k], AlterStatements()[k], Ctx) == Step(AlterSchemas()[k + 1], None)
    {
      if k == 10 { Statement10(); }
      else if k == 11 { Statement11(); }
      else if k == 12 { Statement12(); }
      else { Statement13(); }
    }
  }

  /** The table reached is the expected one, its columns stored in another order. */
  lemma ReachedIsExpected()
    ensures Invisible == AlterExpected().(columns := Invisible.columns)
    ensures multiset(Invisible.columns) == multiset(AlterExpected().columns)
  {
    var c := Invisible.columns;
    var e := AlterExpected().columns;
    assert c == [e[1], e[4], e[2], e[0], e[3]];
    assert e == [e[0], e[1], e[2], e[3], e[4]];
  }

  /**
   * CREATE TABLE t(a, b, c, d, e, four index clauses) followed by the thirteen ALTER TABLE
   * statements: one table t_copy with the new collation, engine and comment; columns b, a_copy,
   * a1, d_copy, e at positions 1..5 (b re-created nullable as varchar(20), a_copy still NOT NULL
   * but without its default, c gone); indexes idx_b, idx_a, b_3 (invisible), b_4 and idx_a_b,
   * with c dropped from b_3's keys and the renamed columns renamed in every key list.
   */
  lemma AlterTableTest()
    ensures Walk(Start(), AlterStatements(), Ctx) == Outcome(DatabaseState("test", Only(Invisible)), None)
    ensures Invisible == AlterExpected().(columns := Invisible.columns)
    ensures multiset(Invisible.columns) == multiset(AlterExpected().columns)
  {
    FirstStatements();
    MiddleStatements();
    LastStatements();
    WalkChain(Start(), AlterStatements(), AlterSchemas(), Ctx);
    ReachedIsExpected();
  }
}
