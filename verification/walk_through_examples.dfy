/**
 * The walk-through's table-driven scenarios, each stated as the exact outcome of walking the
 * statements from an empty "test" database with integrity checking on (and, for one DROP
 * TABLE, off).  Literal catalogs are written out in full; each lemma evaluates the walk step by
 * step.
 */
module WalkThroughExamples {
  import opened Wrappers
  import opened Catalog
  import opened WalkThrough
  import IndexNaming
  import Text
  import WalkThroughProperties
  import AlterProperties

  const NoOptions := IndexOptions(None, false)

  function Defs(): seq<ColumnDef>
  {
    [ ColumnDef("a", "int(11)", "", [PrimaryKeyOption, DefaultOption("1")]),
      ColumnDef("b", "varchar(200)", "utf8mb4", [NotNullOption, UniqueKeyOption]),
      ColumnDef("c", "int(11)", "", [AutoIncrementOption, NullOption, CommentOption("This is a comment")]),
      ColumnDef("d", "varchar(10)", "", [CollateOption("utf8mb4_polish_ci")]) ]
  }

  function Clauses(): seq<Constraint>
  {
    [ Constraint(IndexConstraint, "idx_a", [KeyColumn("a")], NoOptions),
      Constraint(IndexConstraint, "", [KeyColumn("b"), KeyColumn("a")], NoOptions),
      AutoB3Clause,
      AutoB4Clause ]
  }

  const AutoB3Clause := Constraint(UniqueConstraint, "", [KeyColumn("b"), KeyColumn("c"), KeyColumn("d")], NoOptions)
  const AutoB4Clause := Constraint(FulltextConstraint, "", [KeyColumn("b"), KeyColumn("d")], IndexOptions(None, true))

  function Expected(): Table
  {
    Table("t", "", "", "",
      [ Column("a", 1, Some("1"), false, "int(11)", "", "", ""),
        Column("b", 2, None, false, "varchar(200)", "utf8mb4", "", ""),
        Column("c", 3, None, true, "int(11)", "", "", "This is a comment"),
        Column("d", 4, None, true, "varchar(10)", "", "utf8mb4_polish_ci", "") ],
      [ Index("PRIMARY", ["a"], "BTREE", true, true, true),
        Index("b", ["b"], "BTREE", true, false, true),
        Index("idx_a", ["a"], "BTREE", false, false, true),
        Index("b_2", ["b", "a"], "BTREE", false, false, true),
        Index("b_3", ["b", "c", "d"], "BTREE", true, false, true),
        Index("b_4", ["b", "d"], "FULLTEXT", false, false, false) ])
  }

  const Ctx := FinderContext(true)
  const NoCatalog := FinderContext(false)

  /** The walk's starting state in every scenario: database "test" with no schema at all. */
  function Start(): (d: DatabaseState)
    ensures d == DatabaseState("test", Schema("", [], [], []))
  {
    NewDatabaseState(Database("test", []))
  }
  /** The first column called `name` is at slot `i`. */
  lemma {:induction false} ColumnAt(columns: seq<Column>, i: nat, name: string)
    requires i < |columns| && columns[i].name == name
    requires forall j :: 0 <= j < i ==> columns[j].name != name
    ensures ColumnIndex(columns, name) == Some(i)
  {
    if i > 0 {
      ColumnAt(columns[1..], i - 1, name);
    }
  }

  /** The first column at `position` is at slot `i`. */
  lemma {:induction false} PositionAt(columns: seq<Column>, i: nat, position: nat)
    requires i < |columns| && columns[i].position == position
    requires forall j :: 0 <= j < i ==> columns[j].position != position
    ensures ColumnAtPosition(columns, position) == Some(i)
  {
    if i > 0 {
      PositionAt(columns[1..], i - 1, position);
    }
  }

  /** The first index called `name` is at slot `i`. */
  lemma {:induction false} IndexAt(indexes: seq<Index>, i: nat, name: string)
    requires i < |indexes| && indexes[i].name == name
    requires forall j :: 0 <= j < i ==> indexes[j].name != name
    ensures IndexIndex(indexes, name) == Some(i)
  {
    if i > 0 {
      IndexAt(indexes[1..], i - 1, name);
    }
  }

  /** A walk whose every statement succeeds ends in the last schema of the chain. */
  lemma {:induction false} WalkChain(d: DatabaseState, stmts: seq<Stmt>, schemas: seq<Schema>, ctx: FinderContext)
    requires |schemas| == |stmts| + 1 && schemas[0] == d.schema
    requires forall k :: 0 <= k < |stmts| ==> ApplyStmt(schemas[k], stmts[k], ctx) == Step(schemas[k + 1], None)
    ensures Walk(d, stmts, ctx) == Outcome(d.(schema := schemas[|stmts|]), None)
    decreases |stmts|
  {
    if |stmts| > 0 {
      WalkChain(d.(schema := schemas[1]), stmts[1..], schemas[1..], ctx);
    }
  }

  const ColA := Column("a", 1, Some("1"), false, "int(11)", "", "", "")
  const ColB := Column("b", 2, None, false, "varchar(200)", "utf8mb4", "", "")
  const ColC := Column("c", 3, None, true, "int(11)", "", "", "This is a comment")
  const ColD := Column("d", 4, None, true, "varchar(10)", "", "utf8mb4_polish_ci", "")
  const Pk := Index("PRIMARY", ["a"], "BTREE", true, true, true)
  const UniqB := Index("b", ["b"], "BTREE", true, false, true)
  const Cols := [ColA, ColB, ColC, ColD]
  const IdxA := Index("idx_a", ["a"], "BTREE", false, false, true)
  const B2 := Index("b_2", ["b", "a"], "BTREE", false, false, true)
  const B3 := Index("b_3", ["b", "c", "d"], "BTREE", true, false, true)
  const B4 := Index("b_4", ["b", "d"], "FULLTEXT", false, false, false)

  lemma ColumnA()
    ensures AddColumnToTable(Table("t", "", "", "", [], []), Defs()[0], PositionNone, Ctx)
         == Success(Table("t", "", "", "", [ColA], [Pk]))
  {
    var d := Defs()[0];
    assert Nullable(d.options) == false;
    assert DefaultOf(d.options) == Some("1");
    assert CommentOf(d.options) == "";
    assert CollationOf(d.options) == "";
    assert NewColumn(d, 1) == ColA;
    var t := Table("t", "", "", "", [ColA], []);
    assert IndexIndex(t.indexes, PrimaryKeyName).None?;
    assert Index(PrimaryKeyName, ["a"], DefaultIndexType, true, true, true) == Pk;
    assert t.indexes + [Pk] == [Pk];
    assert AddPrimaryKeyToTable(t, ["a"], DefaultIndexType) == Success(t.(indexes := [Pk]));
    assert InsertPosition([], "t", PositionNone, Ctx) == Success(([], 1));
    assert d.options[1..] == [DefaultOption("1")];
    var tp := t.(indexes := [Pk]);
    assert AddInlineIndexes(tp, "a", [DefaultOption("1")]) == AddInlineIndexes(tp, "a", []);
    assert AddInlineIndexes(t, "a", d.options) == AddInlineIndexes(tp, "a", d.options[1..]);
    assert Table("t", "", "", "", [], []).(columns := [] + [NewColumn(d, 1)]) == t;
  }

  lemma ColumnB()
    ensures AddColumnToTable(Table("t", "", "", "", [ColA], [Pk]), Defs()[1], PositionNone, Ctx)
         == Success(Table("t", "", "", "", [ColA, ColB], [Pk, UniqB]))
  {
    var d := Defs()[1];
    assert Nullable(d.options) == false;
    assert DefaultOf(d.options) == None;
    assert CommentOf(d.options) == "";
    assert CollationOf(d.options) == "";
    assert NewColumn(d, 2) == ColB;
    var t := Table("t", "", "", "", [ColA, ColB], [Pk]);
    IndexNamesAppend([], Pk);
    assert IndexNames([Pk]) == {"PRIMARY"};
    assert IndexNaming.AutoName({"PRIMARY"}, "b") == "b";
    assert Index("b", ["b"], DefaultIndexType, true, false, true) == UniqB;
    assert t.indexes + [UniqB] == [Pk, UniqB];
    assert AddIndexToTable(t, "", ["b"], true, DefaultIndexType, true) == Success(t.(indexes := [Pk, UniqB]));
    assert InsertPosition([ColA], "t", PositionNone, Ctx) == Success(([ColA], 2));
    assert ColumnIndex([ColA], "b").None?;
    assert d.options[1..] == [UniqueKeyOption];
    var tu := t.(indexes := [Pk, UniqB]);
    assert AddInlineIndexes(t, "b", d.options) == AddInlineIndexes(t, "b", d.options[1..]);
    assert AddInlineIndexes(t, "b", [UniqueKeyOption]) == AddInlineIndexes(tu, "b", []);
    assert Table("t", "", "", "", [ColA], [Pk]).(columns := [ColA] + [NewColumn(d, 2)]) == t;
  }

  lemma ColumnC()
    ensures AddColumnToTable(Table("t", "", "", "", [ColA, ColB], [Pk, UniqB]), Defs()[2], PositionNone, Ctx)
         == Success(Table("t", "", "", "", [ColA, ColB, ColC], [Pk, UniqB]))
  {
    var d := Defs()[2];
    assert Nullable(d.options) == true;
    assert d.options[..2] == [AutoIncrementOption, NullOption];
    assert d.options[..2][..1] == [AutoIncrementOption];
    assert DefaultOf(d.options) == None;
    assert CommentOf(d.options) == "This is a comment";
    assert CollationOf(d.options) == "";
    assert NewColumn(d, 3) == ColC;
    var t := Table("t", "", "", "", [ColA, ColB, ColC], [Pk, UniqB]);
    assert InsertPosition([ColA, ColB], "t", PositionNone, Ctx) == Success(([ColA, ColB], 3));
    assert AddInlineIndexes(t, "c", d.options) == AddInlineIndexes(t, "c", d.options[1..]);
    assert AddInlineIndexes(t, "c", d.options[1..]) == AddInlineIndexes(t, "c", d.options[2..]);
    assert AddInlineIndexes(t, "c", d.options[2..]) == AddInlineIndexes(t, "c", []);
    assert Table("t", "", "", "", [ColA, ColB], [Pk, UniqB]).(columns := [ColA, ColB] + [NewColumn(d, 3)]) == t;
  }

  lemma ColumnD()
    ensures AddColumnToTable(Table("t", "", "", "", [ColA, ColB, ColC], [Pk, UniqB]), Defs()[3], PositionNone, Ctx)
         == Success(Table("t", "", "", "", [ColA, ColB, ColC, ColD], [Pk, UniqB]))
  {
    var d := Defs()[3];
    assert Nullable(d.options) == true;
    assert DefaultOf(d.options) == None;
    assert CommentOf(d.options) == "";
    assert CollationOf(d.options) == "utf8mb4_polish_ci";
    assert NewColumn(d, 4) == ColD;
    var t := Table("t", "", "", "", [ColA, ColB, ColC, ColD], [Pk, UniqB]);
    assert InsertPosition([ColA, ColB, ColC], "t", PositionNone, Ctx) == Success(([ColA, ColB, ColC], 4));
    assert AddInlineIndexes(t, "d", d.options) == AddInlineIndexes(t, "d", []);
    assert Table("t", "", "", "", [ColA, ColB, ColC], [Pk, UniqB]).(columns := [ColA, ColB, ColC] + [NewColumn(d, 4)]) == t;
  }

  /** Building columns takes the first definition, then builds the rest on the result. */
  lemma ColumnsStep(t: Table, defs: seq<ColumnDef>, ctx: FinderContext, t1: Table)
    requires |defs| > 0 && AddColumnToTable(t, defs[0], PositionNone, ctx) == Success(t1)
    ensures BuildColumns(t, defs, ctx) == BuildColumns(t1, defs[1..], ctx)
  {
  }

  /** Building constraints takes the first clause, then builds the rest on the result. */
  lemma ConstraintsStep(t: Table, clauses: seq<Constraint>, ctx: FinderContext, t1: Table)
    requires |clauses| > 0 && AddConstraintToTable(t, clauses[0], ctx) == Success(t1)
    ensures BuildConstraints(t, clauses, ctx) == BuildConstraints(t1, clauses[1..], ctx)
  {
  }

  /** A table is built from its columns and then its clauses. */
  lemma TableBuilt(name: string, defs: seq<ColumnDef>, clauses: seq<Constraint>, ctx: FinderContext, mid: Table, final: Table)
    requires BuildColumns(Table(name, "", "", "", [], []), defs, ctx) == Success(mid)
    requires BuildConstraints(mid, clauses, ctx) == Success(final)
    ensures BuildTable(name, defs, clauses, ctx) == Success(final)
  {
  }

  lemma ColumnSteps()
    ensures BuildColumns(Table("t", "", "", "", [], []), Defs(), Ctx)
         == Success(Table("t", "", "", "", [ColA, ColB, ColC, ColD], [Pk, UniqB]))
  {
    var defs := Defs();
    ColumnA();
    ColumnsStep(Table("t", "", "", "", [], []), defs, Ctx, Table("t", "", "", "", [ColA], [Pk]));
    ColumnB();
    ColumnsStep(Table("t", "", "", "", [ColA], [Pk]), defs[1..], Ctx, Table("t", "", "", "", [ColA, ColB], [Pk, UniqB]));
    ColumnC();
    assert defs[1..][1..] == defs[2..];
    ColumnsStep(Table("t", "", "", "", [ColA, ColB], [Pk, UniqB]), defs[2..], Ctx, Table("t", "", "", "", [ColA, ColB, ColC], [Pk, UniqB]));
    ColumnD();
    assert defs[2..][1..] == defs[3..];
    ColumnsStep(Table("t", "", "", "", [ColA, ColB, ColC], [Pk, UniqB]), defs[3..], Ctx, Table("t", "", "", "", [ColA, ColB, ColC, ColD], [Pk, UniqB]));
    assert defs[3..][1..] == [];
  }

  lemma ResolvedKeys(t: Table, keys: seq<KeyPart>, names: seq<string>, ctx: FinderContext)
    requires |keys| == |names|
    requires forall i :: 0 <= i < |keys| ==> keys[i] == KeyColumn(names[i]) && ColumnIndex(t.columns, names[i]).Some?
    ensures ResolveKeys(t, keys, ctx) == Success(names)
  {
    var r := ResolveKeys(t, keys, ctx);
    assert r.Success?;
    assert forall i :: 0 <= i < |keys| ==> r.value[i] == KeyText(keys[i]) == names[i];
    assert r.value == names;
  }

  /** An explicitly named index whose name is free is appended under that name. */
  lemma NamedIndexAdded(t: Table, name: string, keys: seq<string>, unique: bool, indexType: string, visible: bool)
    requires |keys| > 0 && name != "" && name != PrimaryKeyName && name !in IndexNames(t.indexes)
    ensures AddIndexToTable(t, name, keys, unique, indexType, visible)
         == Success(t.(indexes := t.indexes + [Index(name, keys, indexType, unique, false, visible)]))
  {
    assert forall i :: 0 <= i < |t.indexes| ==> t.indexes[i].name in IndexNames(t.indexes);
  }

  /** A non-primary index clause whose keys resolve adds its index to the table. */
  lemma IndexClauseAdds(t: Table, c: Constraint, keys: seq<string>, ctx: FinderContext)
    requires c.kind.IndexConstraint? || c.kind.UniqueConstraint? || c.kind.FulltextConstraint?
    requires ResolveKeys(t, c.keys, ctx) == Success(keys)
    ensures AddConstraintToTable(t, c, ctx)
         == AddIndexToTable(t, c.name, keys, c.kind.UniqueConstraint?,
                            if c.kind.FulltextConstraint? then FulltextIndexType else IndexTypeOf(c.options), !c.options.invisible)
  {
  }

  /** The first four columns are a, b, c, d: the columns the index clauses name. */
  predicate KeyColumnsAt(cols: seq<Column>)
  {
    |cols| >= 4 && cols[0].name == "a" && cols[1].name == "b" && cols[2].name == "c" && cols[3].name == "d"
  }

  lemma ClauseIdxA(cols: seq<Column>)
    requires KeyColumnsAt(cols)
    ensures AddConstraintToTable(Table("t", "", "", "", cols, [Pk, UniqB]), Clauses()[0], Ctx)
         == Success(Table("t", "", "", "", cols, [Pk, UniqB, IdxA]))
  {
    var t := Table("t", "", "", "", cols, [Pk, UniqB]);
    var c := Clauses()[0];
    assert cols[0].name == "a";
    ResolvedKeys(t, c.keys, ["a"], Ctx);
    IndexNamesAppend([], Pk);
    assert [] + [Pk] == [Pk];
    IndexNamesAppend([Pk], UniqB);
    assert [Pk] + [UniqB] == [Pk, UniqB];
    assert IndexNames(t.indexes) == {"PRIMARY", "b"};
    assert [Pk, UniqB] + [IdxA] == [Pk, UniqB, IdxA];
  }

  lemma AutoB2()
    ensures IndexNaming.AutoName({"PRIMARY", "b", "idx_a"}, "b") == "b_2"
  {
    assert Text.NatToString(2) == "2";
    IndexNaming.AutoNameIsFirstFree({"PRIMARY", "b", "idx_a"}, "b", 2);
  }

  lemma ClauseB2(cols: seq<Column>)
    requires KeyColumnsAt(cols)
    ensures AddConstraintToTable(Table("t", "", "", "", cols, [Pk, UniqB, IdxA]), Clauses()[1], Ctx)
         == Success(Table("t", "", "", "", cols, [Pk, UniqB, IdxA, B2]))
  {
    var t := Table("t", "", "", "", cols, [Pk, UniqB, IdxA]);
    var c := Clauses()[1];
    assert cols[0].name == "a";
    assert cols[1].name == "b";
    ResolvedKeys(t, c.keys, ["b", "a"], Ctx);
    NamesUpToIdxA();
    AutoB2();
    assert [Pk, UniqB, IdxA] + [B2] == [Pk, UniqB, IdxA, B2];
  }

  lemma NamesUpToIdxA()
    ensures IndexNames([Pk, UniqB, IdxA]) == {"PRIMARY", "b", "idx_a"}
  {
    IndexNamesAppend([], Pk);
    assert [] + [Pk] == [Pk];
    IndexNamesAppend([Pk], UniqB);
    assert [Pk] + [UniqB] == [Pk, UniqB];
    IndexNamesAppend([Pk, UniqB], IdxA);
    assert [Pk, UniqB] + [IdxA] == [Pk, UniqB, IdxA];
  }

  lemma NamesUpToB2()
    ensures IndexNames([Pk, UniqB, IdxA, B2]) == {"PRIMARY", "b", "idx_a", "b_2"}
  {
    NamesUpToIdxA();
    IndexNamesAppend([Pk, UniqB, IdxA], B2);
    assert [Pk, UniqB, IdxA] + [B2] == [Pk, UniqB, IdxA, B2];
  }

  lemma NamesUpToB3()
    ensures IndexNames([Pk, UniqB, IdxA, B2, B3]) == {"PRIMARY", "b", "idx_a", "b_2", "b_3"}
  {
    NamesUpToB2();
    IndexNamesAppend([Pk, UniqB, IdxA, B2], B3);
    assert [Pk, UniqB, IdxA, B2] + [B3] == [Pk, UniqB, IdxA, B2, B3];
  }

  lemma NamesUpToB4()
    ensures IndexNames([Pk, UniqB, IdxA, B2, B3, B4]) == {"PRIMARY", "b", "idx_a", "b_2", "b_3", "b_4"}
  {
    NamesUpToB3();
    IndexNamesAppend([Pk, UniqB, IdxA, B2, B3], B4);
    assert [Pk, UniqB, IdxA, B2, B3] + [B4] == [Pk, UniqB, IdxA, B2, B3, B4];
  }

  lemma AutoB3()
    ensures IndexNaming.AutoName({"PRIMARY", "b", "idx_a", "b_2"}, "b") == "b_3"
  {
    assert Text.NatToString(2) == "2";
    assert Text.NatToString(3) == "3";
    assert IndexNaming.Candidate("b", 2) == "b_2";
    assert IndexNaming.Candidate("b", 3) == "b_3";
    IndexNaming.AutoNameIsFirstFree({"PRIMARY", "b", "idx_a", "b_2"}, "b", 3);
  }

  lemma AutoB4()
    ensures IndexNaming.AutoName({"PRIMARY", "b", "idx_a", "b_2", "b_3"}, "b") == "b_4"
  {
    assert Text.NatToString(2) == "2";
    assert Text.NatToString(3) == "3";
    assert Text.NatToString(4) == "4";
    assert IndexNaming.Candidate("b", 2) == "b_2";
    assert IndexNaming.Candidate("b", 3) == "b_3";
    assert IndexNaming.Candidate("b", 4) == "b_4";
    IndexNaming.AutoNameIsFirstFree({"PRIMARY", "b", "idx_a", "b_2", "b_3"}, "b", 4);
  }

  /** An unnamed index clause whose keys resolve appends its index under the default name. */
  lemma AutoClauseStep(t: Table, c: Constraint, keys: seq<string>, added: Index)
    requires c.kind.IndexConstraint? || c.kind.UniqueConstraint? || c.kind.FulltextConstraint?
    requires ResolveKeys(t, c.keys, Ctx) == Success(keys) && |keys| > 0 && c.name == ""
    requires added == Index(IndexNaming.AutoName(IndexNames(t.indexes), keys[0]), keys,
                            if c.kind.FulltextConstraint? then FulltextIndexType else IndexTypeOf(c.options),
                            c.kind.UniqueConstraint?, false, !c.options.invisible)
    ensures AddConstraintToTable(t, c, Ctx) == Success(t.(indexes := t.indexes + [added]))
  {
    IndexClauseAdds(t, c, keys, Ctx);
  }

  lemma ClauseB3(cols: seq<Column>)
    requires KeyColumnsAt(cols)
    ensures AddConstraintToTable(Table("t", "", "", "", cols, [Pk, UniqB, IdxA, B2]), AutoB3Clause, Ctx)
         == Success(Table("t", "", "", "", cols, [Pk, UniqB, IdxA, B2, B3]))
  {
    var t := Table("t", "", "", "", cols, [Pk, UniqB, IdxA, B2]);
    ColumnAt(cols, 1, "b");
    ColumnAt(cols, 2, "c");
    ColumnAt(cols, 3, "d");
    ResolvedKeys(t, AutoB3Clause.keys, ["b", "c", "d"], Ctx);
    NamesUpToB2();
    AutoB3();
    AutoClauseStep(t, AutoB3Clause, ["b", "c", "d"], B3);
    assert [Pk, UniqB, IdxA, B2] + [B3] == [Pk, UniqB, IdxA, B2, B3];
  }

  lemma ClauseB4(cols: seq<Column>)
    requires KeyColumnsAt(cols)
    ensures AddConstraintToTable(Table("t", "", "", "", cols, [Pk, UniqB, IdxA, B2, B3]), AutoB4Clause, Ctx)
         == Success(Table("t", "", "", "", cols, [Pk, UniqB, IdxA, B2, B3, B4]))
  {
    var t := Table("t", "", "", "", cols, [Pk, UniqB, IdxA, B2, B3]);
    ColumnAt(cols, 1, "b");
    ColumnAt(cols, 3, "d");
    ResolvedKeys(t, AutoB4Clause.keys, ["b", "d"], Ctx);
    NamesUpToB3();
    AutoB4();
    AutoClauseStep(t, AutoB4Clause, ["b", "d"], B4);
    assert [Pk, UniqB, IdxA, B2, B3] + [B4] == [Pk, UniqB, IdxA, B2, B3, B4];
  }

  lemma ConstraintSteps(cols: seq<Column>)
    requires KeyColumnsAt(cols)
    ensures BuildConstraints(Table("t", "", "", "", cols, [Pk, UniqB]), Clauses(), Ctx)
         == Success(Table("t", "", "", "", cols, [Pk, UniqB, IdxA, B2, B3, B4]))
  {
    var cs := Clauses();
    ClauseIdxA(cols);
    ConstraintsStep(Table("t", "", "", "", cols, [Pk, UniqB]), cs, Ctx, Table("t", "", "", "", cols, [Pk, UniqB, IdxA]));
    ClauseB2(cols);
    ConstraintsStep(Table("t", "", "", "", cols, [Pk, UniqB, IdxA]), cs[1..], Ctx, Table("t", "", "", "", cols, [Pk, UniqB, IdxA, B2]));
    ClauseB3(cols);
    assert cs[1..][1..] == cs[2..];
    ConstraintsStep(Table("t", "", "", "", cols, [Pk, UniqB, IdxA, B2]), cs[2..], Ctx, Table("t", "", "", "", cols, [Pk, UniqB, IdxA, B2, B3]));
    ClauseB4(cols);
    assert cs[2..][1..] == cs[3..];
    ConstraintsStep(Table("t", "", "", "", cols, [Pk, UniqB, IdxA, B2, B3]), cs[3..], Ctx, Table("t", "", "", "", cols, [Pk, UniqB, IdxA, B2, B3, B4]));
    assert cs[3..][1..] == [];
  }

  lemma CreateTableExample()
    ensures BuildTable("t", Defs(), Clauses(), Ctx) == Success(Expected())
  {
    ColumnSteps();
    ConstraintSteps(Cols);
    TableBuilt("t", Defs(), Clauses(), Ctx, Table("t", "", "", "", Cols, [Pk, UniqB]), Expected());
  }

  /**
   * CREATE TABLE with inline PRIMARY KEY / UNIQUE options and four unnamed-or-named index
   * clauses: positions 1..4 in declaration order, the primary key and the inline unique key
   * first, then the clauses named idx_a, b_2, b_3, b_4.
   */
  lemma CreateTableTest()
    ensures Walk(Start(), [CreateTable("t", Defs(), Clauses())], Ctx)
         == Outcome(DatabaseState("test", Schema("", [Expected()], [], [])), None)
  {
    CreateTableExample();
    var stmts := [CreateTable("t", Defs(), Clauses())];
    assert ApplyStmt(Start().schema, stmts[0], Ctx) == Step(Schema("", [] + [Expected()], [], []), None);
    assert stmts[1..] == [];
    assert [] + [Expected()] == [Expected()];
  }

  // ---------------------------------------------------------------------------------------
  // Tables of plain columns: no column options, so nullable, no default, appended.
  // ---------------------------------------------------------------------------------------

  function Plain(name: string): ColumnDef
  {
    ColumnDef(name, "int(11)", "", [])
  }

  lemma PlainColumnAdded(t: Table, name: string, ctx: FinderContext)
    requires forall i :: 0 <= i < |t.columns| ==> t.columns[i].name != name
    ensures AddColumnToTable(t, Plain(name), PositionNone, ctx)
         == Success(t.(columns := t.columns + [Column(name, |t.columns| + 1, None, true, "int(11)", "", "", "")]))
  {
    assert Nullable([]) == true;
    assert NewColumn(Plain(name), |t.columns| + 1) == Column(name, |t.columns| + 1, None, true, "int(11)", "", "", "");
  }

  const PlainA := Column("a", 1, None, true, "int(11)", "", "", "")
  const PlainB := Column("b", 2, None, true, "int(11)", "", "", "")
  const PlainC := Column("c", 3, None, true, "int(11)", "", "", "")

  const CompositePk := Constraint(PrimaryKeyConstraint, "", [KeyColumn("a"), KeyColumn("b")], NoOptions)

  /** The table the composite-key scenario expects. */
  function CompositeExpected(): Table
  {
    Table("t", "", "", "", [ Column("a", 1, None, false, "int(11)", "", "", ""),
                             Column("b", 2, None, false, "int(11)", "", "", "") ],
          [ Index("PRIMARY", ["a", "b"], "BTREE", true, true, true) ])
  }

  lemma CompositeColumns()
    ensures BuildColumns(Table("t", "", "", "", [], []), [Plain("a"), Plain("b")], Ctx)
         == Success(Table("t", "", "", "", [PlainA, PlainB], []))
  {
    var empty := Table("t", "", "", "", [], []);
    PlainColumnAdded(empty.(columns := [PlainA]), "b", Ctx);
    assert [PlainA] + [PlainB] == [PlainA, PlainB];
    assert [Plain("b")][1..] == [];
    assert BuildColumns(empty.(columns := [PlainA]), [Plain("b")], Ctx) == Success(Table("t", "", "", "", [PlainA, PlainB], []));
    PlainColumnAdded(empty, "a", Ctx);
    assert [] + [PlainA] == [PlainA];
    assert [Plain("a"), Plain("b")][1..] == [Plain("b")];
  }

  lemma CompositeKey()
    ensures AddConstraintToTable(Table("t", "", "", "", [PlainA, PlainB], []), CompositePk, Ctx) == Success(CompositeExpected())
  {
    var t0 := Table("t", "", "", "", [PlainA, PlainB], []);
    var keys := CompositePk.keys;
    ResolvedKeys(t0, keys, ["a", "b"], Ctx);
    assert MarkNotNull([PlainA, PlainB], keys) == [PlainA.(nullable := false), PlainB.(nullable := false)];
    assert IndexTypeOf(NoOptions) == DefaultIndexType;
    var marked := t0.(columns := MarkNotNull(t0.columns, keys));
    var primary := Index(PrimaryKeyName, ["a", "b"], DefaultIndexType, true, true, true);
    assert AddPrimaryKeyToTable(marked, ["a", "b"], DefaultIndexType) == Success(marked.(indexes := [] + [primary]));
    assert marked.(indexes := [] + [primary]) == CompositeExpected();
  }

  /** CREATE TABLE t(a int, b int, PRIMARY KEY (a, b)): one composite primary key, both columns NOT NULL. */
  lemma CompositePrimaryKeyTest()
    ensures Walk(Start(), [CreateTable("t", [Plain("a"), Plain("b")], [CompositePk])], Ctx)
         == Outcome(DatabaseState("test", Schema("", [CompositeExpected()], [], [])), None)
  {
    CompositeColumns();
    CompositeKey();
    var expected := CompositeExpected();
    assert [CompositePk][1..] == [];
    assert BuildConstraints(Table("t", "", "", "", [PlainA, PlainB], []), [CompositePk], Ctx) == Success(expected);
    var stmts := [CreateTable("t", [Plain("a"), Plain("b")], [CompositePk])];
    assert ApplyStmt(Start().schema, stmts[0], Ctx) == Step(Schema("", [] + [expected], [], []), None);
    assert stmts[1..] == [];
    assert [] + [expected] == [expected];
  }

  /** Builds a table of plain int columns named `names`, appended at positions 1, 2, ... */
  lemma PlainTableBuilt(name: string, cols: seq<Column>, more: string, ctx: FinderContext)
    requires forall i :: 0 <= i < |cols| ==> cols[i].name != more
    ensures AddColumnToTable(Table(name, "", "", "", cols, []), Plain(more), PositionNone, ctx)
         == Success(Table(name, "", "", "", cols + [Column(more, |cols| + 1, None, true, "int(11)", "", "", "")], []))
  {
    PlainColumnAdded(Table(name, "", "", "", cols, []), more, ctx);
  }

  lemma BuildT1()
    ensures BuildTable("t1", [Plain("a"), Plain("b"), Plain("c")], [], Ctx)
         == Success(Table("t1", "", "", "", [PlainA, PlainB, PlainC], []))
  {
    var defs := [Plain("a"), Plain("b"), Plain("c")];
    var t3 := Table("t1", "", "", "", [PlainA, PlainB, PlainC], []);
    PlainTableBuilt("t1", [PlainA, PlainB], "c", Ctx);
    assert [PlainA, PlainB] + [PlainC] == [PlainA, PlainB, PlainC];
    assert defs[2..] == [Plain("c")] && [Plain("c")][1..] == [];
    assert BuildColumns(Table("t1", "", "", "", [PlainA, PlainB], []), defs[2..], Ctx) == Success(t3);
    PlainTableBuilt("t1", [PlainA], "b", Ctx);
    assert [PlainA] + [PlainB] == [PlainA, PlainB];
    assert defs[1..][1..] == defs[2..];
    assert BuildColumns(Table("t1", "", "", "", [PlainA], []), defs[1..], Ctx) == Success(t3);
    PlainTableBuilt("t1", [], "a", Ctx);
    assert [] + [PlainA] == [PlainA];
    assert BuildColumns(Table("t1", "", "", "", [], []), defs, Ctx) == Success(t3);
  }

  lemma BuildT2()
    ensures BuildTable("t2", [Plain("a")], [], Ctx) == Success(Table("t2", "", "", "", [PlainA], []))
  {
    PlainTableBuilt("t2", [], "a", Ctx);
    assert [] + [PlainA] == [PlainA];
    assert [Plain("a")][1..] == [];
  }

  const T1 := Table("t1", "", "", "", [PlainA, PlainB, PlainC], [])
  const T2 := Table("t2", "", "", "", [PlainA], [])

  function CreateDropStatements(): seq<Stmt>
  {
    [ CreateTable("t1", [Plain("a"), Plain("b"), Plain("c")], []),
      CreateTable("t2", [Plain("a")], []),
      DropTable(["t1", "t2"]) ]
  }

  function CreateDropSchemas(): seq<Schema>
  {
    [ Start().schema, Schema("", [T1], [], []), Schema("", [T1, T2], [], []), Schema("", [], [], []) ]
  }

  lemma CreateT1Step()
    ensures ApplyStmt(CreateDropSchemas()[0], CreateDropStatements()[0], Ctx) == Step(CreateDropSchemas()[1], None)
  {
    BuildT1();
    assert [] + [T1] == [T1];
  }

  lemma CreateT2Step()
    ensures ApplyStmt(CreateDropSchemas()[1], CreateDropStatements()[1], Ctx) == Step(CreateDropSchemas()[2], None)
  {
    BuildT2();
    assert TableIndex([T1], "t2").None?;
    assert [T1] + [T2] == [T1, T2];
  }

  lemma DropBothStep()
    ensures ApplyStmt(CreateDropSchemas()[2], CreateDropStatements()[2], Ctx) == Step(CreateDropSchemas()[3], None)
  {
    var s2 := Schema("", [T1, T2], [], []);
    assert s2.tables[0].name == "t1" && s2.tables[1].name == "t2";
    WalkThroughProperties.DropAllTables(s2, ["t1", "t2"], Ctx);
  }

  /**
   * CREATE TABLE t1(a, b, c); CREATE TABLE t2(a); DROP TABLE t1, t2: the schema is left with
   * present but empty table, view and extension lists.
   */
  lemma CreateThenDropTablesTest()
    ensures Walk(Start(), CreateDropStatements(), Ctx) == Outcome(DatabaseState("test", Schema("", [], [], [])), None)
  {
    forall k | 0 <= k < 3
      ensures ApplyStmt(CreateDropSchemas()[k], CreateDropStatements()[k], Ctx) == Step(CreateDropSchemas()[k + 1], None)
    {
      if k == 0 { CreateT1Step(); }
      else if k == 1 { CreateT2Step(); }
      else { DropBothStep(); }
    }
    WalkChain(Start(), CreateDropStatements(), CreateDropSchemas(), Ctx);
  }

  /** With integrity checking, DROP TABLE t1, t2 on an empty database stops at t1. */
  lemma MissingT1Message()
    ensures "Table `" + "t1" + "` does not exist" == "Table `t1` does not exist"
  {
  }

  lemma DropMissingT1Step()
    ensures ApplyStmt(Start().schema, DropTable(["t1", "t2"]), Ctx)
         == Step(Start().schema, Some(WalkThroughError(TableNotExists, "Table `t1` does not exist")))
  {
    WalkThroughProperties.DropMissingTableFails(Start().schema, ["t1", "t2"], Ctx);
    MissingT1Message();
  }

  lemma DropMissingTablesTest()
    ensures Walk(Start(), [DropTable(["t1", "t2"])], Ctx)
         == Outcome(Start(), Some(WalkThroughError(TableNotExists, "Table `t1` does not exist")))
  {
    DropMissingT1Step();
  }


  /** Without integrity checking the same statement succeeds and changes nothing. */
  lemma DropMissingTablesNoCatalogTest()
    ensures Walk(Start(), [DropTable(["t1", "t2"])], NoCatalog) == Outcome(Start(), None)
  {
    var s := Start().schema;
    assert ["t1", "t2"][1..] == ["t2"];
    assert DropTablesFromSchema(s, ["t2"], NoCatalog) == Step(s, None);
    assert DropTablesFromSchema(s, ["t1", "t2"], NoCatalog) == Step(s, None);
    assert [DropTable(["t1", "t2"])][1..] == [];
  }

  // ---------------------------------------------------------------------------------------
  // The same table through standalone CREATE INDEX statements with explicit names.
  // ---------------------------------------------------------------------------------------

  /** The four index clauses of the first scenario, named as the defaults they received there. */
  function NamedClauses(): seq<Constraint>
  {
    [ Constraint(IndexConstraint, "idx_a", [KeyColumn("a")], NoOptions),
      NamedB2Clause,
      NamedB3Clause,
      NamedB4Clause ]
  }

  lemma KeysBCD(t: Table)
    requires KeyColumnsAt(t.columns)
    ensures ResolveKeys(t, NamedB3Clause.keys, Ctx) == Success(["b", "c", "d"])
  {
    ColumnAt(t.columns, 1, "b");
    ColumnAt(t.columns, 2, "c");
    ColumnAt(t.columns, 3, "d");
    ResolvedKeys(t, NamedB3Clause.keys, ["b", "c", "d"], Ctx);
  }

  /** A named index clause whose keys resolve and whose name is free appends its index. */
  lemma NamedClauseStep(t: Table, c: Constraint, keys: seq<string>, added: Index)
    requires c.kind.IndexConstraint? || c.kind.UniqueConstraint? || c.kind.FulltextConstraint?
    requires ResolveKeys(t, c.keys, Ctx) == Success(keys) && |keys| > 0
    requires c.name != "" && c.name != PrimaryKeyName && c.name !in IndexNames(t.indexes)
    requires added == Index(c.name, keys, if c.kind.FulltextConstraint? then FulltextIndexType else IndexTypeOf(c.options),
                            c.kind.UniqueConstraint?, false, !c.options.invisible)
    ensures AddConstraintToTable(t, c, Ctx) == Success(t.(indexes := t.indexes + [added]))
  {
    IndexClauseAdds(t, c, keys, Ctx);
    NamedIndexAdded(t, c.name, keys, c.kind.UniqueConstraint?,
                    if c.kind.FulltextConstraint? then FulltextIndexType else IndexTypeOf(c.options), !c.options.invisible);
  }

  const NamedB2Clause := Constraint(IndexConstraint, "b_2", [KeyColumn("b"), KeyColumn("a")], NoOptions)
  const NamedB3Clause := Constraint(UniqueConstraint, "b_3", [KeyColumn("b"), KeyColumn("c"), KeyColumn("d")], NoOptions)

  lemma NamedB2(cols: seq<Column>)
    requires KeyColumnsAt(cols)
    ensures AddConstraintToTable(Table("t", "", "", "", cols, [Pk, UniqB, IdxA]), NamedB2Clause, Ctx)
         == Success(Table("t", "", "", "", cols, [Pk, UniqB, IdxA, B2]))
  {
    var t := Table("t", "", "", "", cols, [Pk, UniqB, IdxA]);
    ColumnAt(cols, 0, "a");
    ColumnAt(cols, 1, "b");
    ResolvedKeys(t, NamedB2Clause.keys, ["b", "a"], Ctx);
    NamesUpToIdxA();
    NamedClauseStep(t, NamedB2Clause, ["b", "a"], B2);
    assert [Pk, UniqB, IdxA] + [B2] == [Pk, UniqB, IdxA, B2];
  }

  lemma NamedB3(cols: seq<Column>)
    requires KeyColumnsAt(cols)
    ensures AddConstraintToTable(Table("t", "", "", "", cols, [Pk, UniqB, IdxA, B2]), NamedB3Clause, Ctx)
         == Success(Table("t", "", "", "", cols, [Pk, UniqB, IdxA, B2, B3]))
  {
    var t := Table("t", "", "", "", cols, [Pk, UniqB, IdxA, B2]);
    KeysBCD(t);
    NamesUpToB2();
    NamedClauseStep(t, NamedB3Clause, ["b", "c", "d"], B3);
    assert [Pk, UniqB, IdxA, B2] + [B3] == [Pk, UniqB, IdxA, B2, B3];
  }

  const NamedB4Clause := Constraint(FulltextConstraint, "b_4", [KeyColumn("b"), KeyColumn("d")], IndexOptions(None, true))

  lemma NamedB4(cols: seq<Column>)
    requires KeyColumnsAt(cols)
    ensures AddConstraintToTable(Table("t", "", "", "", cols, [Pk, UniqB, IdxA, B2, B3]), NamedB4Clause, Ctx)
         == Success(Table("t", "", "", "", cols, [Pk, UniqB, IdxA, B2, B3, B4]))
  {
    var t := Table("t", "", "", "", cols, [Pk, UniqB, IdxA, B2, B3]);
    ColumnAt(cols, 1, "b");
    ColumnAt(cols, 3, "d");
    ResolvedKeys(t, NamedB4Clause.keys, ["b", "d"], Ctx);
    NamesUpToB3();
    NamedClauseStep(t, NamedB4Clause, ["b", "d"], B4);
    assert [Pk, UniqB, IdxA, B2, B3] + [B4] == [Pk, UniqB, IdxA, B2, B3, B4];
  }

  lemma NamedConstraintSteps(cols: seq<Column>)
    requires KeyColumnsAt(cols)
    ensures BuildConstraints(Table("t", "", "", "", cols, [Pk, UniqB]), NamedClauses(), Ctx)
         == Success(Table("t", "", "", "", cols, [Pk, UniqB, IdxA, B2, B3, B4]))
  {
    var cs := NamedClauses();
    assert cs[0] == Clauses()[0];
    ClauseIdxA(cols);
    NamedB2(cols);
    NamedB3(cols);
    NamedB4(cols);
    assert cs[1..][1..] == cs[2..];
    assert cs[2..][1..] == cs[3..];
    assert cs[3..][1..] == [];
  }

  lemma NamedTableBuilt()
    ensures BuildTable("t", Defs(), NamedClauses(), Ctx) == Success(Expected())
  {
    ColumnSteps();
    NamedConstraintSteps(Cols);
    TableBuilt("t", Defs(), NamedClauses(), Ctx, Table("t", "", "", "", Cols, [Pk, UniqB]), Expected());
  }

  function CreateIndexStatements(): seq<Stmt>
  {
    [ CreateIndex("idx_a", "t", PlainIndex, [KeyColumn("a")], NoOptions),
      CreateIndex("b_2", "t", PlainIndex, [KeyColumn("b"), KeyColumn("a")], NoOptions),
      CreateIndex("b_3", "t", UniqueIndex, [KeyColumn("b"), KeyColumn("c"), KeyColumn("d")], NoOptions),
      CreateIndex("b_4", "t", FulltextIndex, [KeyColumn("b"), KeyColumn("d")], IndexOptions(None, true)) ]
  }

  lemma NamedInlineWalk()
    ensures Walk(Start(), [CreateTable("t", Defs(), NamedClauses())], Ctx)
         == Outcome(DatabaseState("test", Schema("", [Expected()], [], [])), None)
  {
    NamedTableBuilt();
    var created := [CreateTable("t", Defs(), NamedClauses())];
    assert ApplyStmt(Start().schema, created[0], Ctx) == Step(Schema("", [] + [Expected()], [], []), None);
    assert created[1..] == [];
    assert [] + [Expected()] == [Expected()];
  }

  lemma NamedIndexStatements()
    ensures forall i :: 0 <= i < |NamedClauses()| ==> WalkThroughProperties.IsIndexClause(NamedClauses()[i])
    ensures WalkThroughProperties.IndexStatements("t", NamedClauses()) == CreateIndexStatements()
  {
    var cs := NamedClauses();
    var stmts := WalkThroughProperties.IndexStatements("t", cs);
    assert stmts[0] == CreateIndexStatements()[0];
    assert stmts[1] == CreateIndexStatements()[1];
    assert stmts[2] == CreateIndexStatements()[2];
    assert stmts[3] == CreateIndexStatements()[3];
  }

  /**
   * CREATE TABLE t(a, b, c, d) followed by CREATE [UNIQUE|FULLTEXT] INDEX idx_a, b_2, b_3, b_4
   * reaches the same catalog as the first scenario's inline clauses.
   */
  lemma CreateIndexTest()
    ensures Walk(Start(), [CreateTable("t", Defs(), [])] + CreateIndexStatements(), Ctx)
         == Outcome(DatabaseState("test", Schema("", [Expected()], [], [])), None)
  {
    NamedInlineWalk();
    NamedIndexStatements();
    WalkThroughProperties.CreateIndexMatchesInlineClauses(Start(), "t", Defs(), NamedClauses(), Ctx);
  }

  const TwoColumns := Table("t", "", "", "", [ColA, ColB], [Pk, UniqB])

  function DropIndexStatements(): seq<Stmt>
  {
    [CreateTable("t", Defs()[..2], []), DropIndexStmt("b", "t")]
  }

  function DropIndexSchemas(): seq<Schema>
  {
    [ Start().schema, Schema("", [TwoColumns], [], []),
      Schema("", [Table("t", "", "", "", [ColA, ColB], [Pk])], [], []) ]
  }

  lemma TwoColumnsBuilt()
    ensures BuildTable("t", Defs()[..2], [], Ctx) == Success(TwoColumns)
  {
    ColumnA();
    ColumnB();
    var defs := Defs()[..2];
    assert defs[0] == Defs()[0] && defs[1] == Defs()[1];
    assert defs[1..][1..] == [];
  }

  lemma CreateTwoColumnsStep()
    ensures ApplyStmt(DropIndexSchemas()[0], DropIndexStatements()[0], Ctx) == Step(DropIndexSchemas()[1], None)
  {
    TwoColumnsBuilt();
    assert [] + [TwoColumns] == [TwoColumns];
  }

  lemma DropIndexBStep()
    ensures ApplyStmt(DropIndexSchemas()[1], DropIndexStatements()[1], Ctx) == Step(DropIndexSchemas()[2], None)
  {
    var t := TwoColumns;
    IndexAt(t.indexes, 1, "b");
    assert RemoveAt(t.indexes, 1) == [Pk];
    var dropped := t.(indexes := [Pk]);
    assert DropIndexFromTable(t, "b", Ctx) == Success(dropped);
    assert [t][0 := dropped] == [dropped];
  }

  /** CREATE TABLE t(a int PRIMARY KEY DEFAULT 1, b ... UNIQUE); DROP INDEX b ON t: only PRIMARY is left. */
  lemma DropIndexTest()
    ensures Walk(Start(), DropIndexStatements(), Ctx)
         == Outcome(DatabaseState("test", Schema("", [Table("t", "", "", "", [ColA, ColB], [Pk])], [], [])), None)
  {
    forall k | 0 <= k < 2
      ensures ApplyStmt(DropIndexSchemas()[k], DropIndexStatements()[k], Ctx) == Step(DropIndexSchemas()[k + 1], None)
    {
      if k == 0 { CreateTwoColumnsStep(); } else { DropIndexBStep(); }
    }
    WalkChain(Start(), DropIndexStatements(), DropIndexSchemas(), Ctx);
  }
}
