/** Snapshot pairs from the differ's own examples, with the script each one produces. */
module DifferExamples {
  import opened Wrappers
  import opened DifferAst
  import opened Differ
  import Text

  function Col(name: string): KeyPart
  {
    KeyPart(Some(name), None)
  }

  function Book(columns: seq<ColumnDef>, indexes: seq<IndexDef>): SchemaDef
  {
    SchemaDef([TableDef("book", columns, None, indexes, [])])
  }

  /** The child at position `i` is the first with its key. */
  lemma {:induction false} FindObjAt(objs: seq<Obj>, i: nat)
    requires i < |objs|
    requires forall j :: 0 <= j < i ==> KeyOf(objs[j]) != KeyOf(objs[i])
    ensures FindObj(objs, KeyOf(objs[i])) == Some(objs[i])
    decreases i
  {
    if i > 0 {
      FindObjAt(objs[1..], i - 1);
    }
  }

  // ---------------------------------------------------------------------------------------
  // A new column, and an index redefined under its old name.
  // ---------------------------------------------------------------------------------------

  const Id := ColumnDef("id", "INT")
  const Name := ColumnDef("name", "VARCHAR(50)")
  const Address := ColumnDef("address", "VARCHAR(50) NOT NULL")
  const OldIdx := IndexDef("idx", PlainKey, [Col("id"), Col("name")], None)
  const NewIdx := IndexDef("idx", PlainKey, [Col("id"), Col("address")], None)
  const OldBook := Book([Id, Name], [OldIdx])
  const NewBook := Book([Id, Name, Address], [NewIdx])

  /** A one-table snapshot's per-table run is that table's statements. */
  lemma PerTableOne(t: TableDef, f: TableDef -> seq<DiffStmt>)
    ensures PerTable([t], f) == f(t)
  {
    assert [t][1..] == [];
  }

  lemma BookChildren()
    ensures ColumnChildren(OldBook.tables[0]) == [ColumnObj(Id), ColumnObj(Name)]
    ensures Children(OldBook.tables[0]) == [ColumnObj(Id), ColumnObj(Name), IndexObj(OldIdx)]
    ensures ColumnChildren(NewBook.tables[0]) == [ColumnObj(Id), ColumnObj(Name), ColumnObj(Address)]
    ensures ConstraintChildren(NewBook.tables[0]) == [IndexObj(NewIdx)]
    ensures Children(NewBook.tables[0]) == [ColumnObj(Id), ColumnObj(Name), ColumnObj(Address), IndexObj(NewIdx)]
    ensures FindTableDef(OldBook.tables, "book") == Some(OldBook.tables[0])
    ensures FindTableDef(NewBook.tables, "book") == Some(NewBook.tables[0])
  {
    assert ConstraintChildren(OldBook.tables[0]) == [IndexObj(OldIdx)];
  }

  lemma OldLookups()
    ensures FindObj(Children(OldBook.tables[0]), ChildKey(ColumnKind, "id")) == Some(ColumnObj(Id))
    ensures FindObj(Children(OldBook.tables[0]), ChildKey(ColumnKind, "name")) == Some(ColumnObj(Name))
    ensures FindObj(Children(OldBook.tables[0]), ChildKey(ColumnKind, "address")) == None
    ensures FindObj(Children(OldBook.tables[0]), ChildKey(IndexKind, "idx")) == Some(IndexObj(OldIdx))
  {
    BookChildren();
    var oc := Children(OldBook.tables[0]);
    FindObjAt(oc, 0);
    FindObjAt(oc, 1);
    FindObjAt(oc, 2);
    assert oc[1..][1..][1..] == [];
  }

  lemma NewLookups()
    ensures FindObj(Children(NewBook.tables[0]), ChildKey(ColumnKind, "id")).Some?
    ensures FindObj(Children(NewBook.tables[0]), ChildKey(ColumnKind, "name")).Some?
    ensures FindObj(Children(NewBook.tables[0]), ChildKey(IndexKind, "idx")).Some?
  {
    BookChildren();
    var nc := Children(NewBook.tables[0]);
    FindObjAt(nc, 0);
    FindObjAt(nc, 1);
    FindObjAt(nc, 3);
  }

  lemma SameNameCreates()
    ensures Creates(OldBook, NewBook) == [AddStmt("book", ColumnObj(Address))]
  {
    BookChildren();
    OldLookups();
    var oc, nt := Children(OldBook.tables[0]), NewBook.tables[0];
    var ncc := ColumnChildren(nt);
    assert ncc[1..] == [ColumnObj(Name), ColumnObj(Address)];
    assert ncc[1..][1..] == [ColumnObj(Address)];
    assert ncc[1..][1..][1..] == [];
    assert AddedObjs("book", oc, ncc[1..][1..]) == [AddStmt("book", ColumnObj(Address))];
    assert AddedObjs("book", oc, ncc[1..]) == [AddStmt("book", ColumnObj(Address))];
    assert AddedObjs("book", oc, ncc) == [AddStmt("book", ColumnObj(Address))];
    assert ModifiedColumns("book", oc, ncc[1..][1..]) == [];
    assert ModifiedColumns("book", oc, ncc[1..]) == [];
    assert ModifiedColumns("book", oc, ncc) == [];
    assert AddedObjs("book", oc, ConstraintChildren(nt)) == [];
    PerTableOne(nt, nt => TableCreates(OldBook, nt));
  }

  lemma SameNameReplaces()
    ensures Replaces(OldBook, NewBook) == [DropStmt("book", ChildKey(IndexKind, "idx")), AddStmt("book", IndexObj(NewIdx))]
  {
    BookChildren();
    OldLookups();
    SameIsIdentity(IndexObj(OldIdx), IndexObj(NewIdx));
    assert OldIdx != NewIdx by {
      assert OldIdx.keys[1] != NewIdx.keys[1];
    }
    var oc, nt := Children(OldBook.tables[0]), NewBook.tables[0];
    assert ReplacedObjs("book", oc, [IndexObj(NewIdx)])
        == [DropStmt("book", ChildKey(IndexKind, "idx")), AddStmt("book", IndexObj(NewIdx))];
    PerTableOne(nt, nt => TableReplaces(OldBook, nt));
  }

  lemma SameNameRemovals()
    ensures Removals(OldBook, NewBook) == []
  {
    BookChildren();
    NewLookups();
    var oc, nc := Children(OldBook.tables[0]), Children(NewBook.tables[0]);
    assert oc[1..] == [ColumnObj(Name), IndexObj(OldIdx)];
    assert oc[1..][1..] == [IndexObj(OldIdx)];
    assert oc[1..][1..][1..] == [];
    assert RemovedObjs("book", nc, oc[1..][1..]) == [];
    assert RemovedObjs("book", nc, oc[1..]) == [];
    assert RemovedObjs("book", nc, oc) == [];
    PerTableOne(NewBook.tables[0], nt => TableRemovals(OldBook, nt));
    PerTableOne(OldBook.tables[0], ot => TableDrop(NewBook, ot));
  }

  lemma SameNameStatements()
    ensures Diff(OldBook, NewBook)
         == [AddStmt("book", ColumnObj(Address)), DropStmt("book", ChildKey(IndexKind, "idx")), AddStmt("book", IndexObj(NewIdx))]
  {
    SameNameCreates();
    SameNameReplaces();
    SameNameRemovals();
  }

  // Each rendered statement is checked in two steps: the renderer's pieces, regrouped to
  // the left, and then the literal text those pieces spell, built up one piece at a time.

  lemma AppendAssoc(a: string, b: string, c: string)
    ensures a + (b + c) == a + b + c
  {
  }

  lemma AddStmtText(table: string, o: Obj)
    ensures RenderStmt(AddStmt(table, o)) == "ALTER TABLE " + Quote(table) + " " + AddClause(o) + Delimiter
  {
  }

  lemma DropStmtText(table: string, k: ChildKey)
    ensures RenderStmt(DropStmt(table, k)) == "ALTER TABLE " + Quote(table) + " " + DropClause(k) + Delimiter
  {
  }

  lemma AddAddressPieces()
    ensures RenderStmt(AddStmt("book", ColumnObj(Address)))
         == "ALTER TABLE " + "`book`" + " " + "ADD COLUMN (" + "`address`" + " " + "VARCHAR(50) NOT NULL" + ")" + ";\n"
  {
    AddStmtText("book", ColumnObj(Address));
    assert Quote("book") == "`book`" && Quote("address") == "`address`";
    var p := "ALTER TABLE " + "`book`" + " ";
    var d := "`address`" + " " + "VARCHAR(50) NOT NULL";
    assert AddClause(ColumnObj(Address)) == "ADD COLUMN (" + d + ")";
    AppendAssoc(p, "ADD COLUMN (" + d, ")");
    AppendAssoc(p, "ADD COLUMN (", d);
    AppendAssoc(p + "ADD COLUMN (", "`address`" + " ", "VARCHAR(50) NOT NULL");
    AppendAssoc(p + "ADD COLUMN (", "`address`", " ");
  }

  lemma AddAddressLiteralHead()
    ensures "ALTER TABLE " + "`book`" + " " + "ADD COLUMN (" == "ALTER TABLE `book` ADD COLUMN ("
  {
    assert "ALTER TABLE " + "`book`" == "ALTER TABLE `book`";
    assert "ALTER TABLE `book`" + " " == "ALTER TABLE `book` ";
    assert "ALTER TABLE `book` " + "ADD COLUMN (" == "ALTER TABLE `book` ADD COLUMN (";
  }

  lemma AddAddressLiteralMiddle()
    ensures "ALTER TABLE `book` ADD COLUMN (" + "`address`" + " " == "ALTER TABLE `book` ADD COLUMN (`address` "
  {
    assert "ALTER TABLE `book` ADD COLUMN (" + "`address`" == "ALTER TABLE `book` ADD COLUMN (`address`";
    assert "ALTER TABLE `book` ADD COLUMN (`address`" + " " == "ALTER TABLE `book` ADD COLUMN (`address` ";
  }

  lemma AddAddressLiteralTail()
    ensures "ALTER TABLE `book` ADD COLUMN (`address` " + "VARCHAR(50) NOT NULL" + ")" + ";\n"
         == "ALTER TABLE `book` ADD COLUMN (`address` VARCHAR(50) NOT NULL);\n"
  {
    assert "ALTER TABLE `book` ADD COLUMN (`address` " + "VARCHAR(50) NOT NULL" == "ALTER TABLE `book` ADD COLUMN (`address` VARCHAR(50) NOT NULL";
    assert "ALTER TABLE `book` ADD COLUMN (`address` VARCHAR(50) NOT NULL" + ")" == "ALTER TABLE `book` ADD COLUMN (`address` VARCHAR(50) NOT NULL)";
    assert "ALTER TABLE `book` ADD COLUMN (`address` VARCHAR(50) NOT NULL)" + ";\n" == "ALTER TABLE `book` ADD COLUMN (`address` VARCHAR(50) NOT NULL);\n";
  }

  lemma AddAddressText()
    ensures RenderStmt(AddStmt("book", ColumnObj(Address))) == "ALTER TABLE `book` ADD COLUMN (`address` VARCHAR(50) NOT NULL);\n"
  {
    AddAddressPieces();
    AddAddressLiteralHead();
    AddAddressLiteralMiddle();
    AddAddressLiteralTail();
  }

  lemma DropIdxPieces()
    ensures RenderStmt(DropStmt("book", ChildKey(IndexKind, "idx"))) == "ALTER TABLE " + "`book`" + " " + "DROP INDEX " + "`idx`" + ";\n"
  {
    DropStmtText("book", ChildKey(IndexKind, "idx"));
    assert Quote("book") == "`book`" && Quote("idx") == "`idx`";
    assert DropClause(ChildKey(IndexKind, "idx")) == "DROP INDEX " + "`idx`";
    AppendAssoc("ALTER TABLE " + "`book`" + " ", "DROP INDEX ", "`idx`");
  }

  lemma DropIdxLiteral()
    ensures "ALTER TABLE " + "`book`" + " " + "DROP INDEX " + "`idx`" + ";\n" == "ALTER TABLE `book` DROP INDEX `idx`;\n"
  {
    assert "ALTER TABLE " + "`book`" == "ALTER TABLE `book`";
    assert "ALTER TABLE `book`" + " " == "ALTER TABLE `book` ";
    assert "ALTER TABLE `book` " + "DROP INDEX " == "ALTER TABLE `book` DROP INDEX ";
    assert "ALTER TABLE `book` DROP INDEX " + "`idx`" == "ALTER TABLE `book` DROP INDEX `idx`";
    assert "ALTER TABLE `book` DROP INDEX `idx`" + ";\n" == "ALTER TABLE `book` DROP INDEX `idx`;\n";
  }

  lemma DropIdxText()
    ensures RenderStmt(DropStmt("book", ChildKey(IndexKind, "idx"))) == "ALTER TABLE `book` DROP INDEX `idx`;\n"
  {
    DropIdxPieces();
    DropIdxLiteral();
  }

  lemma NewIdxKeyText()
    ensures RenderKeyParts(NewIdx.keys) == "`id`, `address`"
  {
    RenderTwoKeyParts(Col("id"), Col("address"));
    assert RenderKeyPart(Col("id")) == "`id`";
    assert RenderKeyPart(Col("address")) == "`address`";
    assert "`id`" + ", " + "`address`" == "`id`, `address`";
  }

  lemma NewIdxDefinition()
    ensures ObjDefinition(IndexObj(NewIdx)) == "INDEX" + " " + "`idx`" + "(" + "`id`, `address`" + ")"
  {
    NewIdxKeyText();
    assert OptionSuffix(NewIdx.option) == "";
    assert Quote("idx") == "`idx`";
    var x := "INDEX" + " " + "`idx`" + "(" + "`id`, `address`" + ")";
    assert x + "" == x;
  }

  lemma AddIdxPieces()
    ensures RenderStmt(AddStmt("book", IndexObj(NewIdx)))
         == "ALTER TABLE " + "`book`" + " " + "ADD " + "INDEX" + " " + "`idx`" + "(" + "`id`, `address`" + ")" + ";\n"
  {
    AddStmtText("book", IndexObj(NewIdx));
    NewIdxDefinition();
    assert Quote("book") == "`book`";
    var p := "ALTER TABLE " + "`book`" + " " + "ADD ";
    AppendAssoc("ALTER TABLE " + "`book`" + " ", "ADD ", ObjDefinition(IndexObj(NewIdx)));
    AppendAssoc(p, "INDEX" + " " + "`idx`" + "(" + "`id`, `address`", ")");
    AppendAssoc(p, "INDEX" + " " + "`idx`" + "(", "`id`, `address`");
    AppendAssoc(p, "INDEX" + " " + "`idx`", "(");
    AppendAssoc(p, "INDEX" + " ", "`idx`");
    AppendAssoc(p, "INDEX", " ");
  }

  lemma AddIdxLiteralHead()
    ensures "ALTER TABLE " + "`book`" + " " + "ADD " + "INDEX" + " " == "ALTER TABLE `book` ADD INDEX "
  {
    assert "ALTER TABLE " + "`book`" == "ALTER TABLE `book`";
    assert "ALTER TABLE `book`" + " " == "ALTER TABLE `book` ";
    assert "ALTER TABLE `book` " + "ADD " == "ALTER TABLE `book` ADD ";
    assert "ALTER TABLE `book` ADD " + "INDEX" == "ALTER TABLE `book` ADD INDEX";
    assert "ALTER TABLE `book` ADD INDEX" + " " == "ALTER TABLE `book` ADD INDEX ";
  }

  lemma AddIdxLiteralTail()
    ensures "ALTER TABLE `book` ADD INDEX " + "`idx`" + "(" + "`id`, `address`" + ")" + ";\n" == "ALTER TABLE `book` ADD INDEX `idx`(`id`, `address`);\n"
  {
    assert "ALTER TABLE `book` ADD INDEX " + "`idx`" == "ALTER TABLE `book` ADD INDEX `idx`";
    assert "ALTER TABLE `book` ADD INDEX `idx`" + "(" == "ALTER TABLE `book` ADD INDEX `idx`(";
    assert "ALTER TABLE `book` ADD INDEX `idx`(" + "`id`, `address`" == "ALTER TABLE `book` ADD INDEX `idx`(`id`, `address`";
    assert "ALTER TABLE `book` ADD INDEX `idx`(`id`, `address`" + ")" == "ALTER TABLE `book` ADD INDEX `idx`(`id`, `address`)";
    assert "ALTER TABLE `book` ADD INDEX `idx`(`id`, `address`)" + ";\n" == "ALTER TABLE `book` ADD INDEX `idx`(`id`, `address`);\n";
  }

  lemma AddIdxText()
    ensures RenderStmt(AddStmt("book", IndexObj(NewIdx))) == "ALTER TABLE `book` ADD INDEX `idx`(`id`, `address`);\n"
  {
    AddIdxPieces();
    AddIdxLiteralHead();
    AddIdxLiteralTail();
  }

  lemma RenderTwoKeyParts(a: KeyPart, b: KeyPart)
    ensures RenderKeyParts([a, b]) == RenderKeyPart(a) + ", " + RenderKeyPart(b)
  {
    var parts := KeyPartTexts([a, b]);
    assert parts == [RenderKeyPart(a), RenderKeyPart(b)];
    assert parts[1..] == [RenderKeyPart(b)];
    assert Text.Join(parts[1..], ", ") == RenderKeyPart(b);
  }

  lemma RenderThree(a: DiffStmt, b: DiffStmt, c: DiffStmt)
    ensures Render([a, b, c]) == RenderStmt(a) + RenderStmt(b) + RenderStmt(c)
  {
    assert [a, b, c][1..] == [b, c];
    assert [b, c][1..] == [c];
    assert [c][1..] == [];
    assert Render([c]) == RenderStmt(c);
    assert Render([b, c]) == RenderStmt(b) + RenderStmt(c);
  }

  /**
   * A new column and an index redefined under its old name: ADD COLUMN first, then the
   * index's DROP immediately followed by its ADD.
   */
  lemma SameNameIndexExample()
    ensures SchemaDiff(OldBook, NewBook)
      == "ALTER TABLE `book` ADD COLUMN (`address` VARCHAR(50) NOT NULL);\n"
       + "ALTER TABLE `book` DROP INDEX `idx`;\n"
       + "ALTER TABLE `book` ADD INDEX `idx`(`id`, `address`);\n"
  {
    SameNameStatements();
    AddAddressText();
    DropIdxText();
    AddIdxText();
    RenderThree(AddStmt("book", ColumnObj(Address)), DropStmt("book", ChildKey(IndexKind, "idx")), AddStmt("book", IndexObj(NewIdx)));
  }
}
