/**
 * The order the differ emits statements in, which MySQL needs for the script to apply:
 *  - a name kept with a new definition is dropped immediately before it is added again;
 *  - every removal (a DROP of a name the new table lacks, or DROP TABLE) comes after every
 *    other statement, so a new name is added before an old one disappears;
 *  - a table's ADD COLUMN and MODIFY COLUMN statements come before any statement on its
 *    primary key, indexes or foreign keys, so those can refer to new columns.
 * Also: identical snapshots give no statements and the empty script.
 */
module DifferOrder {
  import opened Wrappers
  import opened Differ
  import opened DifferReplay
  import opened DifferRoundTrip

  // ---------------------------------------------------------------------------------------
  // Statement classes.
  // ---------------------------------------------------------------------------------------

  /** Snapshot `s` has table `t` with a child under key `k`. */
  predicate KeyKept(s: SchemaDef, t: string, k: ChildKey)
  {
    FindTableDef(s.tables, t).Some? && FindObj(Children(FindTableDef(s.tables, t).value), k).Some?
  }

  /** A statement that removes something the new snapshot no longer has. */
  predicate IsRemoval(newS: SchemaDef, s: DiffStmt)
  {
    s.DropTableStmt? || (s.DropStmt? && !KeyKept(newS, s.tableName, s.key))
  }

  /** Every ADD comes right after the DROP of its key, and every DROP right before an ADD of its key. */
  predicate Paired(a: seq<DiffStmt>)
  {
    && (forall i :: 0 <= i < |a| && a[i].AddStmt? ==>
          i > 0 && a[i - 1] == DropStmt(a[i].tableName, KeyOf(a[i].obj)))
    && (forall i :: 0 <= i < |a| && a[i].DropStmt? ==>
          i + 1 < |a| && a[i + 1].AddStmt? && a[i + 1].tableName == a[i].tableName && KeyOf(a[i + 1].obj) == a[i].key)
  }

  predicate ColumnStmt(s: DiffStmt, t: string)
  {
    (s.AddStmt? && s.tableName == t && s.obj.ColumnObj?) || (s.ModifyColumnStmt? && s.tableName == t)
  }

  predicate ConstraintStmt(s: DiffStmt, t: string)
  {
    (s.AddStmt? && s.tableName == t && !s.obj.ColumnObj?)
    || (s.DropStmt? && s.tableName == t && s.key.kind != ColumnKind)
  }

  /** In `a`, table `t`'s column statements all precede its constraint statements. */
  predicate ColumnsFirst(a: seq<DiffStmt>, t: string)
  {
    forall i, j :: 0 <= i < |a| && 0 <= j < |a| && ColumnStmt(a[i], t) && ConstraintStmt(a[j], t) ==> i < j
  }

  predicate NoColumnStmt(a: seq<DiffStmt>, t: string)
  {
    forall i :: 0 <= i < |a| ==> !ColumnStmt(a[i], t)
  }

  // ---------------------------------------------------------------------------------------
  // Generic facts about runs.
  // ---------------------------------------------------------------------------------------

  lemma {:induction false} PerTableAll(tables: seq<TableDef>, f: TableDef -> seq<DiffStmt>, p: DiffStmt -> bool)
    requires forall x, s :: x in tables && s in f(x) ==> p(s)
    ensures forall s :: s in PerTable(tables, f) ==> p(s)
    decreases |tables|
  {
    if |tables| > 0 {
      assert forall x :: x in tables[1..] ==> x in tables;
      PerTableAll(tables[1..], f, p);
    }
  }

  lemma PairedConcat(a: seq<DiffStmt>, b: seq<DiffStmt>)
    requires Paired(a) && Paired(b)
    ensures Paired(a + b)
  {
    var ab := a + b;
    forall i | 0 <= i < |ab| && ab[i].AddStmt?
      ensures i > 0 && ab[i - 1] == DropStmt(ab[i].tableName, KeyOf(ab[i].obj))
    {
      if i < |a| {
        assert ab[i] == a[i] && ab[i - 1] == a[i - 1];
      } else {
        assert ab[i] == b[i - |a|];
        assert i - |a| > 0;
        assert ab[i - 1] == b[i - |a| - 1];
      }
    }
    forall i | 0 <= i < |ab| && ab[i].DropStmt?
      ensures i + 1 < |ab| && ab[i + 1].AddStmt? && ab[i + 1].tableName == ab[i].tableName && KeyOf(ab[i + 1].obj) == ab[i].key
    {
      if i < |a| {
        assert ab[i] == a[i] && ab[i + 1] == a[i + 1];
      } else {
        assert ab[i] == b[i - |a|] && ab[i + 1] == b[i - |a| + 1];
      }
    }
  }

  lemma {:induction false} PerTablePaired(tables: seq<TableDef>, f: TableDef -> seq<DiffStmt>)
    requires forall i :: 0 <= i < |tables| ==> Paired(f(tables[i]))
    ensures Paired(PerTable(tables, f))
    decreases |tables|
  {
    if |tables| > 0 {
      forall i | 0 <= i < |tables[1..]|
        ensures Paired(f(tables[1..][i]))
      {
        assert tables[1..][i] == tables[i + 1];
      }
      PerTablePaired(tables[1..], f);
      PairedConcat(f(tables[0]), PerTable(tables[1..], f));
    }
  }

  /** The in-place run of one table is made of DROP-then-ADD pairs. */
  lemma {:induction false} ReplacedPaired(t: string, other: seq<Obj>, objs: seq<Obj>)
    ensures Paired(ReplacedObjs(t, other, objs))
    decreases |objs|
  {
    if |objs| > 0 {
      ReplacedPaired(t, other, objs[1..]);
      var o := objs[0];
      var head := if Changed(other, o) then [DropStmt(t, KeyOf(o)), AddStmt(t, o)] else [];
      assert ReplacedObjs(t, other, objs) == head + ReplacedObjs(t, other, objs[1..]);
      PairedConcat(head, ReplacedObjs(t, other, objs[1..]));
    }
  }

  lemma ColumnsFirstConcat(a: seq<DiffStmt>, b: seq<DiffStmt>, t: string)
    requires ColumnsFirst(a, t) && NoColumnStmt(b, t)
    ensures ColumnsFirst(a + b, t)
  {
    var ab := a + b;
    assert forall k :: 0 <= k < |a| ==> ab[k] == a[k];
    assert forall k :: |a| <= k < |ab| ==> ab[k] == b[k - |a|];
  }

  lemma ColumnsFirstAfterOthers(a: seq<DiffStmt>, b: seq<DiffStmt>, t: string)
    requires forall i :: 0 <= i < |a| ==> !ColumnStmt(a[i], t) && !ConstraintStmt(a[i], t)
    requires ColumnsFirst(b, t)
    ensures ColumnsFirst(a + b, t)
  {
    var ab := a + b;
    assert forall k :: 0 <= k < |a| ==> ab[k] == a[k];
    assert forall k :: |a| <= k < |ab| ==> ab[k] == b[k - |a|];
  }

  // ---------------------------------------------------------------------------------------
  // What each of the three runs holds.
  // ---------------------------------------------------------------------------------------

  /** Run 1 adds only names the old table lacks, and drops nothing. */
  lemma CreatesFacts(oldS: SchemaDef, newS: SchemaDef)
    ensures forall s :: s in Creates(oldS, newS) ==>
      && !s.DropStmt? && !s.DropTableStmt?
      && (s.AddStmt? ==> !KeyKept(oldS, s.tableName, KeyOf(s.obj)))
  {
    var p := (s: DiffStmt) =>
      !s.DropStmt? && !s.DropTableStmt? && (s.AddStmt? ==> !KeyKept(oldS, s.tableName, KeyOf(s.obj)));
    forall x, s | x in newS.tables && s in TableCreates(oldS, x)
      ensures p(s)
    {
      match FindTableDef(oldS.tables, x.name)
      case None =>
      case Some(ot) =>
        var a1 := AddedObjs(x.name, Children(ot), ColumnChildren(x));
        var m := ModifiedColumns(x.name, Children(ot), ColumnChildren(x));
        var a2 := AddedObjs(x.name, Children(ot), ConstraintChildren(x));
        assert s in a1 || s in m || s in a2;
    }
    PerTableAll(newS.tables, nt => TableCreates(oldS, nt), p);
  }

  /** What run 2 may hold: constraint ADDs, and DROPs of keys the new snapshot keeps. */
  predicate ReplaceShaped(newS: SchemaDef, s: DiffStmt)
  {
    && (s.AddStmt? || s.DropStmt?)
    && (s.AddStmt? ==> !s.obj.ColumnObj?)
    && (s.DropStmt? ==> KeyKept(newS, s.tableName, s.key))
  }

  lemma TableReplacesShaped(oldS: SchemaDef, newS: SchemaDef, x: TableDef, s: DiffStmt)
    requires WellFormedSchemaDef(newS) && x in newS.tables && s in TableReplaces(oldS, x)
    ensures ReplaceShaped(newS, s)
  {
    var i :| 0 <= i < |newS.tables| && newS.tables[i] == x;
    DistinctNamesFind(newS.tables, i);
    match FindTableDef(oldS.tables, x.name)
    case None =>
    case Some(ot) =>
      var r := ReplacedObjs(x.name, Children(ot), ConstraintChildren(x));
      ReplacedPaired(x.name, Children(ot), ConstraintChildren(x));
      var k :| 0 <= k < |r| && r[k] == s;
      if s.DropStmt? {
        var o := r[k + 1].obj;
        assert o in ConstraintChildren(x);
        assert o in Children(x);
      }
  }

  lemma TableReplacesPaired(oldS: SchemaDef, x: TableDef)
    ensures Paired(TableReplaces(oldS, x))
  {
    match FindTableDef(oldS.tables, x.name)
    case None =>
    case Some(ot) => ReplacedPaired(x.name, Children(ot), ConstraintChildren(x));
  }

  /** Run 2 is DROP-then-ADD pairs of constraints the new table keeps under the same name. */
  lemma ReplacesFacts(oldS: SchemaDef, newS: SchemaDef)
    requires WellFormedSchemaDef(newS)
    ensures Paired(Replaces(oldS, newS))
    ensures forall s :: s in Replaces(oldS, newS) ==>
      && (s.AddStmt? || s.DropStmt?)
      && (s.AddStmt? ==> !s.obj.ColumnObj?)
      && (s.DropStmt? ==> KeyKept(newS, s.tableName, s.key))
  {
    var f := nt => TableReplaces(oldS, nt);
    forall i | 0 <= i < |newS.tables|
      ensures Paired(f(newS.tables[i]))
    {
      TableReplacesPaired(oldS, newS.tables[i]);
    }
    PerTablePaired(newS.tables, f);
    var p := (s: DiffStmt) => ReplaceShaped(newS, s);
    forall x, s | x in newS.tables && s in f(x)
      ensures p(s)
    {
      TableReplacesShaped(oldS, newS, x, s);
    }
    PerTableAll(newS.tables, f, p);
  }

  /** Run 3, reversed, holds only removals. */
  lemma RemovalsFacts(oldS: SchemaDef, newS: SchemaDef)
    requires WellFormedSchemaDef(newS)
    ensures forall s :: s in Reverse(Removals(oldS, newS)) ==> IsRemoval(newS, s)
  {
    var p := (s: DiffStmt) => IsRemoval(newS, s);
    forall x, s | x in newS.tables && s in TableRemovals(oldS, x)
      ensures p(s)
    {
      var i :| 0 <= i < |newS.tables| && newS.tables[i] == x;
      DistinctNamesFind(newS.tables, i);
    }
    PerTableAll(newS.tables, nt => TableRemovals(oldS, nt), p);
    PerTableAll(oldS.tables, ot => TableDrop(newS, ot), p);
    var m := Removals(oldS, newS);
    assert forall s :: s in Reverse(m) ==> s in m;
  }

  // ---------------------------------------------------------------------------------------
  // The ordering guarantees.
  // ---------------------------------------------------------------------------------------

  /** Whether `r` is the differ's script shape: run 1, then run 2, then the reversed removals. */
  predicate OrderedRuns(oldS: SchemaDef, newS: SchemaDef, c: seq<DiffStmt>, rp: seq<DiffStmt>, x: seq<DiffStmt>)
  {
    && (forall s :: s in c ==>
          && !s.DropStmt? && !s.DropTableStmt?
          && (s.AddStmt? ==> !KeyKept(oldS, s.tableName, KeyOf(s.obj))))
    && Paired(rp)
    && (forall s :: s in rp ==> (s.AddStmt? || s.DropStmt?) && (s.DropStmt? ==> KeyKept(newS, s.tableName, s.key)))
    && (forall s :: s in x ==> IsRemoval(newS, s))
  }

  lemma ReAddsFollowDrops(oldS: SchemaDef, newS: SchemaDef, c: seq<DiffStmt>, rp: seq<DiffStmt>, x: seq<DiffStmt>)
    requires OrderedRuns(oldS, newS, c, rp, x)
    ensures var r := c + rp + x;
      forall i :: 0 <= i < |r| && r[i].AddStmt? && KeyKept(oldS, r[i].tableName, KeyOf(r[i].obj)) ==>
        i > 0 && r[i - 1] == DropStmt(r[i].tableName, KeyOf(r[i].obj))
  {
    var r := c + rp + x;
    assert forall k :: 0 <= k < |c| ==> r[k] in c;
    assert forall k :: |c| + |rp| <= k < |r| ==> r[k] in x;
    forall i | 0 <= i < |r| && r[i].AddStmt? && KeyKept(oldS, r[i].tableName, KeyOf(r[i].obj))
      ensures i > 0 && r[i - 1] == DropStmt(r[i].tableName, KeyOf(r[i].obj))
    {
      if |c| <= i < |c| + |rp| {
        assert r[i] == rp[i - |c|];
        assert r[i - 1] == rp[i - |c| - 1];
      }
    }
  }

  lemma KeptDropsPrecedeAdds(oldS: SchemaDef, newS: SchemaDef, c: seq<DiffStmt>, rp: seq<DiffStmt>, x: seq<DiffStmt>)
    requires OrderedRuns(oldS, newS, c, rp, x)
    ensures var r := c + rp + x;
      forall i :: 0 <= i < |r| && r[i].DropStmt? && KeyKept(newS, r[i].tableName, r[i].key) ==>
        i + 1 < |r| && r[i + 1].AddStmt? && r[i + 1].tableName == r[i].tableName && KeyOf(r[i + 1].obj) == r[i].key
  {
    var r := c + rp + x;
    assert forall k :: 0 <= k < |c| ==> r[k] in c;
    assert forall k :: |c| + |rp| <= k < |r| ==> r[k] in x;
    forall i | 0 <= i < |r| && r[i].DropStmt? && KeyKept(newS, r[i].tableName, r[i].key)
      ensures i + 1 < |r| && r[i + 1].AddStmt? && r[i + 1].tableName == r[i].tableName && KeyOf(r[i + 1].obj) == r[i].key
    {
      if |c| <= i < |c| + |rp| {
        assert r[i] == rp[i - |c|];
        assert r[i + 1] == rp[i - |c| + 1];
      }
    }
  }

  lemma RemovalsAreSuffix(oldS: SchemaDef, newS: SchemaDef, c: seq<DiffStmt>, rp: seq<DiffStmt>, x: seq<DiffStmt>)
    requires OrderedRuns(oldS, newS, c, rp, x)
    ensures var r := c + rp + x;
      forall i, j :: 0 <= i < j < |r| && IsRemoval(newS, r[i]) ==> IsRemoval(newS, r[j])
    ensures var r := c + rp + x;
      forall i, j :: 0 <= i < |r| && 0 <= j < |r| && r[i].AddStmt? && IsRemoval(newS, r[j]) ==> i < j
  {
    var r := c + rp + x;
    assert forall k :: 0 <= k < |c| ==> r[k] in c;
    assert forall k :: |c| <= k < |c| + |rp| ==> r[k] in rp;
    assert forall k :: |c| + |rp| <= k < |r| ==> r[k] in x;
  }

  /**
   * In the differ's script: an ADD of a name the old table already has comes right after the
   * DROP of that name; a DROP of a name the new table keeps comes right before the ADD of it;
   * once a removal appears, only removals follow; and so every ADD precedes every removal.
   */
  lemma DiffOrdering(oldS: SchemaDef, newS: SchemaDef)
    requires WellFormedSchemaDef(oldS) && WellFormedSchemaDef(newS)
    ensures var r := Diff(oldS, newS);
      forall i :: 0 <= i < |r| && r[i].AddStmt? && KeyKept(oldS, r[i].tableName, KeyOf(r[i].obj)) ==>
        i > 0 && r[i - 1] == DropStmt(r[i].tableName, KeyOf(r[i].obj))
    ensures var r := Diff(oldS, newS);
      forall i :: 0 <= i < |r| && r[i].DropStmt? && KeyKept(newS, r[i].tableName, r[i].key) ==>
        i + 1 < |r| && r[i + 1].AddStmt? && r[i + 1].tableName == r[i].tableName && KeyOf(r[i + 1].obj) == r[i].key
    ensures var r := Diff(oldS, newS);
      forall i, j :: 0 <= i < j < |r| && IsRemoval(newS, r[i]) ==> IsRemoval(newS, r[j])
    ensures var r := Diff(oldS, newS);
      forall i, j :: 0 <= i < |r| && 0 <= j < |r| && r[i].AddStmt? && IsRemoval(newS, r[j]) ==> i < j
  {
    var c, rp, x := Creates(oldS, newS), Replaces(oldS, newS), Reverse(Removals(oldS, newS));
    CreatesFacts(oldS, newS);
    ReplacesFacts(oldS, newS);
    RemovalsFacts(oldS, newS);
    assert OrderedRuns(oldS, newS, c, rp, x);
    ReAddsFollowDrops(oldS, newS, c, rp, x);
    KeptDropsPrecedeAdds(oldS, newS, c, rp, x);
    RemovalsAreSuffix(oldS, newS, c, rp, x);
  }

  /** The column ADDs and MODIFYs of run 1 hold no constraint statement. */
  lemma ColumnRunFirst(x: TableDef, other: seq<Obj>, t: string)
    ensures ColumnsFirst(AddedObjs(x.name, other, ColumnChildren(x)) + ModifiedColumns(x.name, other, ColumnChildren(x)), t)
  {
    var a1 := AddedObjs(x.name, other, ColumnChildren(x));
    var m := ModifiedColumns(x.name, other, ColumnChildren(x));
    assert forall s :: s in a1 ==> s.obj in ColumnChildren(x);
    assert forall s :: s in a1 + m ==> !ConstraintStmt(s, t);
    assert forall k :: 0 <= k < |a1 + m| ==> (a1 + m)[k] in a1 + m;
  }

  /** Run 1 puts a table's ADD COLUMN and MODIFY COLUMN statements before its constraint ADDs. */
  lemma TableCreatesColumnsFirst(oldS: SchemaDef, x: TableDef, t: string)
    ensures ColumnsFirst(TableCreates(oldS, x), t)
  {
    match FindTableDef(oldS.tables, x.name)
    case None =>
    case Some(ot) =>
      var a1 := AddedObjs(x.name, Children(ot), ColumnChildren(x));
      var m := ModifiedColumns(x.name, Children(ot), ColumnChildren(x));
      var a2 := AddedObjs(x.name, Children(ot), ConstraintChildren(x));
      ColumnRunFirst(x, Children(ot), t);
      assert forall k :: 0 <= k < |a2| ==> !ColumnStmt(a2[k], t);
      ColumnsFirstConcat(a1 + m, a2, t);
  }

  lemma {:induction false} PerTableColumnsFirst(oldS: SchemaDef, tables: seq<TableDef>, t: string)
    requires forall i, j :: 0 <= i < j < |tables| ==> tables[i].name != tables[j].name
    ensures ColumnsFirst(PerTable(tables, nt => TableCreates(oldS, nt)), t)
    decreases |tables|
  {
    if |tables| > 0 {
      var f := nt => TableCreates(oldS, nt);
      var a, b := f(tables[0]), PerTable(tables[1..], f);
      PerTableColumnsFirst(oldS, tables[1..], t);
      TableRunsOnTable(oldS, oldS, tables[0]);
      if tables[0].name == t {
        TableCreatesColumnsFirst(oldS, tables[0], t);
        var p := (s: DiffStmt) => TableOf(s) != t;
        forall y, s | y in tables[1..] && s in f(y)
          ensures p(s)
        {
          TableRunsOnTable(oldS, oldS, y);
        }
        PerTableAll(tables[1..], f, p);
        assert forall k :: 0 <= k < |b| ==> b[k] in b;
        ColumnsFirstConcat(a, b, t);
      } else {
        ColumnsFirstAfterOthers(a, b, t);
      }
    }
  }

  /** Runs 2 and 3 hold no ADD COLUMN or MODIFY COLUMN. */
  lemma LaterRunsNoColumnStmt(oldS: SchemaDef, newS: SchemaDef, t: string)
    requires WellFormedSchemaDef(newS)
    ensures NoColumnStmt(Replaces(oldS, newS) + Reverse(Removals(oldS, newS)), t)
  {
    var a := Replaces(oldS, newS) + Reverse(Removals(oldS, newS));
    ReplacesFacts(oldS, newS);
    RemovalsFacts(oldS, newS);
    assert forall k :: 0 <= k < |a| ==> a[k] in a;
  }

  /**
   * For every table, the differ's ADD COLUMN and MODIFY COLUMN statements come before every
   * ADD or DROP of its primary key, indexes and foreign keys.
   */
  lemma DiffColumnsFirst(oldS: SchemaDef, newS: SchemaDef, t: string)
    requires WellFormedSchemaDef(oldS) && WellFormedSchemaDef(newS)
    ensures var r := Diff(oldS, newS);
      forall i, j :: 0 <= i < |r| && 0 <= j < |r| && ColumnStmt(r[i], t) && ConstraintStmt(r[j], t) ==> i < j
  {
    var c, rp, x := Creates(oldS, newS), Replaces(oldS, newS), Reverse(Removals(oldS, newS));
    assert Diff(oldS, newS) == c + (rp + x);
    PerTableColumnsFirst(oldS, newS.tables, t);
    LaterRunsNoColumnStmt(oldS, newS, t);
    ColumnsFirstConcat(c, rp + x, t);
  }

  // ---------------------------------------------------------------------------------------
  // No change, no statements.
  // ---------------------------------------------------------------------------------------

  /** Children the other side already has, unchanged, give no ADD, MODIFY or DROP-and-ADD. */
  lemma {:induction false} NoChangeRuns(t: string, other: seq<Obj>, objs: seq<Obj>)
    requires DistinctKeys(other)
    requires forall o :: o in objs ==> o in other
    ensures AddedObjs(t, other, objs) == []
    ensures ModifiedColumns(t, other, objs) == []
    ensures ReplacedObjs(t, other, objs) == []
    decreases |objs|
  {
    if |objs| > 0 {
      FindObjDistinct(other, objs[0]);
      SameIsIdentity(objs[0], objs[0]);
      assert forall o :: o in objs[1..] ==> o in objs;
      NoChangeRuns(t, other, objs[1..]);
    }
  }

  /** Children the other side still has give no removal DROP. */
  lemma {:induction false} NoRemovedObjs(t: string, other: seq<Obj>, objs: seq<Obj>)
    requires forall o :: o in objs ==> o in other
    ensures RemovedObjs(t, other, objs) == []
    decreases |objs|
  {
    if |objs| > 0 {
      assert objs[0] in objs;
      var k :| 0 <= k < |other| && other[k] == objs[0];
      assert FindObj(other, KeyOf(objs[0])).Some?;
      assert forall o :: o in objs[1..] ==> o in objs;
      NoRemovedObjs(t, other, objs[1..]);
    }
  }

  lemma {:induction false} PerTableEmpty(tables: seq<TableDef>, f: TableDef -> seq<DiffStmt>)
    requires forall x :: x in tables ==> f(x) == []
    ensures PerTable(tables, f) == []
    decreases |tables|
  {
    if |tables| > 0 {
      assert forall x :: x in tables[1..] ==> x in tables;
      PerTableEmpty(tables[1..], f);
    }
  }

  /** Two snapshots with the same catalog give no statements, whatever order they list things in. */
  lemma SameCatalogNoDiff(oldS: SchemaDef, newS: SchemaDef)
    requires WellFormedSchemaDef(oldS) && WellFormedSchemaDef(newS)
    requires Flatten(oldS.tables) == Flatten(newS.tables)
    ensures Diff(oldS, newS) == []
  {
    forall x | x in newS.tables
      ensures TableCreates(oldS, x) == [] && TableReplaces(oldS, x) == [] && TableRemovals(oldS, x) == []
    {
      var i :| 0 <= i < |newS.tables| && newS.tables[i] == x;
      DistinctNamesFind(newS.tables, i);
      FlattenLookup(oldS.tables, x.name);
      FlattenLookup(newS.tables, x.name);
      var ot := FindTableDef(oldS.tables, x.name).value;
      assert ChildSet(ot) == ChildSet(x);
      var j :| 0 <= j < |oldS.tables| && oldS.tables[j] == ot;
      assert DistinctKeys(Children(ot));
      assert forall o :: o in Children(x) ==> o in ChildSet(x);
      assert forall o :: o in Children(ot) ==> o in ChildSet(ot);
      NoChangeRuns(x.name, Children(ot), ColumnChildren(x));
      NoChangeRuns(x.name, Children(ot), ConstraintChildren(x));
      NoRemovedObjs(x.name, Children(x), Children(ot));
    }
    forall y | y in oldS.tables
      ensures TableDrop(newS, y) == []
    {
      var j :| 0 <= j < |oldS.tables| && oldS.tables[j] == y;
      DistinctNamesFind(oldS.tables, j);
      FlattenLookup(oldS.tables, y.name);
      FlattenLookup(newS.tables, y.name);
    }
    PerTableEmpty(newS.tables, nt => TableCreates(oldS, nt));
    PerTableEmpty(newS.tables, nt => TableReplaces(oldS, nt));
    PerTableEmpty(newS.tables, nt => TableRemovals(oldS, nt));
    PerTableEmpty(oldS.tables, ot => TableDrop(newS, ot));
  }

  lemma {:induction false} RenderEmpty(stmts: seq<DiffStmt>)
    ensures Render(stmts) == "" <==> stmts == []
  {
    if |stmts| > 0 {
      assert |RenderStmt(stmts[0])| >= |Delimiter|;
    }
  }

  /**
   * The script is empty exactly when the two snapshots describe the same catalog: the same
   * tables with the same children, whatever their order.
   */
  lemma SchemaDiffEmpty(oldS: SchemaDef, newS: SchemaDef)
    requires WellFormedSchemaDef(oldS) && WellFormedSchemaDef(newS)
    ensures Diff(oldS, newS) == [] <==> Flatten(oldS.tables) == Flatten(newS.tables)
    ensures SchemaDiff(oldS, newS) == "" <==> Flatten(oldS.tables) == Flatten(newS.tables)
  {
    RenderEmpty(Diff(oldS, newS));
    if Diff(oldS, newS) == [] {
      DiffRoundTrip(oldS, newS);
      assert Replay(Flatten(oldS.tables), []) == Some(Flatten(oldS.tables));
    }
    if Flatten(oldS.tables) == Flatten(newS.tables) {
      SameCatalogNoDiff(oldS, newS);
    }
  }

  /** Comparing a snapshot with itself gives the empty script. */
  lemma IdenticalSchemasNoDiff(s: SchemaDef)
    requires WellFormedSchemaDef(s)
    ensures Diff(s, s) == []
    ensures SchemaDiff(s, s) == ""
  {
    SchemaDiffEmpty(s, s);
  }
}
