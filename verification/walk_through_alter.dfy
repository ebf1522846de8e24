/**
 * The effect of each ALTER TABLE clause on the table it names: where a new column lands and
 * how the others move, what DROP COLUMN, CHANGE/MODIFY/RENAME COLUMN and ALTER COLUMN ...
 * DROP DEFAULT do to columns and key lists, and that the index clauses touch only the named
 * index.  Also the two faces of a reference to a missing object.
 */
module AlterProperties {
  import opened Wrappers
  import opened Catalog
  import opened WalkThrough
  import WalkThroughInvariants
  import WalkThroughProperties

  // ---------------------------------------------------------------------------------------
  // Dense positions cover every slot.
  // ---------------------------------------------------------------------------------------

  function PositionSet(columns: seq<Column>): (r: set<nat>)
  {
    set k | 0 <= k < |columns| :: columns[k].position
  }

  /** The slots 1..n. */
  function Slots(n: nat): (r: set<nat>)
  {
    if n == 0 then {} else Slots(n - 1) + {n}
  }

  lemma {:induction false} SlotsCount(n: nat)
    ensures |Slots(n)| == n
    ensures forall q :: q in Slots(n) <==> 1 <= q <= n
  {
    if n > 0 {
      SlotsCount(n - 1);
      assert n !in Slots(n - 1);
    }
  }

  lemma PositionSetSnoc(columns: seq<Column>)
    requires |columns| > 0
    ensures PositionSet(columns) == PositionSet(columns[..|columns| - 1]) + {columns[|columns| - 1].position}
  {
    var init := columns[..|columns| - 1];
    forall x | x in PositionSet(columns)
      ensures x in PositionSet(init) + {columns[|columns| - 1].position}
    {
      var k :| 0 <= k < |columns| && columns[k].position == x;
      if k < |columns| - 1 {
        assert init[k].position == x;
      }
    }
    forall x | x in PositionSet(init)
      ensures x in PositionSet(columns)
    {
      var k :| 0 <= k < |init| && init[k].position == x;
      assert columns[k].position == x;
    }
  }

  lemma LastPositionFresh(columns: seq<Column>)
    requires |columns| > 0
    requires forall i, j :: 0 <= i < j < |columns| ==> columns[i].position != columns[j].position
    ensures columns[|columns| - 1].position !in PositionSet(columns[..|columns| - 1])
  {
    var init := columns[..|columns| - 1];
    forall x | x in PositionSet(init)
      ensures x != columns[|columns| - 1].position
    {
      var k :| 0 <= k < |init| && init[k].position == x;
      assert columns[k].position != columns[|columns| - 1].position;
    }
  }

  lemma {:induction false} PositionSetCount(columns: seq<Column>)
    requires forall i, j :: 0 <= i < j < |columns| ==> columns[i].position != columns[j].position
    ensures |PositionSet(columns)| == |columns|
    decreases |columns|
  {
    if |columns| > 0 {
      var init := columns[..|columns| - 1];
      assert forall i, j :: 0 <= i < j < |init| ==> init[i].position != init[j].position by {
        assert forall k :: 0 <= k < |init| ==> init[k] == columns[k];
      }
      PositionSetCount(init);
      LastPositionFresh(columns);
      PositionSetSnoc(columns);
    }
  }

  /** N distinct positions in 1..N: every slot from 1 to N holds a column. */
  lemma DenseCoversSlots(columns: seq<Column>)
    requires DensePositions(columns)
    ensures PositionSet(columns) == Slots(|columns|)
  {
    var a := PositionSet(columns);
    var b := Slots(|columns|);
    PositionSetCount(columns);
    SlotsCount(|columns|);
    assert a <= b;
    assert b == a + (b - a);
    assert a * (b - a) == {};
    assert |b - a| == 0;
  }

  // ---------------------------------------------------------------------------------------
  // ADD COLUMN.
  // ---------------------------------------------------------------------------------------

  /**
   * ADD COLUMN puts the new column in slot p — N+1 without a position clause, 1 for FIRST,
   * one after the named column for AFTER — and moves every column at p or later one place
   * later, so the existing columns keep their relative order.
   */
  lemma AddColumnPlacement(t: Table, def: ColumnDef, position: ColumnPosition, ctx: FinderContext)
    requires DensePositions(t.columns)
    requires AddColumnToTable(t, def, position, ctx).Success?
    ensures var r := AddColumnToTable(t, def, position, ctx).value;
      && |r.columns| == |t.columns| + 1
      && var p := r.columns[|t.columns|].position;
         && r.columns[|t.columns|] == NewColumn(def, p)
         && (position.PositionNone? ==> p == |t.columns| + 1)
         && (position.PositionFirst? ==> p == 1)
         && (position.PositionAfter? && FindColumn(t, position.column).Some? ==>
               p == FindColumn(t, position.column).value.position + 1)
         && (forall k :: 0 <= k < |t.columns| ==>
               r.columns[k] == t.columns[k].(position := if t.columns[k].position >= p then t.columns[k].position + 1
                                                        else t.columns[k].position))
         && (forall a, b :: 0 <= a < |t.columns| && 0 <= b < |t.columns| ==>
               (r.columns[a].position < r.columns[b].position <==> t.columns[a].position < t.columns[b].position))
  {
    var slot := InsertPosition(t.columns, t.name, position, ctx).value;
    var t0 := t.(columns := slot.0 + [NewColumn(def, slot.1)]);
    WalkThroughProperties.AddInlineIndexesKeepsColumns(t0, def.name, def.options);
  }

  // ---------------------------------------------------------------------------------------
  // DROP COLUMN.
  // ---------------------------------------------------------------------------------------

  /** Taking `name` out of a key list that holds nothing else leaves it empty. */
  lemma {:induction false} RemoveKeyAll(keys: seq<string>, name: string)
    requires forall e :: e in keys ==> e == name
    ensures RemoveKey(keys, name) == []
    decreases |keys|
  {
    if |keys| > 0 {
      assert keys[0] in keys;
      forall e | e in keys[1..]
        ensures e == name
      {
        var i :| 0 <= i < |keys[1..]| && keys[1..][i] == e;
        assert keys[i + 1] in keys;
      }
      RemoveKeyAll(keys[1..], name);
    }
  }

  /** An index with `name` taken out of its key list. */
  function Pruned(x: Index, name: string): (r: Index)
    ensures r == x.(expressions := r.expressions) && name !in r.expressions
    ensures forall e :: e in r.expressions <==> e in x.expressions && e != name
  {
    x.(expressions := RemoveKey(x.expressions, name))
  }

  /**
   * The indexes left after a column drop are exactly the pruned indexes that still have a key:
   * nothing is invented and nothing that keeps a key is lost.
   */
  lemma {:induction false} DropKeyMembership(indexes: seq<Index>, name: string)
    ensures forall x :: x in DropKeyFromIndexes(indexes, name) ==> name !in x.expressions
    ensures forall x :: x in DropKeyFromIndexes(indexes, name) <==>
      exists k :: 0 <= k < |indexes| && |Pruned(indexes[k], name).expressions| > 0 && x == Pruned(indexes[k], name)
    decreases |indexes|
  {
    if |indexes| > 0 {
      DropKeyMembership(indexes[1..], name);
      var rest := DropKeyFromIndexes(indexes[1..], name);
      var keys := RemoveKey(indexes[0].expressions, name);
      var head := if |keys| == 0 then [] else [indexes[0].(expressions := keys)];
      assert DropKeyFromIndexes(indexes, name) == head + rest;
      forall x | x in head + rest
        ensures exists k :: 0 <= k < |indexes| && |Pruned(indexes[k], name).expressions| > 0 && x == Pruned(indexes[k], name)
      {
        if x in head {
          assert x == Pruned(indexes[0], name);
        } else {
          var k :| 0 <= k < |indexes[1..]| && |Pruned(indexes[1..][k], name).expressions| > 0 && x == Pruned(indexes[1..][k], name);
          assert indexes[1..][k] == indexes[k + 1];
        }
      }
      forall k | 0 <= k < |indexes| && |Pruned(indexes[k], name).expressions| > 0
        ensures Pruned(indexes[k], name) in head + rest
      {
        if k > 0 {
          assert indexes[k] == indexes[1..][k - 1];
        }
      }
    }
  }

  /** The slots of the indexes that keep a key after `name` is taken out, in increasing order. */
  function SurvivorSlots(indexes: seq<Index>, name: string): (r: seq<nat>)
    decreases |indexes|
  {
    if |indexes| == 0 then []
    else
      var rest := SurvivorSlots(indexes[1..], name);
      (if |RemoveKey(indexes[0].expressions, name)| == 0 then [] else [0])
        + seq(|rest|, j requires 0 <= j < |rest| => rest[j] + 1)
  }

  /** The surviving slots are in range and strictly increasing. */
  lemma {:induction false} SurvivorSlotsIncrease(indexes: seq<Index>, name: string)
    ensures forall j :: 0 <= j < |SurvivorSlots(indexes, name)| ==> SurvivorSlots(indexes, name)[j] < |indexes|
    ensures forall j1, j2 :: 0 <= j1 < j2 < |SurvivorSlots(indexes, name)| ==>
      SurvivorSlots(indexes, name)[j1] < SurvivorSlots(indexes, name)[j2]
    decreases |indexes|
  {
    if |indexes| > 0 {
      var tail := indexes[1..];
      SurvivorSlotsIncrease(tail, name);
      var rest := SurvivorSlots(tail, name);
      var shifted := seq(|rest|, j requires 0 <= j < |rest| => rest[j] + 1);
      var hs: seq<nat> := if |RemoveKey(indexes[0].expressions, name)| == 0 then [] else [0];
      var s := SurvivorSlots(indexes, name);
      assert s == hs + shifted;
      forall j | 0 <= j < |s|
        ensures s[j] < |indexes|
      {
        if j >= |hs| {
          assert s[j] == shifted[j - |hs|] == rest[j - |hs|] + 1;
          assert rest[j - |hs|] < |indexes[1..]|;
        }
      }
      forall j1, j2 | 0 <= j1 < j2 < |s|
        ensures s[j1] < s[j2]
      {
        assert s[j2] == shifted[j2 - |hs|] == rest[j2 - |hs|] + 1;
        if j1 >= |hs| {
          assert s[j1] == shifted[j1 - |hs|] == rest[j1 - |hs|] + 1;
          assert rest[j1 - |hs|] < rest[j2 - |hs|];
        } else {
          assert s[j1] == 0;
        }
      }
    }
  }

  /** A slot survives exactly when its index keeps a key. */
  lemma {:induction false} SurvivorSlotsExact(indexes: seq<Index>, name: string)
    ensures forall k :: 0 <= k < |indexes| ==>
      (k in SurvivorSlots(indexes, name) <==> |RemoveKey(indexes[k].expressions, name)| > 0)
    decreases |indexes|
  {
    if |indexes| > 0 {
      SurvivorSlotsExact(indexes[1..], name);
      var rest := SurvivorSlots(indexes[1..], name);
      var shifted := seq(|rest|, j requires 0 <= j < |rest| => rest[j] + 1);
      var hs: seq<nat> := if |RemoveKey(indexes[0].expressions, name)| == 0 then [] else [0];
      assert SurvivorSlots(indexes, name) == hs + shifted;
      assert 0 !in shifted;
      forall k | 0 < k < |indexes|
        ensures k in shifted <==> |RemoveKey(indexes[k].expressions, name)| > 0
      {
        assert indexes[1..][k - 1] == indexes[k];
        if k - 1 in rest {
          var j :| 0 <= j < |rest| && rest[j] == k - 1;
          assert shifted[j] == k;
        }
        if k in shifted {
          var j :| 0 <= j < |shifted| && shifted[j] == k;
          assert rest[j] == k - 1;
        }
      }
    }
  }

  /** The j-th index left after pruning is the pruned index of the j-th surviving slot. */
  lemma {:induction false} DropKeySlots(indexes: seq<Index>, name: string)
    ensures var s := SurvivorSlots(indexes, name);
      var r := DropKeyFromIndexes(indexes, name);
      && |r| == |s|
      && (forall j :: 0 <= j < |s| ==> s[j] < |indexes| && r[j] == Pruned(indexes[s[j]], name))
    decreases |indexes|
  {
    SurvivorSlotsIncrease(indexes, name);
    if |indexes| > 0 {
      DropKeySlots(indexes[1..], name);
      var rest := SurvivorSlots(indexes[1..], name);
      var keys := RemoveKey(indexes[0].expressions, name);
      var hs: seq<nat> := if |keys| == 0 then [] else [0];
      var s := SurvivorSlots(indexes, name);
      var rr := DropKeyFromIndexes(indexes[1..], name);
      var r := DropKeyFromIndexes(indexes, name);
      assert r == (if |keys| == 0 then [] else [indexes[0].(expressions := keys)]) + rr;
      forall j | |hs| <= j < |s|
        ensures r[j] == Pruned(indexes[s[j]], name)
      {
        assert s[j] == rest[j - |hs|] + 1;
        assert r[j] == rr[j - |hs|];
        assert indexes[1..][rest[j - |hs|]] == indexes[s[j]];
      }
    }
  }

  /** Closing the gap at p keeps the relative order of the columns around it. */
  lemma ShiftDownKeepsOrder(columns: seq<Column>, p: nat)
    requires forall k :: 0 <= k < |columns| ==> columns[k].position != p
    ensures forall a, b :: 0 <= a < |columns| && 0 <= b < |columns| ==>
      (ShiftDown(columns, p)[a].position < ShiftDown(columns, p)[b].position <==> columns[a].position < columns[b].position)
  {
  }

  /**
   * DROP COLUMN removes the column, keeps the others in their storage order, moves the ones
   * after it one place earlier, and keeps the relative order of all of them.
   */
  lemma DropColumnColumns(t: Table, name: string, ctx: FinderContext)
    requires WellFormedTable(t) && ColumnIndex(t.columns, name).Some?
    ensures DropColumnFromTable(t, name, ctx).Success?
    ensures var r := DropColumnFromTable(t, name, ctx).value;
      var i := ColumnIndex(t.columns, name).value;
      var p := t.columns[i].position;
      var kept := RemoveAt(t.columns, i);
      && r.name == t.name
      && name !in ColumnNames(r.columns)
      && |r.columns| == |kept|
      && (forall k :: 0 <= k < |kept| ==>
            r.columns[k] == kept[k].(position := if kept[k].position > p then kept[k].position - 1 else kept[k].position))
      && (forall a, b :: 0 <= a < |kept| && 0 <= b < |kept| ==>
            (r.columns[a].position < r.columns[b].position <==> kept[a].position < kept[b].position))
  {
    var i := ColumnIndex(t.columns, name).value;
    var r := DropColumnFromTable(t, name, ctx).value;
    WalkThroughInvariants.RemoveKeepsDistinctNames(t.columns, i);
    KeptColumns(t.columns, i);
    ShiftDownKeepsOrder(RemoveAt(t.columns, i), t.columns[i].position);
  }

  /**
   * DROP COLUMN removes the column's name from every key list. The indexes left are exactly the
   * pruned old indexes that still have a key: an index whose only key was the column is dropped,
   * nothing is invented, and nothing about the table changes but its columns and indexes.
   */
  lemma DropColumnKeys(t: Table, name: string, ctx: FinderContext)
    requires ColumnIndex(t.columns, name).Some?
    ensures DropColumnFromTable(t, name, ctx).Success?
    ensures var r := DropColumnFromTable(t, name, ctx).value;
      && r == t.(columns := r.columns, indexes := r.indexes)
      && (forall x :: x in r.indexes ==> name !in x.expressions)
      && (forall k :: 0 <= k < |t.indexes| && (exists e :: e in t.indexes[k].expressions && e != name) ==>
            Pruned(t.indexes[k], name) in r.indexes)
      && (forall k :: 0 <= k < |t.indexes| && (forall e :: e in t.indexes[k].expressions ==> e == name) ==>
            Pruned(t.indexes[k], name) !in r.indexes)
      && (forall x :: x in r.indexes <==>
            exists k :: 0 <= k < |t.indexes| && |Pruned(t.indexes[k], name).expressions| > 0 && x == Pruned(t.indexes[k], name))
  {
    var r := DropColumnFromTable(t, name, ctx).value;
    assert r.indexes == DropKeyFromIndexes(t.indexes, name);
    DropKeyMembership(t.indexes, name);
    forall k | 0 <= k < |t.indexes| && (exists e :: e in t.indexes[k].expressions && e != name)
      ensures |Pruned(t.indexes[k], name).expressions| > 0
    {
      var e :| e in t.indexes[k].expressions && e != name;
      assert e in Pruned(t.indexes[k], name).expressions;
    }
    forall k | 0 <= k < |t.indexes| && (forall e :: e in t.indexes[k].expressions ==> e == name)
      ensures |Pruned(t.indexes[k], name).expressions| == 0
    {
      RemoveKeyAll(t.indexes[k].expressions, name);
    }
  }

  /**
   * DROP COLUMN keeps the surviving indexes in their old relative order: the j-th index left is
   * the pruned index of the j-th surviving slot, the slots increase, and a slot survives exactly
   * when its index keeps a key.
   */
  lemma DropColumnKeepsIndexOrder(t: Table, name: string, ctx: FinderContext)
    requires ColumnIndex(t.columns, name).Some?
    ensures DropColumnFromTable(t, name, ctx).Success?
    ensures var r := DropColumnFromTable(t, name, ctx).value;
      var s := SurvivorSlots(t.indexes, name);
      && |r.indexes| == |s|
      && (forall j :: 0 <= j < |s| ==> s[j] < |t.indexes| && r.indexes[j] == Pruned(t.indexes[s[j]], name))
      && (forall j1, j2 :: 0 <= j1 < j2 < |s| ==> s[j1] < s[j2])
      && (forall k :: 0 <= k < |t.indexes| ==> (k in s <==> |Pruned(t.indexes[k], name).expressions| > 0))
  {
    var r := DropColumnFromTable(t, name, ctx).value;
    assert r.indexes == DropKeyFromIndexes(t.indexes, name);
    DropKeySlots(t.indexes, name);
    SurvivorSlotsIncrease(t.indexes, name);
    SurvivorSlotsExact(t.indexes, name);
  }

  // ---------------------------------------------------------------------------------------
  // CHANGE and MODIFY COLUMN.
  // ---------------------------------------------------------------------------------------

  /** Closing the gap at p and reopening it restores every position. */
  lemma ShiftRoundTrip(columns: seq<Column>, p: nat)
    requires forall k :: 0 <= k < |columns| ==> columns[k].position != p
    ensures ShiftUp(ShiftDown(columns, p), p) == columns
  {
  }

  /** The columns other than slot i, and that they avoid its position. */
  lemma KeptColumns(columns: seq<Column>, i: nat)
    requires DensePositions(columns) && i < |columns|
    ensures forall k :: 0 <= k < |columns| - 1 ==>
      RemoveAt(columns, i)[k].position != columns[i].position && RemoveAt(columns, i)[k].position >= 1
  {
    var kept := RemoveAt(columns, i);
    forall k | 0 <= k < |kept|
      ensures kept[k].position != columns[i].position && kept[k].position >= 1
    {
      var o := if k < i then k else k + 1;
      assert kept[k] == columns[o];
    }
  }

  /** With dense positions, every slot from 1 to the column count is held by some column. */
  lemma SlotHeld(columns: seq<Column>, q: nat)
    requires DensePositions(columns) && 1 <= q <= |columns|
    ensures ColumnAtPosition(columns, q).Some?
  {
    DenseCoversSlots(columns);
    SlotsCount(|columns|);
    assert q in PositionSet(columns);
  }

  /** With dense positions, the column in slot p-1 survives the removal of slot p's column. */
  lemma ColumnBeforeSurvives(columns: seq<Column>, i: nat)
    requires DensePositions(columns) && i < |columns| && columns[i].position > 1
    ensures ColumnAtPosition(ShiftDown(RemoveAt(columns, i), columns[i].position), columns[i].position - 1).Some?
  {
    var p := columns[i].position;
    var kept := RemoveAt(columns, i);
    SlotHeld(columns, p - 1);
    var j := ColumnAtPosition(columns, p - 1).value;
    var jk := if j < i then j else j - 1;
    assert kept[jk] == columns[j];
    assert ShiftDown(kept, p)[jk].position == p - 1;
  }

  lemma ColumnIndexOfMember(columns: seq<Column>, m: nat)
    requires DistinctColumnNames(columns) && m < |columns|
    ensures ColumnIndex(columns, columns[m].name) == Some(m)
  {
    var n := ColumnIndex(columns, columns[m].name).value;
    assert columns[n].name == columns[m].name;
  }

  /**
   * With the column at slot i taken out and the gap closed, the position clause that names
   * the column before it reopens exactly the old slot.
   */
  lemma SamePositionReopens(columns: seq<Column>, i: nat, table: string, ctx: FinderContext)
    requires DensePositions(columns) && DistinctColumnNames(columns) && i < |columns|
    ensures var p := columns[i].position;
      var rest := ShiftDown(RemoveAt(columns, i), p);
      InsertPosition(rest, table, SamePosition(rest, p), ctx) == Success((RemoveAt(columns, i), p))
  {
    var p := columns[i].position;
    var kept := RemoveAt(columns, i);
    var rest := ShiftDown(kept, p);
    KeptColumns(columns, i);
    ShiftRoundTrip(kept, p);
    if p > 1 {
      ColumnBeforeSurvives(columns, i);
      WalkThroughInvariants.RemoveKeepsDistinctNames(columns, i);
      var m := ColumnAtPosition(rest, p - 1).value;
      ColumnIndexOfMember(rest, m);
    }
  }

  /**
   * CHANGE or MODIFY COLUMN without a position clause puts the new definition in the old
   * column's slot: every other column keeps its position.
   */
  lemma ChangeColumnKeepsPlace(t: Table, oldName: string, def: ColumnDef, ctx: FinderContext)
    requires WellFormedTable(t) && ColumnIndex(t.columns, oldName).Some?
    requires ChangeColumnInTable(t, oldName, def, PositionNone, ctx).Success?
    ensures var i := ColumnIndex(t.columns, oldName).value;
      ChangeColumnInTable(t, oldName, def, PositionNone, ctx).value.columns
        == RemoveAt(t.columns, i) + [NewColumn(def, t.columns[i].position)]
  {
    var i := ColumnIndex(t.columns, oldName).value;
    var p := t.columns[i].position;
    var rest := ShiftDown(RemoveAt(t.columns, i), p);
    SamePositionReopens(t.columns, i, t.name, ctx);
    var t0 := t.(columns := RemoveAt(t.columns, i) + [NewColumn(def, p)]);
    WalkThroughProperties.AddInlineIndexesKeepsColumns(t0, def.name, def.options);
  }

  /**
   * MODIFY/CHANGE ... FIRST puts the column in slot 1; the columns that were before it move
   * one place later and the ones after it keep their positions.
   */
  lemma ChangeColumnFirst(t: Table, oldName: string, def: ColumnDef, ctx: FinderContext)
    requires WellFormedTable(t) && ColumnIndex(t.columns, oldName).Some?
    requires ChangeColumnInTable(t, oldName, def, PositionFirst, ctx).Success?
    ensures var i := ColumnIndex(t.columns, oldName).value;
      var p := t.columns[i].position;
      var kept := RemoveAt(t.columns, i);
      var r := ChangeColumnInTable(t, oldName, def, PositionFirst, ctx).value.columns;
      && |r| == |t.columns|
      && r[|kept|] == NewColumn(def, 1)
      && forall k :: 0 <= k < |kept| ==>
           r[k] == kept[k].(position := if kept[k].position < p then kept[k].position + 1 else kept[k].position)
  {
    var i := ColumnIndex(t.columns, oldName).value;
    var p := t.columns[i].position;
    var kept := RemoveAt(t.columns, i);
    KeptColumns(t.columns, i);
    var rest := ShiftDown(kept, p);
    var t0 := t.(columns := rest).(columns := ShiftUp(rest, 1) + [NewColumn(def, 1)]);
    WalkThroughProperties.AddInlineIndexesKeepsColumns(t0, def.name, def.options);
  }

  /**
   * CHANGE and MODIFY COLUMN rewrite the old name to the new one in every key list of the
   * existing indexes, keeping each index's name, flags and number of keys; the only other
   * indexes are the ones the new definition's inline options append, over the new column.
   */
  lemma ChangeColumnRenamesKeys(t: Table, oldName: string, def: ColumnDef, position: ColumnPosition, ctx: FinderContext)
    requires ColumnIndex(t.columns, oldName).Some?
    requires ChangeColumnInTable(t, oldName, def, position, ctx).Success?
    ensures var r := ChangeColumnInTable(t, oldName, def, position, ctx).value;
      && |r.indexes| >= |t.indexes|
      && (forall x :: 0 <= x < |t.indexes| ==>
            && r.indexes[x] == t.indexes[x].(expressions := r.indexes[x].expressions)
            && |r.indexes[x].expressions| == |t.indexes[x].expressions|
            && (forall e :: 0 <= e < |t.indexes[x].expressions| ==>
                  r.indexes[x].expressions[e] == if t.indexes[x].expressions[e] == oldName then def.name
                                                 else t.indexes[x].expressions[e]))
      && (forall x :: |t.indexes| <= x < |r.indexes| ==> r.indexes[x].expressions == [def.name])
      && (oldName != def.name ==> forall x :: x in r.indexes ==> oldName !in x.expressions)
  {
    var i := ColumnIndex(t.columns, oldName).value;
    var rest := ShiftDown(RemoveAt(t.columns, i), t.columns[i].position);
    var where := if position.PositionNone? then SamePosition(rest, t.columns[i].position) else position;
    var t0 := t.(columns := rest);
    var t1 := AddColumnToTable(t0, def, where, ctx).value;
    var slot := InsertPosition(rest, t.name, where, ctx).value;
    WalkThroughProperties.AddInlineIndexesAppends(t0.(columns := slot.0 + [NewColumn(def, slot.1)]), def.name, def.options);
    var r := ChangeColumnInTable(t, oldName, def, position, ctx).value;
    assert r.indexes == RenameKeyInIndexes(t1.indexes, oldName, def.name);
    forall x | 0 <= x < |t.indexes|
      ensures r.indexes[x] == t.indexes[x].(expressions := RenameKey(t.indexes[x].expressions, oldName, def.name))
    {
      assert t1.indexes[x] == t1.indexes[..|t.indexes|][x];
    }
    forall x | |t.indexes| <= x < |r.indexes|
      ensures r.indexes[x].expressions == [def.name]
    {
      assert RenameKey([def.name], oldName, def.name) == [def.name];
    }
    forall x | x in r.indexes
      ensures oldName != def.name ==> oldName !in x.expressions
    {
      var k :| 0 <= k < |r.indexes| && r.indexes[k] == x;
      assert x.expressions == RenameKey(t1.indexes[k].expressions, oldName, def.name);
    }
  }

  /**
   * RENAME COLUMN renames the column in place (same position, type and options), rewrites
   * the name in every key list and changes nothing else.
   */
  lemma RenameColumnEffect(t: Table, oldName: string, newName: string, ctx: FinderContext)
    requires DistinctColumnNames(t.columns) && ColumnIndex(t.columns, oldName).Some?
    requires RenameColumnInTable(t, oldName, newName, ctx).Success?
    ensures var i := ColumnIndex(t.columns, oldName).value;
      var r := RenameColumnInTable(t, oldName, newName, ctx).value;
      && r == t.(columns := r.columns, indexes := r.indexes)
      && FindColumn(r, newName) == Some(t.columns[i].(name := newName))
      && (oldName != newName ==> FindColumn(r, oldName).None?)
      && |r.columns| == |t.columns|
      && (forall k :: 0 <= k < |t.columns| && k != i ==> r.columns[k] == t.columns[k])
      && |r.indexes| == |t.indexes|
      && (forall x :: 0 <= x < |t.indexes| ==>
            && r.indexes[x] == t.indexes[x].(expressions := r.indexes[x].expressions)
            && |r.indexes[x].expressions| == |t.indexes[x].expressions|
            && (forall e :: 0 <= e < |t.indexes[x].expressions| ==>
                  r.indexes[x].expressions[e] == if t.indexes[x].expressions[e] == oldName then newName
                                                 else t.indexes[x].expressions[e])
            && (oldName != newName ==> oldName !in r.indexes[x].expressions))
  {
    var i := ColumnIndex(t.columns, oldName).value;
    var r := RenameColumnInTable(t, oldName, newName, ctx).value;
    if oldName != newName {
      assert ColumnIndex(t.columns, newName).None?;
    }
    forall k | 0 <= k < |r.columns| && k != i
      ensures r.columns[k].name != newName
    {
      if oldName == newName {
        if k < i {
          assert t.columns[k].name != t.columns[i].name;
        } else {
          assert t.columns[i].name != t.columns[k].name;
        }
      }
    }
    assert r.columns[i].name == newName;
    var f := ColumnIndex(r.columns, newName).value;
    assert f == i;
  }

  // ---------------------------------------------------------------------------------------
  // ALTER COLUMN ... SET/DROP DEFAULT.
  // ---------------------------------------------------------------------------------------

  /**
   * ALTER COLUMN c DROP DEFAULT (value None) leaves c without a default, SET DEFAULT v gives
   * it v; the column keeps its slot and position and nothing else changes.
   */
  lemma SetColumnDefaultEffect(t: Table, name: string, value: Option<string>, ctx: FinderContext)
    requires DistinctColumnNames(t.columns) && ColumnIndex(t.columns, name).Some?
    ensures SetColumnDefaultInTable(t, name, value, ctx).Success?
    ensures var i := ColumnIndex(t.columns, name).value;
      var r := SetColumnDefaultInTable(t, name, value, ctx).value;
      && r == t.(columns := r.columns)
      && FindColumn(r, name) == Some(t.columns[i].(default := value))
      && r.columns[i].default == value && r.columns[i].position == t.columns[i].position
      && |r.columns| == |t.columns|
      && (forall k :: 0 <= k < |t.columns| && k != i ==> r.columns[k] == t.columns[k])
      && r.indexes == t.indexes && r.name == t.name
  {
    var i := ColumnIndex(t.columns, name).value;
    var r := SetColumnDefaultInTable(t, name, value, ctx).value;
    assert r.columns[i].name == name;
    var f := ColumnIndex(r.columns, name).value;
    assert f == i;
  }

  // ---------------------------------------------------------------------------------------
  // Index clauses touch only the named index.
  // ---------------------------------------------------------------------------------------

  /** Taking out slot i of a list of distinctly named indexes keeps exactly the others. */
  lemma RemoveIndexMembership(indexes: seq<Index>, i: nat)
    requires DistinctIndexNames(indexes) && i < |indexes|
    ensures forall x :: x in RemoveAt(indexes, i) <==> x in indexes && x.name != indexes[i].name
  {
    var r := RemoveAt(indexes, i);
    forall x | x in indexes && x.name != indexes[i].name
      ensures x in r
    {
      var j :| 0 <= j < |indexes| && indexes[j] == x;
      if j < i {
        assert r[j] == x;
      } else {
        assert r[j - 1] == x;
      }
    }
    forall x | x in r
      ensures x in indexes && x.name != indexes[i].name
    {
      var j :| 0 <= j < |r| && r[j] == x;
      var o := if j < i then j else j + 1;
      assert x == indexes[o];
      if o < i {
        assert indexes[o].name != indexes[i].name;
      } else {
        assert indexes[i].name != indexes[o].name;
      }
    }
  }

  lemma RemoveIndexNames(indexes: seq<Index>, i: nat)
    requires DistinctIndexNames(indexes) && i < |indexes|
    ensures IndexNames(RemoveAt(indexes, i)) == IndexNames(indexes) - {indexes[i].name}
  {
    var r := RemoveAt(indexes, i);
    RemoveIndexMembership(indexes, i);
    forall n | n in IndexNames(r)
      ensures n in IndexNames(indexes) - {indexes[i].name}
    {
      var j :| 0 <= j < |r| && r[j].name == n;
      assert r[j] in r;
      var o := if j < i then j else j + 1;
      assert indexes[o].name == n;
    }
    forall n | n in IndexNames(indexes) - {indexes[i].name}
      ensures n in IndexNames(r)
    {
      var j :| 0 <= j < |indexes| && indexes[j].name == n;
      assert indexes[j] in r;
      var k :| 0 <= k < |r| && r[k] == indexes[j];
    }
  }

  /**
   * DROP INDEX n (and DROP PRIMARY KEY, which is DROP INDEX PRIMARY) removes exactly the
   * index n, keeps the others in their order, and leaves the columns alone.
   */
  lemma DropIndexEffect(t: Table, name: string, ctx: FinderContext)
    requires WellFormedTable(t) && IndexIndex(t.indexes, name).Some?
    ensures DropIndexFromTable(t, name, ctx).Success?
    ensures var i := IndexIndex(t.indexes, name).value;
      var r := DropIndexFromTable(t, name, ctx).value;
      && r.columns == t.columns && r.name == t.name
      && r.indexes == t.indexes[..i] + t.indexes[i + 1..]
      && (forall x :: x in r.indexes <==> x in t.indexes && x.name != name)
      && IndexNames(r.indexes) == IndexNames(t.indexes) - {name}
  {
    var i := IndexIndex(t.indexes, name).value;
    RemoveIndexMembership(t.indexes, i);
    RemoveIndexNames(t.indexes, i);
  }

  /**
   * DROP PRIMARY KEY removes exactly the PRIMARY index: the other indexes keep their order, the
   * columns are untouched, and a well-formed table is left with no primary index.
   */
  lemma DropPrimaryKeyEffect(t: Table, ctx: FinderContext)
    requires WellFormedTable(t) && IndexIndex(t.indexes, PrimaryKeyName).Some?
    ensures ApplySpecToTable(t, DropPrimaryKey, ctx).Success?
    ensures var i := IndexIndex(t.indexes, PrimaryKeyName).value;
      var r := ApplySpecToTable(t, DropPrimaryKey, ctx).value;
      && r.columns == t.columns && r.name == t.name
      && r.indexes == t.indexes[..i] + t.indexes[i + 1..]
    ensures WalkThroughProperties.PrimaryIndexes(ApplySpecToTable(t, DropPrimaryKey, ctx).value.indexes) == {}
  {
    DropIndexEffect(t, PrimaryKeyName, ctx);
    var r := ApplySpecToTable(t, DropPrimaryKey, ctx).value;
    forall k | 0 <= k < |r.indexes|
      ensures !r.indexes[k].primary
    {
      assert r.indexes[k] in r.indexes;
    }
  }

  /**
   * RENAME INDEX a TO b renames that index in its slot; every other index and every column
   * stays as it was.
   */
  lemma RenameIndexEffect(t: Table, oldName: string, newName: string, ctx: FinderContext)
    requires IndexIndex(t.indexes, oldName).Some?
    requires RenameIndexInTable(t, oldName, newName, ctx).Success?
    ensures var i := IndexIndex(t.indexes, oldName).value;
      var r := RenameIndexInTable(t, oldName, newName, ctx).value;
      && r == t.(indexes := r.indexes)
      && |r.indexes| == |t.indexes|
      && r.indexes[i] == t.indexes[i].(name := newName)
      && (forall k :: 0 <= k < |t.indexes| && k != i ==> r.indexes[k] == t.indexes[k])
      && oldName != PrimaryKeyName && newName != PrimaryKeyName
  {
  }

  /** ALTER INDEX n [IN]VISIBLE changes only that index's visibility, in its slot. */
  lemma SetIndexVisibilityEffect(t: Table, name: string, visible: bool, ctx: FinderContext)
    requires IndexIndex(t.indexes, name).Some?
    ensures SetIndexVisibilityInTable(t, name, visible, ctx).Success?
    ensures var i := IndexIndex(t.indexes, name).value;
      var r := SetIndexVisibilityInTable(t, name, visible, ctx).value;
      && r == t.(indexes := r.indexes)
      && |r.indexes| == |t.indexes|
      && r.indexes[i] == t.indexes[i].(visible := visible)
      && (forall k :: 0 <= k < |t.indexes| && k != i ==> r.indexes[k] == t.indexes[k])
  {
  }

  // ---------------------------------------------------------------------------------------
  // References to missing objects.
  // ---------------------------------------------------------------------------------------

  /** The clauses that name an existing column, and the column they name. */
  function ColumnReferenced(spec: AlterSpec): (r: Option<string>)
    ensures r.Some? <==> spec.DropColumn? || spec.ModifyColumn? || spec.ChangeColumn? || spec.RenameColumn? || spec.SetColumnDefault?
  {
    match spec
    case DropColumn(n) => Some(n)
    case ModifyColumn(def, _) => Some(def.name)
    case ChangeColumn(n, _, _) => Some(n)
    case RenameColumn(n, _) => Some(n)
    case SetColumnDefault(n, _) => Some(n)
    case _ => None
  }

  /**
   * A clause naming a column the table lacks fails with "Column `c` does not exist in table
   * `t`" under integrity checking and leaves the table as it was otherwise.
   */
  lemma MissingColumnClause(t: Table, spec: AlterSpec, ctx: FinderContext)
    requires ColumnReferenced(spec).Some? && ColumnIndex(t.columns, ColumnReferenced(spec).value).None?
    ensures ApplySpecToTable(t, spec, ctx)
         == if ctx.checkIntegrity then Failure(ColumnNotExistsError(ColumnReferenced(spec).value, t.name)) else Success(t)
  {
  }

  /** The clauses that name an existing non-primary index, and the index they name. */
  function IndexReferenced(spec: AlterSpec): (r: Option<string>)
    ensures r.Some? <==> spec.DropIndex? || (spec.RenameIndex? && spec.oldName != PrimaryKeyName && spec.newName != PrimaryKeyName)
                         || spec.AlterIndexVisibility?
  {
    match spec
    case DropIndex(n) => Some(n)
    case RenameIndex(n, m) => if n == PrimaryKeyName || m == PrimaryKeyName then None else Some(n)
    case AlterIndexVisibility(n, _) => Some(n)
    case _ => None
  }

  /**
   * A clause naming an index the table lacks fails with "Index `i` does not exist in table
   * `t`" under integrity checking and leaves the table as it was otherwise.
   */
  lemma MissingIndexClause(t: Table, spec: AlterSpec, ctx: FinderContext)
    requires IndexReferenced(spec).Some? && IndexIndex(t.indexes, IndexReferenced(spec).value).None?
    ensures ApplySpecToTable(t, spec, ctx)
         == if ctx.checkIntegrity then Failure(IndexNotExistsError(IndexReferenced(spec).value, t.name)) else Success(t)
  {
  }

  /**
   * DROP PRIMARY KEY on a table without a PRIMARY index fails with "Index `PRIMARY` does not
   * exist in table `t`" under integrity checking and leaves the table as it was otherwise.
   */
  lemma MissingPrimaryKeyClause(t: Table, ctx: FinderContext)
    requires IndexIndex(t.indexes, PrimaryKeyName).None?
    ensures ApplySpecToTable(t, DropPrimaryKey, ctx)
         == if ctx.checkIntegrity then Failure(IndexNotExistsError(PrimaryKeyName, t.name)) else Success(t)
  {
  }

  /**
   * ALTER TABLE, CREATE INDEX and DROP INDEX on a missing table fail with "Table `t` does
   * not exist" under integrity checking and are no-ops otherwise.
   */
  lemma MissingTableStatement(s: Schema, stmt: Stmt, ctx: FinderContext)
    requires stmt.AlterTable? || stmt.CreateIndex? || stmt.DropIndexStmt?
    requires TableIndex(s.tables, stmt.tableName).None?
    ensures ApplyStmt(s, stmt, ctx)
         == Step(s, if ctx.checkIntegrity then Some(TableNotExistsError(stmt.tableName)) else None)
  {
  }
}
