/**
 * The differ's script is correct: replayed against the old snapshot's catalog, every statement
 * finds what it expects and the result is exactly the new snapshot's catalog.  The proof goes
 * table by table (DifferReplay.ReplayByTable) and, inside a kept table, run by run.
 */
module DifferRoundTrip {
  import opened Wrappers
  import opened Differ
  import opened DifferReplay

  // ---------------------------------------------------------------------------------------
  // Sets of children.
  // ---------------------------------------------------------------------------------------

  /** `o` is kept under its key by `other` but with another definition. */
  predicate Changed(other: seq<Obj>, o: Obj)
  {
    FindObj(other, KeyOf(o)).Some? && !Same(FindObj(other, KeyOf(o)).value, o)
  }

  function AddSet(other: seq<Obj>, objs: seq<Obj>): (r: set<Obj>)
    ensures forall o :: o in r <==> o in objs && FindObj(other, KeyOf(o)).None?
  {
    set o | o in objs && FindObj(other, KeyOf(o)).None?
  }

  function ChangedSet(other: seq<Obj>, objs: seq<Obj>): (r: set<Obj>)
    ensures forall o :: o in r <==> o in objs && Changed(other, o)
  {
    set o | o in objs && Changed(other, o)
  }

  function Keep(s: set<Obj>, keys: set<ChildKey>): (r: set<Obj>)
    ensures forall o :: o in r <==> o in s && KeyOf(o) !in keys
  {
    set o | o in s && KeyOf(o) !in keys
  }

  /** `s` with every child that `c` has a replacement for replaced by it. */
  function Swap(s: set<Obj>, c: set<Obj>): (r: set<Obj>)
    ensures forall o :: o in r <==> (o in s && KeyOf(o) !in KeysIn(c)) || o in c
  {
    Keep(s, KeysIn(c)) + c
  }

  /** The keys a run of drops removes. */
  function DropKeys(stmts: seq<DiffStmt>): (r: set<ChildKey>)
  {
    set i | 0 <= i < |stmts| && stmts[i].DropStmt? :: stmts[i].key
  }

  lemma KeysInMember(s: set<Obj>, k: ChildKey)
    ensures k in KeysIn(s) <==> exists o :: o in s && KeyOf(o) == k
  {
  }

  lemma KeysInUnion(a: set<Obj>, b: set<Obj>)
    ensures KeysIn(a + b) == KeysIn(a) + KeysIn(b)
  {
  }

  lemma KeysInSingleton(o: Obj)
    ensures KeysIn({o}) == {KeyOf(o)}
  {
    assert o in {o};
  }

  lemma DistinctKeysTail(objs: seq<Obj>)
    requires |objs| > 0 && DistinctKeys(objs)
    ensures DistinctKeys(objs[1..])
    ensures forall y :: y in objs[1..] ==> KeyOf(y) != KeyOf(objs[0])
  {
    forall i, j | 0 <= i < j < |objs[1..]|
      ensures KeyOf(objs[1..][i]) != KeyOf(objs[1..][j])
    {
      assert objs[1..][i] == objs[i + 1] && objs[1..][j] == objs[j + 1];
    }
    forall y | y in objs[1..]
      ensures KeyOf(y) != KeyOf(objs[0])
    {
      var j :| 0 <= j < |objs[1..]| && objs[1..][j] == y;
      assert objs[j + 1] == y;
    }
  }

  lemma DistinctKeysSplit(a: seq<Obj>, b: seq<Obj>)
    requires DistinctKeys(a + b)
    ensures DistinctKeys(a) && DistinctKeys(b)
    ensures forall x, y :: x in a && y in b ==> KeyOf(x) != KeyOf(y)
  {
    forall i, j | 0 <= i < j < |b|
      ensures KeyOf(b[i]) != KeyOf(b[j])
    {
      assert (a + b)[|a| + i] == b[i] && (a + b)[|a| + j] == b[j];
    }
    forall i, j | 0 <= i < j < |a|
      ensures KeyOf(a[i]) != KeyOf(a[j])
    {
      assert (a + b)[i] == a[i] && (a + b)[j] == a[j];
    }
    forall x, y | x in a && y in b
      ensures KeyOf(x) != KeyOf(y)
    {
      var i :| 0 <= i < |a| && a[i] == x;
      var j :| 0 <= j < |b| && b[j] == y;
      assert (a + b)[i] == x && (a + b)[|a| + j] == y;
    }
  }

  /** In a list with distinct keys, the child found under a member's key is that member. */
  lemma FindObjDistinct(objs: seq<Obj>, x: Obj)
    requires DistinctKeys(objs) && x in objs
    ensures FindObj(objs, KeyOf(x)) == Some(x)
    decreases |objs|
  {
    if objs[0] != x {
      DistinctKeysTail(objs);
      FindObjDistinct(objs[1..], x);
    }
  }

  lemma SameKeySameObj(objs: seq<Obj>, x: Obj, y: Obj)
    requires DistinctKeys(objs) && x in objs && y in objs && KeyOf(x) == KeyOf(y)
    ensures x == y
  {
    FindObjDistinct(objs, x);
    FindObjDistinct(objs, y);
  }

  // ---------------------------------------------------------------------------------------
  // Each run's effect on one table's children.
  // ---------------------------------------------------------------------------------------

  /** A run of ADDs succeeds when every added key is free, and adds exactly the new children. */
  lemma {:induction false} AddsReplay(s: set<Obj>, t: string, other: seq<Obj>, objs: seq<Obj>)
    requires DistinctKeys(objs)
    requires forall i :: 0 <= i < |objs| && FindObj(other, KeyOf(objs[i])).None? ==> KeyOf(objs[i]) !in KeysIn(s)
    ensures ReplayEntry(Present(s), AddedObjs(t, other, objs)) == Some(Present(s + AddSet(other, objs)))
    decreases |objs|
  {
    if |objs| == 0 {
      assert AddSet(other, objs) == {};
      assert s + AddSet(other, objs) == s;
    } else {
      var o, rest := objs[0], objs[1..];
      DistinctKeysTail(objs);
      var head := if FindObj(other, KeyOf(o)).None? then [AddStmt(t, o)] else [];
      assert AddedObjs(t, other, objs) == head + AddedObjs(t, other, rest);
      ReplayEntryConcat(Present(s), head, AddedObjs(t, other, rest));
      if FindObj(other, KeyOf(o)).None? {
        assert ReplayEntry(Present(s), head) == Some(Present(s + {o}));
        KeysInUnion(s, {o});
        KeysInSingleton(o);
        forall i | 0 <= i < |rest| && FindObj(other, KeyOf(rest[i])).None?
          ensures KeyOf(rest[i]) !in KeysIn(s + {o})
        {
          assert rest[i] == objs[i + 1];
        }
        AddsReplay(s + {o}, t, other, rest);
        assert AddSet(other, objs) == {o} + AddSet(other, rest) by {
          assert forall x :: x in objs <==> x == o || x in rest;
        }
        assert s + {o} + AddSet(other, rest) == s + AddSet(other, objs);
      } else {
        forall i | 0 <= i < |rest| && FindObj(other, KeyOf(rest[i])).None?
          ensures KeyOf(rest[i]) !in KeysIn(s)
        {
          assert rest[i] == objs[i + 1];
        }
        AddsReplay(s, t, other, rest);
        assert AddSet(other, objs) == AddSet(other, rest) by {
          assert forall x :: x in objs <==> x == o || x in rest;
        }
      }
    }
  }

  /** Replacing the child under `o`'s key by `o`, then swapping in `c`, is one swap. */
  lemma SwapStep(s: set<Obj>, o: Obj, c: set<Obj>)
    requires KeyOf(o) !in KeysIn(c)
    ensures Swap(Without(s, KeyOf(o)) + {o}, c) == Swap(s, {o} + c)
  {
    KeysInUnion({o}, c);
    KeysInSingleton(o);
  }

  lemma SwapKeys(s: set<Obj>, o: Obj)
    requires KeyOf(o) in KeysIn(s)
    ensures KeysIn(Without(s, KeyOf(o)) + {o}) == KeysIn(s)
  {
    KeysInUnion(Without(s, KeyOf(o)), {o});
    KeysInSingleton(o);
  }

  lemma ChangedSetEmpty(other: seq<Obj>, s: set<Obj>)
    ensures ChangedSet(other, []) == {}
    ensures Swap(s, {}) == s
  {
    assert KeysIn({}) == {};
  }

  lemma ChangedSetCons(other: seq<Obj>, objs: seq<Obj>)
    requires |objs| > 0
    ensures Changed(other, objs[0]) ==> ChangedSet(other, objs) == {objs[0]} + ChangedSet(other, objs[1..])
    ensures !Changed(other, objs[0]) ==> ChangedSet(other, objs) == ChangedSet(other, objs[1..])
  {
    assert forall o :: o in objs <==> o == objs[0] || o in objs[1..];
  }

  /** A changed child's key is not among the keys the rest of the list changes. */
  lemma ChangedRestKeys(other: seq<Obj>, objs: seq<Obj>)
    requires |objs| > 0 && DistinctKeys(objs)
    ensures KeyOf(objs[0]) !in KeysIn(ChangedSet(other, objs[1..]))
  {
    DistinctKeysTail(objs);
    assert forall y :: y in ChangedSet(other, objs[1..]) ==> KeyOf(y) != KeyOf(objs[0]);
  }

  /** A run of MODIFY COLUMNs succeeds when every modified column exists, and swaps in exactly the changed ones. */
  lemma {:induction false} ModifiesReplay(s: set<Obj>, t: string, other: seq<Obj>, objs: seq<Obj>)
    requires DistinctKeys(objs)
    requires forall i :: 0 <= i < |objs| ==> objs[i].ColumnObj?
    requires forall i :: 0 <= i < |objs| && Changed(other, objs[i]) ==> KeyOf(objs[i]) in KeysIn(s)
    ensures ReplayEntry(Present(s), ModifiedColumns(t, other, objs)) == Some(Present(Swap(s, ChangedSet(other, objs))))
    decreases |objs|
  {
    if |objs| == 0 {
      ChangedSetEmpty(other, s);
    } else {
      var o, rest := objs[0], objs[1..];
      DistinctKeysTail(objs);
      ChangedSetCons(other, objs);
      var head := if Changed(other, o) then [ModifyColumnStmt(t, o.column)] else [];
      var tail := ModifiedColumns(t, other, rest);
      assert ModifiedColumns(t, other, objs) == head + tail;
      ReplayEntryConcat(Present(s), head, tail);
      if Changed(other, o) {
        assert ColumnObj(o.column) == o;
        var s1 := Without(s, KeyOf(o)) + {o};
        assert ApplyEntry(Present(s), head[0]) == Some(Present(s1));
        assert ReplayEntry(Present(s), head) == Some(Present(s1));
        SwapKeys(s, o);
        forall i | 0 <= i < |rest| && Changed(other, rest[i])
          ensures KeyOf(rest[i]) in KeysIn(s1)
        {
          assert rest[i] == objs[i + 1];
        }
        ModifiesReplay(s1, t, other, rest);
        ChangedRestKeys(other, objs);
        SwapStep(s, o, ChangedSet(other, rest));
      } else {
        assert head == [];
        forall i | 0 <= i < |rest| && Changed(other, rest[i])
          ensures KeyOf(rest[i]) in KeysIn(s)
        {
          assert rest[i] == objs[i + 1];
        }
        ModifiesReplay(s, t, other, rest);
      }
    }
  }

  /** A run of DROP-then-ADD pairs succeeds when every replaced key exists, and swaps in exactly the changed children. */
  lemma {:induction false} ReplacesReplay(s: set<Obj>, t: string, other: seq<Obj>, objs: seq<Obj>)
    requires DistinctKeys(objs)
    requires forall i :: 0 <= i < |objs| && Changed(other, objs[i]) ==> KeyOf(objs[i]) in KeysIn(s)
    ensures ReplayEntry(Present(s), ReplacedObjs(t, other, objs)) == Some(Present(Swap(s, ChangedSet(other, objs))))
    decreases |objs|
  {
    if |objs| == 0 {
      ChangedSetEmpty(other, s);
    } else {
      var o, rest := objs[0], objs[1..];
      DistinctKeysTail(objs);
      ChangedSetCons(other, objs);
      var head := if Changed(other, o) then [DropStmt(t, KeyOf(o)), AddStmt(t, o)] else [];
      var tail := ReplacedObjs(t, other, rest);
      assert ReplacedObjs(t, other, objs) == head + tail;
      ReplayEntryConcat(Present(s), head, tail);
      if Changed(other, o) {
        var s0 := Without(s, KeyOf(o));
        var s1 := s0 + {o};
        ReplaceStep(s, t, o);
        SwapKeys(s, o);
        forall i | 0 <= i < |rest| && Changed(other, rest[i])
          ensures KeyOf(rest[i]) in KeysIn(s1)
        {
          assert rest[i] == objs[i + 1];
        }
        ReplacesReplay(s1, t, other, rest);
        ChangedRestKeys(other, objs);
        SwapStep(s, o, ChangedSet(other, rest));
      } else {
        assert head == [];
        forall i | 0 <= i < |rest| && Changed(other, rest[i])
          ensures KeyOf(rest[i]) in KeysIn(s)
        {
          assert rest[i] == objs[i + 1];
        }
        ReplacesReplay(s, t, other, rest);
      }
    }
  }

  /** DROP of an existing key then ADD under it replaces the child. */
  lemma ReplaceStep(s: set<Obj>, t: string, o: Obj)
    requires KeyOf(o) in KeysIn(s)
    ensures ReplayEntry(Present(s), [DropStmt(t, KeyOf(o)), AddStmt(t, o)]) == Some(Present(Without(s, KeyOf(o)) + {o}))
  {
    var s0 := Without(s, KeyOf(o));
    var stmts := [DropStmt(t, KeyOf(o)), AddStmt(t, o)];
    assert ApplyEntry(Present(s), stmts[0]) == Some(Present(s0));
    assert forall y :: y in s0 ==> KeyOf(y) != KeyOf(o);
    assert KeyOf(o) !in KeysIn(s0);
    assert stmts[1..] == [AddStmt(t, o)];
    assert ApplyEntry(Present(s0), stmts[1..][0]) == Some(Present(s0 + {o}));
    assert ReplayEntry(Present(s0 + {o}), stmts[1..][1..]) == Some(Present(s0 + {o}));
    assert ReplayEntry(Present(s0), stmts[1..]) == Some(Present(s0 + {o}));
  }

  /** A run of DROPs of distinct, existing keys succeeds, whatever its order, and removes exactly those keys. */
  lemma {:induction false} DropsReplay(s: set<Obj>, stmts: seq<DiffStmt>)
    requires forall i :: 0 <= i < |stmts| ==> stmts[i].DropStmt? && stmts[i].key in KeysIn(s)
    requires forall i, j :: 0 <= i < j < |stmts| ==> stmts[i].key != stmts[j].key
    ensures ReplayEntry(Present(s), stmts) == Some(Present(Keep(s, DropKeys(stmts))))
    decreases |stmts|
  {
    if |stmts| == 0 {
      assert DropKeys(stmts) == {};
      assert Keep(s, DropKeys(stmts)) == s;
    } else {
      var k := stmts[0].key;
      var s1 := Without(s, k);
      assert ApplyEntry(Present(s), stmts[0]) == Some(Present(s1));
      var rest := stmts[1..];
      forall i | 0 <= i < |rest|
        ensures rest[i].DropStmt? && rest[i].key in KeysIn(s1)
      {
        assert rest[i] == stmts[i + 1];
        var o :| o in s && KeyOf(o) == rest[i].key;
        assert o in s1;
      }
      forall i, j | 0 <= i < j < |rest|
        ensures rest[i].key != rest[j].key
      {
        assert rest[i] == stmts[i + 1] && rest[j] == stmts[j + 1];
      }
      DropsReplay(s1, rest);
      assert DropKeys(stmts) == {k} + DropKeys(rest) by {
        forall i | 0 <= i < |rest| ensures rest[i] == stmts[i + 1] { }
        forall q | q in DropKeys(stmts) ensures q in {k} + DropKeys(rest)
        {
          var i :| 0 <= i < |stmts| && stmts[i].DropStmt? && stmts[i].key == q;
          if i > 0 {
            assert rest[i - 1] == stmts[i];
          }
        }
      }
      assert Keep(s1, DropKeys(rest)) == Keep(s, DropKeys(stmts));
      assert ReplayEntry(Present(s), stmts) == ReplayEntry(Present(s1), rest);
    }
  }

  // ---------------------------------------------------------------------------------------
  // The removal run.
  // ---------------------------------------------------------------------------------------

  lemma DropKeysConcat(a: seq<DiffStmt>, b: seq<DiffStmt>)
    ensures DropKeys(a + b) == DropKeys(a) + DropKeys(b)
  {
    var ab := a + b;
    forall q | q in DropKeys(ab) ensures q in DropKeys(a) + DropKeys(b)
    {
      var i :| 0 <= i < |ab| && ab[i].DropStmt? && ab[i].key == q;
      if i >= |a| {
        assert ab[i] == b[i - |a|];
      }
    }
    forall q | q in DropKeys(b) ensures q in DropKeys(ab)
    {
      var i :| 0 <= i < |b| && b[i].DropStmt? && b[i].key == q;
      assert ab[|a| + i] == b[i];
    }
    forall q | q in DropKeys(a) ensures q in DropKeys(ab)
    {
      var i :| 0 <= i < |a| && a[i].DropStmt? && a[i].key == q;
      assert ab[i] == a[i];
    }
  }

  /** The removal run drops exactly the keys the old list has and the new list lacks. */
  lemma {:induction false} RemovedKeysAre(t: string, other: seq<Obj>, objs: seq<Obj>)
    ensures DropKeys(RemovedObjs(t, other, objs)) == RemovedKeySetOf(objs, other)
    decreases |objs|
  {
    var r := RemovedObjs(t, other, objs);
    if |objs| == 0 {
      assert DropKeys(r) == {};
    } else {
      var o := objs[0];
      RemovedKeysAre(t, other, objs[1..]);
      var head := if FindObj(other, KeyOf(o)).None? then [DropStmt(t, KeyOf(o))] else [];
      assert r == head + RemovedObjs(t, other, objs[1..]);
      DropKeysConcat(head, RemovedObjs(t, other, objs[1..]));
      assert forall x :: x in objs <==> x == o || x in objs[1..];
      if |head| == 1 {
        assert DropKeys(head) == {KeyOf(o)} by {
          assert head[0].key == KeyOf(o);
        }
        assert RemovedKeySetOf(objs, other) == {KeyOf(o)} + RemovedKeySetOf(objs[1..], other);
      } else {
        assert DropKeys(head) == {};
        assert RemovedKeySetOf(objs, other) == RemovedKeySetOf(objs[1..], other);
      }
    }
  }

  /** The removal run never drops one key twice. */
  lemma {:induction false} RemovedKeysDistinct(t: string, other: seq<Obj>, objs: seq<Obj>)
    requires DistinctKeys(objs)
    ensures forall i, j :: 0 <= i < j < |RemovedObjs(t, other, objs)| ==>
      RemovedObjs(t, other, objs)[i].key != RemovedObjs(t, other, objs)[j].key
    decreases |objs|
  {
    if |objs| > 0 {
      var o, rest := objs[0], objs[1..];
      DistinctKeysTail(objs);
      RemovedKeysDistinct(t, other, rest);
      var r := RemovedObjs(t, other, objs);
      var tail := RemovedObjs(t, other, rest);
      if FindObj(other, KeyOf(o)).None? {
        assert r == [DropStmt(t, KeyOf(o))] + tail;
        forall j | 1 <= j < |r|
          ensures r[j].key != KeyOf(o)
        {
          assert r[j] == tail[j - 1];
          assert FindObj(rest, tail[j - 1].key).value in rest;
        }
      } else {
        assert r == tail;
      }
    }
  }

  lemma DropKeysReverse(stmts: seq<DiffStmt>)
    ensures DropKeys(Reverse(stmts)) == DropKeys(stmts)
  {
    var r := Reverse(stmts);
    forall q | q in DropKeys(stmts) ensures q in DropKeys(r)
    {
      var i :| 0 <= i < |stmts| && stmts[i].DropStmt? && stmts[i].key == q;
      assert r[|stmts| - 1 - i] == stmts[i];
    }
  }

  // ---------------------------------------------------------------------------------------
  // One kept table.
  // ---------------------------------------------------------------------------------------

  /** The script the differ emits for a table both snapshots have, runs in order. */
  function KeptScript(n: string, ot: TableDef, nt: TableDef): seq<DiffStmt>
  {
    AddedObjs(n, Children(ot), ColumnChildren(nt))
    + ModifiedColumns(n, Children(ot), ColumnChildren(nt))
    + AddedObjs(n, Children(ot), ConstraintChildren(nt))
    + ReplacedObjs(n, Children(ot), ConstraintChildren(nt))
    + Reverse(RemovedObjs(n, Children(nt), Children(ot)))
  }

  /** The keys the removal run drops: those the old list has and the new list lacks. */
  function RemovedKeySetOf(o: seq<Obj>, n: seq<Obj>): (r: set<ChildKey>)
  {
    set x | x in o && FindObj(n, KeyOf(x)).None? :: KeyOf(x)
  }

  /** A kept table's children after its column runs. */
  function AfterColumns(o: seq<Obj>, nc: seq<Obj>): (r: set<Obj>)
  {
    Swap((set x | x in o) + AddSet(o, nc), ChangedSet(o, nc))
  }

  /** A kept table's children after the four runs that precede the removals. */
  function BeforeRemovals(o: seq<Obj>, nc: seq<Obj>, nk: seq<Obj>): (r: set<Obj>)
  {
    Swap(AfterColumns(o, nc) + AddSet(o, nk), ChangedSet(o, nk))
  }

  /** No child changed under `part` shares a key with an unchanged child of the new list. */
  lemma UnchangedKeyFree(o: seq<Obj>, n: seq<Obj>, part: seq<Obj>, x: Obj)
    requires DistinctKeys(n) && x in n && !Changed(o, x)
    requires forall y :: y in part ==> y in n
    ensures KeyOf(x) !in KeysIn(ChangedSet(o, part))
  {
    FindObjDistinct(n, x);
    forall y | y in ChangedSet(o, part)
      ensures KeyOf(y) != KeyOf(x)
    {
      FindObjDistinct(n, y);
    }
  }

  /** Keys of children changed under `part` are kept by the old list. */
  lemma ChangedKeysKept(o: seq<Obj>, part: seq<Obj>, k: ChildKey)
    requires k in KeysIn(ChangedSet(o, part))
    ensures FindObj(o, k).Some?
  {
  }

  /** Every child of the new table survives all runs. */
  lemma NewChildSurvives(o: seq<Obj>, nc: seq<Obj>, nk: seq<Obj>, x: Obj)
    requires DistinctKeys(o) && DistinctKeys(nc + nk)
    requires forall y :: y in nc ==> y.ColumnObj?
    requires forall y :: y in nk ==> !y.ColumnObj?
    requires x in nc + nk
    ensures x in Keep(BeforeRemovals(o, nc, nk), RemovedKeySetOf(o, nc + nk))
  {
    var n := nc + nk;
    assert forall y :: y in n <==> y in nc || y in nk;
    var ch1, ch2 := ChangedSet(o, nc), ChangedSet(o, nk);
    FindObjDistinct(n, x);
    assert KeyOf(x) !in RemovedKeySetOf(o, n);
    var sa := (set y | y in o) + AddSet(o, nc);
    var sb := Swap(sa, ch1);
    assert sb == AfterColumns(o, nc);
    if Changed(o, x) {
      if x in nc {
        assert x in ch1 && x in sb;
        assert KeyOf(x) !in KeysIn(ch2);
      } else {
        assert x in ch2;
      }
    } else {
      UnchangedKeyFree(o, n, nc, x);
      UnchangedKeyFree(o, n, nk, x);
      if FindObj(o, KeyOf(x)).None? {
        assert x in sa || x in AddSet(o, nk);
      } else {
        var p := FindObj(o, KeyOf(x)).value;
        SameIsIdentity(p, x);
        assert x in sa;
      }
    }
  }

  /** Every child that survives all runs belongs to the new table. */
  lemma SurvivorIsNew(o: seq<Obj>, nc: seq<Obj>, nk: seq<Obj>, x: Obj)
    requires DistinctKeys(o) && DistinctKeys(nc + nk)
    requires forall y :: y in nc ==> y.ColumnObj?
    requires forall y :: y in nk ==> !y.ColumnObj?
    requires x in Keep(BeforeRemovals(o, nc, nk), RemovedKeySetOf(o, nc + nk))
    ensures x in nc + nk
  {
    var n := nc + nk;
    assert forall y :: y in n <==> y in nc || y in nk;
    var ch1, ch2 := ChangedSet(o, nc), ChangedSet(o, nk);
    if x !in ch2 && x !in AddSet(o, nk) && x !in ch1 && x !in AddSet(o, nc) {
      assert x in o && KeyOf(x) !in KeysIn(ch1) && KeyOf(x) !in KeysIn(ch2);
      assert KeyOf(x) !in RemovedKeySetOf(o, n);
      FindObjDistinct(o, x);
      var y := FindObj(n, KeyOf(x)).value;
      assert y !in ch1 && y !in ch2;
      assert !Changed(o, y);
      SameIsIdentity(x, y);
    }
  }

  /** After all runs, a child survives exactly when it belongs to the new table. */
  lemma KeptTableFinal(o: seq<Obj>, nc: seq<Obj>, nk: seq<Obj>)
    requires DistinctKeys(o) && DistinctKeys(nc + nk)
    requires forall y :: y in nc ==> y.ColumnObj?
    requires forall y :: y in nk ==> !y.ColumnObj?
    ensures Keep(BeforeRemovals(o, nc, nk), RemovedKeySetOf(o, nc + nk)) == set x | x in nc + nk
  {
    forall x | x in nc + nk
      ensures x in Keep(BeforeRemovals(o, nc, nk), RemovedKeySetOf(o, nc + nk))
    {
      NewChildSurvives(o, nc, nk, x);
    }
    forall x | x in Keep(BeforeRemovals(o, nc, nk), RemovedKeySetOf(o, nc + nk))
      ensures x in nc + nk
    {
      SurvivorIsNew(o, nc, nk, x);
    }
  }

  /** The column runs: ADD COLUMN then MODIFY COLUMN, on the old table's children. */
  lemma ColumnRuns(n: string, o: seq<Obj>, nc: seq<Obj>, nk: seq<Obj>)
    requires DistinctKeys(o) && DistinctKeys(nc + nk)
    requires forall i :: 0 <= i < |nc| ==> nc[i].ColumnObj?
    ensures ReplayEntry(Present(set x | x in o), AddedObjs(n, o, nc) + ModifiedColumns(n, o, nc))
      == Some(Present(AfterColumns(o, nc)))
  {
    DistinctKeysSplit(nc, nk);
    var so := set x | x in o;
    AddsReplay(so, n, o, nc);
    var sa := so + AddSet(o, nc);
    forall i | 0 <= i < |nc| && Changed(o, nc[i])
      ensures KeyOf(nc[i]) in KeysIn(sa)
    {
      assert FindObj(o, KeyOf(nc[i])).value in sa;
    }
    ModifiesReplay(sa, n, o, nc);
    ReplayEntryConcat(Present(so), AddedObjs(n, o, nc), ModifiedColumns(n, o, nc));
  }

  /** The constraint runs: ADD of new names, then DROP-and-ADD of changed ones. */
  lemma ConstraintRuns(n: string, o: seq<Obj>, nc: seq<Obj>, nk: seq<Obj>)
    requires DistinctKeys(o) && DistinctKeys(nc + nk)
    requires forall i :: 0 <= i < |nc| ==> nc[i].ColumnObj?
    requires forall i :: 0 <= i < |nk| ==> !nk[i].ColumnObj?
    ensures ReplayEntry(Present(AfterColumns(o, nc)), AddedObjs(n, o, nk) + ReplacedObjs(n, o, nk))
      == Some(Present(BeforeRemovals(o, nc, nk)))
  {
    DistinctKeysSplit(nc, nk);
    var so := set x | x in o;
    var sb := AfterColumns(o, nc);
    assert forall y :: y in sb ==> y in so || y in nc;
    forall i | 0 <= i < |nk| && FindObj(o, KeyOf(nk[i])).None?
      ensures KeyOf(nk[i]) !in KeysIn(sb)
    {
      forall y | y in sb
        ensures KeyOf(y) != KeyOf(nk[i])
      {
        if y in nc {
          assert y.ColumnObj?;
        }
      }
    }
    AddsReplay(sb, n, o, nk);
    var sc := sb + AddSet(o, nk);
    forall i | 0 <= i < |nk| && Changed(o, nk[i])
      ensures KeyOf(nk[i]) in KeysIn(sc)
    {
      var p := FindObj(o, KeyOf(nk[i])).value;
      assert !p.ColumnObj?;
      forall y | y in ChangedSet(o, nc)
        ensures KeyOf(y) != KeyOf(p)
      {
        assert y.ColumnObj?;
      }
      assert p in sc;
    }
    ReplacesReplay(sc, n, o, nk);
    ReplayEntryConcat(Present(sb), AddedObjs(n, o, nk), ReplacedObjs(n, o, nk));
  }

  /** An old child whose name the new table lacks is still there when the removals start. */
  lemma RemovedKeyPresent(o: seq<Obj>, nc: seq<Obj>, nk: seq<Obj>, k: ChildKey)
    requires FindObj(nc + nk, k).None? && FindObj(o, k).Some?
    ensures k in KeysIn(BeforeRemovals(o, nc, nk))
  {
    var p := FindObj(o, k).value;
    forall y | y in ChangedSet(o, nc) || y in ChangedSet(o, nk)
      ensures KeyOf(y) != k
    {
      assert y in nc + nk;
    }
    assert p in AfterColumns(o, nc);
    assert p in BeforeRemovals(o, nc, nk);
  }

  lemma ReverseDistinctDrops(stmts: seq<DiffStmt>)
    requires forall i :: 0 <= i < |stmts| ==> stmts[i].DropStmt?
    requires forall i, j :: 0 <= i < j < |stmts| ==> stmts[i].key != stmts[j].key
    ensures forall i :: 0 <= i < |Reverse(stmts)| ==> Reverse(stmts)[i].DropStmt?
    ensures forall i, j :: 0 <= i < j < |Reverse(stmts)| ==> Reverse(stmts)[i].key != Reverse(stmts)[j].key
  {
    var r := Reverse(stmts);
    forall i, j | 0 <= i < j < |r|
      ensures r[i].key != r[j].key
    {
      assert r[i] == stmts[|stmts| - 1 - i] && r[j] == stmts[|stmts| - 1 - j];
    }
  }

  /** The removal run, reversed, succeeds when every removed name is present, and drops exactly those names. */
  lemma ReversedDropsReplay(s: set<Obj>, n: string, other: seq<Obj>, o: seq<Obj>)
    requires DistinctKeys(o)
    requires RemovedKeySetOf(o, other) <= KeysIn(s)
    ensures ReplayEntry(Present(s), Reverse(RemovedObjs(n, other, o))) == Some(Present(Keep(s, RemovedKeySetOf(o, other))))
  {
    var drops := RemovedObjs(n, other, o);
    RemovedKeysAre(n, other, o);
    RemovedKeysDistinct(n, other, o);
    DropKeysReverse(drops);
    var rev := Reverse(drops);
    ReverseDistinctDrops(drops);
    forall i | 0 <= i < |rev|
      ensures rev[i].key in KeysIn(s)
    {
      assert rev[i].key in DropKeys(rev);
    }
    DropsReplay(s, rev);
  }

  /** The removal run of a kept table. */
  lemma RemovalRun(n: string, o: seq<Obj>, nc: seq<Obj>, nk: seq<Obj>)
    requires DistinctKeys(o) && DistinctKeys(nc + nk)
    ensures ReplayEntry(Present(BeforeRemovals(o, nc, nk)), Reverse(RemovedObjs(n, nc + nk, o)))
      == Some(Present(Keep(BeforeRemovals(o, nc, nk), RemovedKeySetOf(o, nc + nk))))
  {
    forall k | k in RemovedKeySetOf(o, nc + nk)
      ensures k in KeysIn(BeforeRemovals(o, nc, nk))
    {
      var x :| x in o && FindObj(nc + nk, KeyOf(x)).None? && KeyOf(x) == k;
      RemovedKeyPresent(o, nc, nk, k);
    }
    ReversedDropsReplay(BeforeRemovals(o, nc, nk), n, nc + nk, o);
  }

  /** The runs of a kept table, on its children as lists. */
  function RunScript(n: string, o: seq<Obj>, nc: seq<Obj>, nk: seq<Obj>): seq<DiffStmt>
  {
    (AddedObjs(n, o, nc) + ModifiedColumns(n, o, nc))
    + ((AddedObjs(n, o, nk) + ReplacedObjs(n, o, nk)) + Reverse(RemovedObjs(n, nc + nk, o)))
  }

  lemma RunScriptRoundTrip(n: string, o: seq<Obj>, nc: seq<Obj>, nk: seq<Obj>)
    requires DistinctKeys(o) && DistinctKeys(nc + nk)
    requires forall i :: 0 <= i < |nc| ==> nc[i].ColumnObj?
    requires forall i :: 0 <= i < |nk| ==> !nk[i].ColumnObj?
    ensures ReplayEntry(Present(set x | x in o), RunScript(n, o, nc, nk)) == Some(Present(set x | x in nc + nk))
  {
    ColumnRuns(n, o, nc, nk);
    ConstraintRuns(n, o, nc, nk);
    RemovalRun(n, o, nc, nk);
    KeptTableFinal(o, nc, nk);
    var part1 := AddedObjs(n, o, nc) + ModifiedColumns(n, o, nc);
    var part2 := AddedObjs(n, o, nk) + ReplacedObjs(n, o, nk);
    var part3 := Reverse(RemovedObjs(n, nc + nk, o));
    ReplayEntryConcat(Present(set x | x in o), part1, part2 + part3);
    ReplayEntryConcat(Present(AfterColumns(o, nc)), part2, part3);
  }

  /** The kept table's script succeeds on the old table's children and leaves exactly the new table's. */
  lemma KeptTableRoundTrip(n: string, ot: TableDef, nt: TableDef)
    requires DistinctKeys(Children(ot)) && DistinctKeys(Children(nt))
    ensures ReplayEntry(Present(ChildSet(ot)), KeptScript(n, ot, nt)) == Some(Present(ChildSet(nt)))
  {
    var o, nc, nk := Children(ot), ColumnChildren(nt), ConstraintChildren(nt);
    assert Children(nt) == nc + nk;
    assert ChildSet(ot) == set x | x in o;
    assert ChildSet(nt) == set x | x in nc + nk;
    assert KeptScript(n, ot, nt) == RunScript(n, o, nc, nk);
    RunScriptRoundTrip(n, o, nc, nk);
  }

  // ---------------------------------------------------------------------------------------
  // The whole script, table by table.
  // ---------------------------------------------------------------------------------------

  lemma OnTableConcat(a: seq<DiffStmt>, b: seq<DiffStmt>, t: string)
    requires OnTable(a, t) && OnTable(b, t)
    ensures OnTable(a + b, t)
  {
    forall i | 0 <= i < |a + b|
      ensures TableOf((a + b)[i]) == t
    {
      if i >= |a| {
        assert (a + b)[i] == b[i - |a|];
      }
    }
  }

  lemma TableCreatesOnTable(oldS: SchemaDef, x: TableDef)
    ensures OnTable(TableCreates(oldS, x), x.name)
  {
    match FindTableDef(oldS.tables, x.name)
    case None =>
    case Some(ot) =>
      var o := Children(ot);
      OnTableConcat(AddedObjs(x.name, o, ColumnChildren(x)), ModifiedColumns(x.name, o, ColumnChildren(x)), x.name);
      OnTableConcat(AddedObjs(x.name, o, ColumnChildren(x)) + ModifiedColumns(x.name, o, ColumnChildren(x)),
        AddedObjs(x.name, o, ConstraintChildren(x)), x.name);
  }

  lemma TableReplacesOnTable(oldS: SchemaDef, x: TableDef)
    ensures OnTable(TableReplaces(oldS, x), x.name)
  {
    match FindTableDef(oldS.tables, x.name)
    case None =>
    case Some(ot) =>
  }

  lemma TableRemovalsOnTable(oldS: SchemaDef, x: TableDef)
    ensures OnTable(TableRemovals(oldS, x), x.name)
  {
    match FindTableDef(oldS.tables, x.name)
    case None =>
    case Some(ot) =>
  }

  lemma TableDropOnTable(newS: SchemaDef, x: TableDef)
    ensures OnTable(TableDrop(newS, x), x.name)
  {
  }

  /** Every run the differ emits for a table acts on that table only. */
  lemma TableRunsOnTable(oldS: SchemaDef, newS: SchemaDef, x: TableDef)
    ensures OnTable(TableCreates(oldS, x), x.name)
    ensures OnTable(TableReplaces(oldS, x), x.name)
    ensures OnTable(TableRemovals(oldS, x), x.name)
    ensures OnTable(TableDrop(newS, x), x.name)
  {
    TableCreatesOnTable(oldS, x);
    TableReplacesOnTable(oldS, x);
    TableRemovalsOnTable(oldS, x);
    TableDropOnTable(newS, x);
  }

  /** What the differ emits for the table called `n`, by whether each snapshot has it. */
  function TableScript(oldS: SchemaDef, newS: SchemaDef, n: string): seq<DiffStmt>
  {
    match (FindTableDef(oldS.tables, n), FindTableDef(newS.tables, n))
    case (None, None) => []
    case (None, Some(nt)) => [CreateTableStmt(nt)]
    case (Some(_), None) => [DropTableStmt(n)]
    case (Some(ot), Some(nt)) => KeptScript(n, ot, nt)
  }

  lemma DistinctNamesFind(tables: seq<TableDef>, i: nat)
    requires i < |tables|
    requires forall a, b :: 0 <= a < b < |tables| ==> tables[a].name != tables[b].name
    ensures FindTableDef(tables, tables[i].name) == Some(tables[i])
    decreases i
  {
    if i > 0 {
      DistinctNamesFind(tables[1..], i - 1);
    }
  }

  /** The table called `n`'s share of each run, as the per-table projection finds it. */
  function RunsFor(oldS: SchemaDef, newS: SchemaDef, n: string): seq<DiffStmt>
  {
    var inNew := FindTableDef(newS.tables, n);
    var inOld := FindTableDef(oldS.tables, n);
    (if inNew.Some? then TableCreates(oldS, inNew.value) else [])
    + (if inNew.Some? then TableReplaces(oldS, inNew.value) else [])
    + Reverse((if inNew.Some? then TableRemovals(oldS, inNew.value) else [])
              + (if inOld.Some? then TableDrop(newS, inOld.value) else []))
  }

  lemma DiffProjectsToRuns(oldS: SchemaDef, newS: SchemaDef, n: string)
    requires WellFormedSchemaDef(oldS) && WellFormedSchemaDef(newS)
    ensures Project(Diff(oldS, newS), n) == RunsFor(oldS, newS, n)
  {
    var createRun := nt => TableCreates(oldS, nt);
    var replaceRun := nt => TableReplaces(oldS, nt);
    var removalRun := nt => TableRemovals(oldS, nt);
    var dropRun := ot => TableDrop(newS, ot);
    forall i | 0 <= i < |newS.tables|
      ensures OnTable(createRun(newS.tables[i]), newS.tables[i].name)
      ensures OnTable(replaceRun(newS.tables[i]), newS.tables[i].name)
      ensures OnTable(removalRun(newS.tables[i]), newS.tables[i].name)
    {
      TableRunsOnTable(oldS, newS, newS.tables[i]);
    }
    forall i | 0 <= i < |oldS.tables|
      ensures OnTable(dropRun(oldS.tables[i]), oldS.tables[i].name)
    {
      TableRunsOnTable(oldS, newS, oldS.tables[i]);
    }
    ProjectPerTable(newS.tables, createRun, n);
    ProjectPerTable(newS.tables, replaceRun, n);
    ProjectPerTable(newS.tables, removalRun, n);
    ProjectPerTable(oldS.tables, dropRun, n);
    var c, r, m, d := PerTable(newS.tables, createRun), PerTable(newS.tables, replaceRun),
      PerTable(newS.tables, removalRun), PerTable(oldS.tables, dropRun);
    assert Diff(oldS, newS) == c + r + Reverse(m + d);
    ProjectConcat(c + r, Reverse(m + d), n);
    ProjectConcat(c, r, n);
    ProjectReverse(m + d, n);
    ProjectConcat(m, d, n);
  }

  lemma RunsAreTableScript(oldS: SchemaDef, newS: SchemaDef, n: string)
    ensures RunsFor(oldS, newS, n) == TableScript(oldS, newS, n)
  {
    var inNew := FindTableDef(newS.tables, n);
    var inOld := FindTableDef(oldS.tables, n);
    if inNew.Some? {
      assert inNew.value.name == n;
    }
    if inOld.Some? {
      assert inOld.value.name == n;
    }
    match (inOld, inNew)
    case (None, None) =>
    case (None, Some(nt)) =>
    case (Some(_), None) =>
    case (Some(ot), Some(nt)) =>
      assert TableRemovals(oldS, nt) + [] == TableRemovals(oldS, nt);
  }

  /** The statements of the diff that act on table `n` are exactly that table's script. */
  lemma DiffProjection(oldS: SchemaDef, newS: SchemaDef, n: string)
    requires WellFormedSchemaDef(oldS) && WellFormedSchemaDef(newS)
    ensures Project(Diff(oldS, newS), n) == TableScript(oldS, newS, n)
  {
    DiffProjectsToRuns(oldS, newS, n);
    RunsAreTableScript(oldS, newS, n);
  }

  /** Each table's script takes its old slot to its new slot. */
  lemma TableScriptRoundTrip(oldS: SchemaDef, newS: SchemaDef, n: string)
    requires WellFormedSchemaDef(oldS) && WellFormedSchemaDef(newS)
    ensures ReplayEntry(EntryOf(oldS.tables, n), TableScript(oldS, newS, n)) == Some(EntryOf(newS.tables, n))
  {
    match (FindTableDef(oldS.tables, n), FindTableDef(newS.tables, n))
    case (None, None) =>
    case (None, Some(nt)) =>
      assert [CreateTableStmt(nt)][1..] == [];
    case (Some(_), None) =>
      assert [DropTableStmt(n)][1..] == [];
    case (Some(ot), Some(nt)) =>
      var i :| 0 <= i < |oldS.tables| && oldS.tables[i] == ot;
      var j :| 0 <= j < |newS.tables| && newS.tables[j] == nt;
      KeptTableRoundTrip(n, ot, nt);
  }

  /**
   * The differ's script, replayed against the old snapshot, succeeds statement by statement and
   * leaves the new snapshot's catalog: every table with the same set of children, and no other
   * table (the catalog does not record the order of tables, columns or indexes).
   */
  lemma DiffRoundTrip(oldS: SchemaDef, newS: SchemaDef)
    requires WellFormedSchemaDef(oldS) && WellFormedSchemaDef(newS)
    ensures Replay(Flatten(oldS.tables), Diff(oldS, newS)) == Some(Flatten(newS.tables))
  {
    var st := Flatten(oldS.tables);
    var script := Diff(oldS, newS);
    forall t
      ensures ReplayEntry(Lookup(st, t), Project(script, t)) == Some(EntryOf(newS.tables, t))
    {
      FlattenLookup(oldS.tables, t);
      DiffProjection(oldS, newS, t);
      TableScriptRoundTrip(oldS, newS, t);
    }
    ReplayByTable(st, script);
    forall t
      ensures Lookup(Replay(st, script).value, t) == Lookup(Flatten(newS.tables), t)
    {
      FlattenLookup(newS.tables, t);
    }
    CatalogExtensionality(Replay(st, script).value, Flatten(newS.tables));
  }
}
