/**
 * What a diff script means: replaying it against a catalog of tables, each a set of children,
 * where every statement must find what it expects (ADD a name that is free, MODIFY or DROP a
 * name that exists, CREATE a table that is absent, DROP one that is present).  The main result
 * is that the differ's script, replayed against the old snapshot, succeeds and yields exactly
 * the new snapshot.
 */
module DifferReplay {
  import opened Wrappers
  import opened Differ

  // ---------------------------------------------------------------------------------------
  // Replay semantics.
  // ---------------------------------------------------------------------------------------

  /** A catalog: each present table's children, by table name. */
  type Catalog = map<string, set<Obj>>

  /** One table's slot in a catalog. */
  datatype Entry = Absent | Present(objs: set<Obj>)

  function Lookup(st: Catalog, t: string): Entry
  {
    if t in st then Present(st[t]) else Absent
  }

  function KeysIn(s: set<Obj>): set<ChildKey>
  {
    set o | o in s :: KeyOf(o)
  }

  function Without(s: set<Obj>, k: ChildKey): (r: set<Obj>)
    ensures forall o :: o in r <==> o in s && KeyOf(o) != k
  {
    set o | o in s && KeyOf(o) != k
  }

  function ChildSet(t: TableDef): (r: set<Obj>)
    ensures forall o :: o in r <==> o in Children(t)
  {
    set o | o in Children(t)
  }

  /** The table a statement acts on. */
  function TableOf(s: DiffStmt): string
  {
    if s.CreateTableStmt? then s.table.name else s.tableName
  }

  /** One statement's effect on its table's slot, or None when its expectation fails. */
  function ApplyEntry(e: Entry, s: DiffStmt): (r: Option<Entry>)
    ensures r.Some? && s.AddStmt? ==> e.Present? && KeyOf(s.obj) !in KeysIn(e.objs) && r.value == Present(e.objs + {s.obj})
    ensures r.Some? && s.DropStmt? ==> e.Present? && s.key in KeysIn(e.objs) && r.value == Present(Without(e.objs, s.key))
    ensures r.Some? && s.CreateTableStmt? ==> e.Absent? && r.value == Present(ChildSet(s.table))
    ensures r.Some? && s.DropTableStmt? ==> e.Present? && r.value == Absent
  {
    match s
    case CreateTableStmt(t) => if e.Absent? then Some(Present(ChildSet(t))) else None
    case DropTableStmt(_) => if e.Present? then Some(Absent) else None
    case AddStmt(_, o) =>
      if e.Present? && KeyOf(o) !in KeysIn(e.objs) then Some(Present(e.objs + {o})) else None
    case ModifyColumnStmt(_, c) =>
      var k := KeyOf(ColumnObj(c));
      if e.Present? && k in KeysIn(e.objs) then Some(Present(Without(e.objs, k) + {ColumnObj(c)})) else None
    case DropStmt(_, k) =>
      if e.Present? && k in KeysIn(e.objs) then Some(Present(Without(e.objs, k))) else None
  }

  /** A statement applied to a catalog: only its own table's slot changes. */
  function Apply(st: Catalog, s: DiffStmt): (r: Option<Catalog>)
    ensures r.None? <==> ApplyEntry(Lookup(st, TableOf(s)), s).None?
    ensures r.Some? ==> Some(Lookup(r.value, TableOf(s))) == ApplyEntry(Lookup(st, TableOf(s)), s)
    ensures r.Some? ==> forall t :: t != TableOf(s) ==> Lookup(r.value, t) == Lookup(st, t)
  {
    var t := TableOf(s);
    match ApplyEntry(Lookup(st, t), s)
    case None => None
    case Some(Absent) => Some(st - {t})
    case Some(Present(x)) => Some(st[t := x])
  }

  /** A script replayed statement by statement; None as soon as one fails. */
  function Replay(st: Catalog, stmts: seq<DiffStmt>): (r: Option<Catalog>)
    decreases |stmts|
  {
    if |stmts| == 0 then Some(st)
    else match Apply(st, stmts[0])
      case None => None
      case Some(next) => Replay(next, stmts[1..])
  }

  /** A script replayed against one table's slot. */
  function ReplayEntry(e: Entry, stmts: seq<DiffStmt>): (r: Option<Entry>)
    decreases |stmts|
  {
    if |stmts| == 0 then Some(e)
    else match ApplyEntry(e, stmts[0])
      case None => None
      case Some(next) => ReplayEntry(next, stmts[1..])
  }

  /** The statements of a script that act on table `t`, in order. */
  function Project(stmts: seq<DiffStmt>, t: string): (r: seq<DiffStmt>)
    ensures forall i :: 0 <= i < |r| ==> TableOf(r[i]) == t
    decreases |stmts|
  {
    if |stmts| == 0 then []
    else (if TableOf(stmts[0]) == t then [stmts[0]] else []) + Project(stmts[1..], t)
  }

  predicate OnTable(stmts: seq<DiffStmt>, t: string)
  {
    forall i :: 0 <= i < |stmts| ==> TableOf(stmts[i]) == t
  }

  // ---------------------------------------------------------------------------------------
  // A script can be replayed table by table.
  // ---------------------------------------------------------------------------------------

  lemma ReplayEntryConcat(e: Entry, a: seq<DiffStmt>, b: seq<DiffStmt>)
    ensures ReplayEntry(e, a + b) ==
      match ReplayEntry(e, a)
      case None => None
      case Some(mid) => ReplayEntry(mid, b)
    decreases |a|
  {
    if |a| == 0 {
      assert a + b == b;
    } else {
      assert (a + b)[0] == a[0];
      assert (a + b)[1..] == a[1..] + b;
      match ApplyEntry(e, a[0])
      case None =>
      case Some(next) => ReplayEntryConcat(next, a[1..], b);
    }
  }

  /**
   * A script succeeds on a catalog when its projection onto every table succeeds on that
   * table's slot, and then each slot ends as its projection leaves it.
   */
  lemma {:induction false} ReplayByTable(st: Catalog, stmts: seq<DiffStmt>)
    requires forall t :: ReplayEntry(Lookup(st, t), Project(stmts, t)).Some?
    ensures Replay(st, stmts).Some?
    ensures forall t :: Some(Lookup(Replay(st, stmts).value, t)) == ReplayEntry(Lookup(st, t), Project(stmts, t))
    decreases |stmts|
  {
    if |stmts| > 0 {
      var s := stmts[0];
      var u := TableOf(s);
      assert Project(stmts, u) == [s] + Project(stmts[1..], u);
      assert ReplayEntry(Lookup(st, u), Project(stmts, u)).Some?;
      var next := Apply(st, s).value;
      forall t
        ensures ReplayEntry(Lookup(next, t), Project(stmts[1..], t)) == ReplayEntry(Lookup(st, t), Project(stmts, t))
      {
        if t != u {
          assert Project(stmts, t) == Project(stmts[1..], t);
        }
      }
      ReplayByTable(next, stmts[1..]);
    }
  }

  lemma ProjectConcat(a: seq<DiffStmt>, b: seq<DiffStmt>, t: string)
    ensures Project(a + b, t) == Project(a, t) + Project(b, t)
    decreases |a|
  {
    if |a| == 0 {
      assert a + b == b;
    } else {
      assert (a + b)[0] == a[0];
      assert (a + b)[1..] == a[1..] + b;
      ProjectConcat(a[1..], b, t);
    }
  }

  lemma ProjectReverse(a: seq<DiffStmt>, t: string)
    ensures Project(Reverse(a), t) == Reverse(Project(a, t))
    decreases |a|
  {
    if |a| > 0 {
      assert Reverse(a) == Reverse(a[1..]) + [a[0]];
      ProjectConcat(Reverse(a[1..]), [a[0]], t);
      ProjectReverse(a[1..], t);
      assert Project([a[0]], t) == if TableOf(a[0]) == t then [a[0]] else [];
      ReverseConcat(if TableOf(a[0]) == t then [a[0]] else [], Project(a[1..], t));
    }
  }

  lemma ReverseConcat<T>(a: seq<T>, b: seq<T>)
    ensures Reverse(a + b) == Reverse(b) + Reverse(a)
  {
  }

  lemma ProjectOnTable(stmts: seq<DiffStmt>, u: string, t: string)
    requires OnTable(stmts, u)
    ensures Project(stmts, t) == if t == u then stmts else []
    decreases |stmts|
  {
    if |stmts| > 0 {
      ProjectOnTable(stmts[1..], u, t);
    }
  }

  /**
   * Projecting a per-table run onto `n` leaves the statements of the table called `n`, when
   * every table contributes statements on itself only and names are unique.
   */
  lemma {:induction false} ProjectPerTable(tables: seq<TableDef>, f: TableDef -> seq<DiffStmt>, n: string)
    requires forall i, j :: 0 <= i < j < |tables| ==> tables[i].name != tables[j].name
    requires forall i :: 0 <= i < |tables| ==> OnTable(f(tables[i]), tables[i].name)
    ensures Project(PerTable(tables, f), n) ==
      match FindTableDef(tables, n)
      case None => []
      case Some(x) => f(x)
    decreases |tables|
  {
    if |tables| > 0 {
      ProjectConcat(f(tables[0]), PerTable(tables[1..], f), n);
      ProjectOnTable(f(tables[0]), tables[0].name, n);
      ProjectPerTable(tables[1..], f, n);
      if tables[0].name == n {
        assert FindTableDef(tables[1..], n).None?;
      }
    }
  }

  // ---------------------------------------------------------------------------------------
  // Snapshots as catalogs.
  // ---------------------------------------------------------------------------------------

  /** The slot the snapshot gives the table called `n`. */
  function EntryOf(tables: seq<TableDef>, n: string): Entry
  {
    match FindTableDef(tables, n)
    case None => Absent
    case Some(t) => Present(ChildSet(t))
  }

  /** A snapshot's catalog: every table's children as a set. */
  function Flatten(tables: seq<TableDef>): (r: Catalog)
    decreases |tables|
  {
    if |tables| == 0 then map[] else Flatten(tables[1..])[tables[0].name := ChildSet(tables[0])]
  }

  /** The catalog of a snapshot holds each of its tables' children under that table's name. */
  lemma {:induction false} FlattenLookup(tables: seq<TableDef>, n: string)
    ensures Lookup(Flatten(tables), n) == EntryOf(tables, n)
    decreases |tables|
  {
    if |tables| > 0 && tables[0].name != n {
      FlattenLookup(tables[1..], n);
    }
  }

  lemma CatalogExtensionality(a: Catalog, b: Catalog)
    requires forall t :: Lookup(a, t) == Lookup(b, t)
    ensures a == b
  {
    forall t | t in a
      ensures t in b && a[t] == b[t]
    {
      assert Lookup(a, t) == Lookup(b, t);
    }
    forall t | t in b
      ensures t in a
    {
      assert Lookup(a, t) == Lookup(b, t);
    }
  }
}
