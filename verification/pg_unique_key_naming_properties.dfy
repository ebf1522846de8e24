/**
 * What the unique-key naming rule promises: which constraints are checked, in which order,
 * that the column-list placeholder gives the key columns back, when each kind of advice
 * appears, and that the OK advice stands alone exactly when every checked key passes.
 */
module PgUniqueKeyNamingProperties {
  import opened Wrappers
  import Text
  import opened PgUniqueKeyNaming

  // ---------------------------------------------------------------------------------------
  // Which constraints are checked, and in which order.
  // ---------------------------------------------------------------------------------------

  /** Collecting metadata distributes over concatenation: it keeps the constraints' order. */
  lemma {:induction false} CollectConcat(cat: Catalog, schemaName: string, tableName: string, a: seq<ConstraintDef>, b: seq<ConstraintDef>)
    ensures Collect(cat, schemaName, tableName, a + b)
         == Collect(cat, schemaName, tableName, a) + Collect(cat, schemaName, tableName, b)
    decreases |a|
  {
    if |a| == 0 {
      assert a + b == b;
    } else {
      assert (a + b)[0] == a[0];
      assert (a + b)[1..] == a[1..] + b;
      CollectConcat(cat, schemaName, tableName, a[1..], b);
    }
  }

  /** A key is collected exactly when some constraint of the list yields it. */
  lemma {:induction false} CollectMembers(cat: Catalog, schemaName: string, tableName: string, cs: seq<ConstraintDef>)
    ensures forall m :: m in Collect(cat, schemaName, tableName, cs) <==>
      exists c :: c in cs && UniqueKeyMetadata(cat, schemaName, tableName, c) == Some(m)
    decreases |cs|
  {
    if |cs| > 0 {
      CollectMembers(cat, schemaName, tableName, cs[1..]);
      assert forall c :: c in cs <==> c == cs[0] || c in cs[1..];
    }
  }

  /** A constraint of a column list belongs to one of its columns. */
  lemma {:induction false} ColumnConstraintsMembers(columns: seq<ColumnDef>)
    ensures forall c :: c in ColumnConstraints(columns) <==>
      exists col :: col in columns && c in col.constraintList
    decreases |columns|
  {
    if |columns| > 0 {
      ColumnConstraintsMembers(columns[1..]);
      assert forall col :: col in columns <==> col == columns[0] || col in columns[1..];
    }
  }

  /**
   * CREATE TABLE checks its table-level constraints first, then the column-level ones column
   * by column, and nothing else: a key is checked exactly when one of those constraints
   * yields it.
   */
  lemma CreateTableMetaData(cat: Catalog, text: string, name: TableName, columns: seq<ColumnDef>, constraints: seq<ConstraintDef>)
    ensures MetaDataList(cat, CreateTableStmt(text, name, columns, constraints))
         == Collect(cat, name.schema, name.name, constraints + ColumnConstraints(columns))
    ensures forall m :: m in MetaDataList(cat, CreateTableStmt(text, name, columns, constraints)) <==>
      (exists c :: c in constraints && UniqueKeyMetadata(cat, name.schema, name.name, c) == Some(m))
      || (exists col, c :: col in columns && c in col.constraintList && UniqueKeyMetadata(cat, name.schema, name.name, c) == Some(m))
  {
    var cc := ColumnConstraints(columns);
    CollectConcat(cat, name.schema, name.name, constraints, cc);
    CollectMembers(cat, name.schema, name.name, constraints);
    CollectMembers(cat, name.schema, name.name, cc);
    ColumnConstraintsMembers(columns);
  }

  /** A statement whose constraints are none of UNIQUE and UNIQUE USING INDEX checks nothing. */
  lemma NoUniqueConstraintNoMetaData(cat: Catalog, schemaName: string, tableName: string, cs: seq<ConstraintDef>)
    requires forall c :: c in cs ==> c.ctype != Unique && c.ctype != UniqueUsingIndex
    ensures Collect(cat, schemaName, tableName, cs) == []
  {
    CollectMembers(cat, schemaName, tableName, cs);
    var r := Collect(cat, schemaName, tableName, cs);
    assert forall k :: 0 <= k < |r| ==> r[k] in r;
  }

  // ---------------------------------------------------------------------------------------
  // The column-list placeholder.
  // ---------------------------------------------------------------------------------------

  /**
   * The column list a UNIQUE constraint fills its template with gives the key columns back
   * when cut at `_`, as long as no key column name holds an underscore itself.
   */
  lemma UniqueColumnListRoundTrip(cat: Catalog, schemaName: string, tableName: string, c: ConstraintDef)
    requires c.ctype == Unique && |c.keyList| >= 1
    requires forall i :: 0 <= i < |c.keyList| ==> '_' !in c.keyList[i]
    ensures Text.Split(UniqueKeyMetadata(cat, schemaName, tableName, c).value.metaData[ColumnListToken], '_') == c.keyList
  {
    Text.SplitJoin(c.keyList, '_');
  }

  /** Likewise for a unique CREATE INDEX and its key columns. */
  lemma CreateIndexColumnListRoundTrip(cat: Catalog, text: string, index: IndexDef)
    requires index.unique && |index.keyList| >= 1
    requires forall i :: 0 <= i < |index.keyList| ==> '_' !in index.keyList[i]
    ensures var r := MetaDataList(cat, CreateIndexStmt(text, index));
      |r| == 1 && Text.Split(r[0].metaData[ColumnListToken], '_') == index.keyList
  {
    Text.SplitJoin(index.keyList, '_');
  }

  // ---------------------------------------------------------------------------------------
  // When each advice appears.
  // ---------------------------------------------------------------------------------------

  /** A key passes when its template compiles, its name matches, and it is not too long. */
  predicate Passes(rule: Rule, md: IndexMetaData)
  {
    match rule.templateRegexp(rule.format, rule.templateList, md.metaData)
    case Failure(_) => false
    case Success(pattern) => rule.matchString(pattern, md.indexName) && !TooLong(rule, md.indexName)
  }

  lemma PrefixIndex(a: string, b: string, i: nat)
    requires i < |a|
    ensures (a + b)[i] == a[i]
  {
  }

  lemma PatternAndLengthAdviceDiffer(rule: Rule, md: IndexMetaData, pattern: string)
    requires rule.maxLength > 0
    ensures PatternMismatchAdvice(rule, md, pattern) != LengthAdvice(rule, md)
  {
    var p1 := "Unique key in table \"" + md.tableName;
    var p2 := p1 + "\" mismatches the naming convention, expect ";
    var p3 := p2 + Quoted(pattern);
    var p4 := p3 + " but found \"";
    var p5 := p4 + md.indexName;
    PrefixIndex("Unique key in table \"", md.tableName, 11);
    PrefixIndex(p1, "\" mismatches the naming convention, expect ", 11);
    PrefixIndex(p2, Quoted(pattern), 11);
    PrefixIndex(p3, " but found \"", 11);
    PrefixIndex(p4, md.indexName, 11);
    PrefixIndex(p5, "\"", 11);
    assert PatternMismatchAdvice(rule, md, pattern).content[11] == 'i';
    var l1 := "Unique key \"" + md.indexName;
    var l2 := l1 + "\" in table \"";
    var l3 := l2 + md.tableName;
    var l4 := l3 + "\" mismatches the naming convention, its length should be within ";
    var l5 := l4 + Text.NatToString(rule.maxLength as nat);
    PrefixIndex("Unique key \"", md.indexName, 11);
    PrefixIndex(l1, "\" in table \"", 11);
    PrefixIndex(l2, md.tableName, 11);
    PrefixIndex(l3, "\" mismatches the naming convention, its length should be within ", 11);
    PrefixIndex(l4, Text.NatToString(rule.maxLength as nat), 11);
    PrefixIndex(l5, " characters", 11);
    assert LengthAdvice(rule, md).content[11] == '"';
  }

  /**
   * The advice of one key: an internal error, alone, exactly when its template does not
   * compile; otherwise a pattern mismatch exactly when the name does not match, and a length
   * advice exactly when a positive limit is exceeded; nothing at all exactly when it passes.
   */
  lemma KeyAdviceCases(rule: Rule, text: string, md: IndexMetaData)
    ensures var r := KeyAdvice(rule, text, md);
      (|r| == 1 && r[0].code == Internal) <==> rule.templateRegexp(rule.format, rule.templateList, md.metaData).Failure?
    ensures var r := KeyAdvice(rule, text, md);
      match rule.templateRegexp(rule.format, rule.templateList, md.metaData)
      case Failure(_) => true
      case Success(pattern) =>
        && (PatternMismatchAdvice(rule, md, pattern) in r <==> !rule.matchString(pattern, md.indexName))
        && (rule.maxLength > 0 ==> (LengthAdvice(rule, md) in r <==> |md.indexName| > rule.maxLength))
        && (forall a :: a in r ==> a.code == NamingUKConventionMismatch)
    ensures KeyAdvice(rule, text, md) == [] <==> Passes(rule, md)
  {
    match rule.templateRegexp(rule.format, rule.templateList, md.metaData)
    case Failure(_) =>
    case Success(pattern) =>
      if rule.maxLength > 0 {
        PatternAndLengthAdviceDiffer(rule, md, pattern);
      }
  }

  /** A statement's keys draw no advice exactly when every one of them passes. */
  lemma {:induction false} KeysAdviceEmpty(rule: Rule, text: string, mds: seq<IndexMetaData>)
    ensures KeysAdvice(rule, text, mds) == [] <==> forall i :: 0 <= i < |mds| ==> Passes(rule, mds[i])
    decreases |mds|
  {
    if |mds| > 0 {
      KeyAdviceCases(rule, text, mds[0]);
      KeysAdviceEmpty(rule, text, mds[1..]);
      assert forall i :: 1 <= i < |mds| ==> mds[i] == mds[1..][i - 1];
    }
  }

  /** The advice of several statements is theirs one after another: statements do not interact. */
  lemma {:induction false} VisitAllConcat(rule: Rule, cat: Catalog, a: seq<Node>, b: seq<Node>)
    ensures VisitAll(rule, cat, a + b) == VisitAll(rule, cat, a) + VisitAll(rule, cat, b)
    decreases |a|
  {
    if |a| == 0 {
      assert a + b == b;
    } else {
      assert (a + b)[0] == a[0];
      assert (a + b)[1..] == a[1..] + b;
      VisitAllConcat(rule, cat, a[1..], b);
    }
  }

  /** Every key every statement names or renames passes. */
  predicate AllPass(rule: Rule, cat: Catalog, root: seq<Node>)
  {
    forall i, j :: 0 <= i < |root| && 0 <= j < |MetaDataList(cat, root[i])| ==> Passes(rule, MetaDataList(cat, root[i])[j])
  }

  lemma {:induction false} VisitAllEmpty(rule: Rule, cat: Catalog, root: seq<Node>)
    ensures VisitAll(rule, cat, root) == [] <==> AllPass(rule, cat, root)
    decreases |root|
  {
    if |root| > 0 {
      KeysAdviceEmpty(rule, root[0].text, MetaDataList(cat, root[0]));
      VisitAllEmpty(rule, cat, root[1..]);
      assert forall i :: 1 <= i < |root| ==> root[i] == root[1..][i - 1];
    }
  }

  /**
   * The rule's verdict is the single OK advice exactly when every checked key passes, and
   * otherwise the advice of every statement in order, none of it OK.
   */
  lemma CheckVerdict(rule: Rule, cat: Catalog, root: seq<Node>)
    ensures Check(rule, cat, root) == [OkAdvice] <==> AllPass(rule, cat, root)
    ensures !AllPass(rule, cat, root) ==>
      Check(rule, cat, root) == VisitAll(rule, cat, root)
      && forall i :: 0 <= i < |Check(rule, cat, root)| ==> Check(rule, cat, root)[i].status == rule.level
  {
    VisitAllEmpty(rule, cat, root);
    var advice := VisitAll(rule, cat, root);
    if advice != [] {
      assert advice[0].code != Ok;
    }
  }
}
