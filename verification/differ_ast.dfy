/**
 * The parts of a parsed MySQL index definition the schema differ compares: key parts (a column
 * reference and/or a computed expression) and the index option block.  Two definitions are
 * the same when these compare equal; whitespace and redundant parentheses never reach this
 * level, since only parsed trees are compared.
 */
module DifferAst {
  import opened Wrappers

  datatype BinaryOp = Plus | Minus | Mul | Div

  /** A key-part expression tree. */
  datatype Expr =
    | ColumnRef(name: string)
    | IntValue(value: int)
    | StringValue(text: string)
    | Binary(op: BinaryOp, left: Expr, right: Expr)
    | FuncCall(name: string, args: seq<Expr>)

  /** One element of an index's key list: a column, an expression, or (as the parser builds it) both. */
  datatype KeyPart = KeyPart(column: Option<string>, expr: Option<Expr>)

  /** `USING` method of an index; `TypeInvalid` when none was written. */
  datatype IndexType = TypeInvalid | BTree | Hash | RTree

  datatype Visibility = VisibilityDefault | Visible | Invisible

  /** The option block after an index's key list. */
  datatype IndexOption = IndexOption(
    keyBlockSize: nat,
    indexType: IndexType,
    parserName: string,
    comment: string,
    visibility: Visibility)

  // ---------------------------------------------------------------------------------------
  // Structural comparison, written field by field as the differ does it.
  // ---------------------------------------------------------------------------------------

  /** Two expression trees are equal when they have the same shape and the same leaves. */
  function IsExprEqual(a: Expr, b: Expr): bool
    decreases a
  {
    match (a, b)
    case (ColumnRef(x), ColumnRef(y)) => x == y
    case (IntValue(x), IntValue(y)) => x == y
    case (StringValue(x), StringValue(y)) => x == y
    case (Binary(op1, l1, r1), Binary(op2, l2, r2)) =>
      op1 == op2 && IsExprEqual(l1, l2) && IsExprEqual(r1, r2)
    case (FuncCall(f1, xs), FuncCall(f2, ys)) =>
      f1 == f2 && |xs| == |ys| && forall i :: 0 <= i < |xs| ==> IsExprEqual(xs[i], ys[i])
    case _ => false
  }

  function IsOptionalExprEqual(a: Option<Expr>, b: Option<Expr>): bool
  {
    match (a, b)
    case (None, None) => true
    case (Some(x), Some(y)) => IsExprEqual(x, y)
    case _ => false
  }

  /** Key lists are equal when they have the same length and agree position by position. */
  function IsKeyPartEqual(oldParts: seq<KeyPart>, newParts: seq<KeyPart>): bool
  {
    && |oldParts| == |newParts|
    && forall i :: 0 <= i < |oldParts| ==>
         oldParts[i].column == newParts[i].column && IsOptionalExprEqual(oldParts[i].expr, newParts[i].expr)
  }

  /**
   * Option blocks are equal when both are absent, or both present with the same key block
   * size, method, parser, comment and visibility.
   */
  function IsIndexOptionEqual(oldOption: Option<IndexOption>, newOption: Option<IndexOption>): bool
  {
    match (oldOption, newOption)
    case (None, None) => true
    case (Some(o), Some(n)) =>
      && o.keyBlockSize == n.keyBlockSize
      && o.indexType == n.indexType
      && o.parserName == n.parserName
      && o.comment == n.comment
      && o.visibility == n.visibility
    case _ => false
  }

  // ---------------------------------------------------------------------------------------
  // The comparisons agree with equality of the parsed trees.
  // ---------------------------------------------------------------------------------------

  lemma {:induction false} ExprEqualIsIdentity(a: Expr, b: Expr)
    ensures IsExprEqual(a, b) <==> a == b
    decreases a
  {
    match (a, b)
    case (Binary(op1, l1, r1), Binary(op2, l2, r2)) =>
      ExprEqualIsIdentity(l1, l2);
      ExprEqualIsIdentity(r1, r2);
    case (FuncCall(f1, xs), FuncCall(f2, ys)) =>
      forall i | 0 <= i < |xs| && i < |ys|
        ensures IsExprEqual(xs[i], ys[i]) <==> xs[i] == ys[i]
      {
        ExprEqualIsIdentity(xs[i], ys[i]);
      }
      if IsExprEqual(a, b) {
        assert xs == ys;
      }
    case _ =>
  }

  lemma OptionalExprEqualIsIdentity(a: Option<Expr>, b: Option<Expr>)
    ensures IsOptionalExprEqual(a, b) <==> a == b
  {
    if a.Some? && b.Some? {
      ExprEqualIsIdentity(a.value, b.value);
    }
  }

  /** Key lists compare equal exactly when they are the same list of parsed key parts. */
  lemma KeyPartEqualIsIdentity(oldParts: seq<KeyPart>, newParts: seq<KeyPart>)
    ensures IsKeyPartEqual(oldParts, newParts) <==> oldParts == newParts
  {
    forall i | 0 <= i < |oldParts| && i < |newParts|
      ensures IsOptionalExprEqual(oldParts[i].expr, newParts[i].expr) <==> oldParts[i].expr == newParts[i].expr
    {
      OptionalExprEqualIsIdentity(oldParts[i].expr, newParts[i].expr);
    }
    if IsKeyPartEqual(oldParts, newParts) {
      assert forall i :: 0 <= i < |oldParts| ==> oldParts[i] == newParts[i];
    }
  }

  /**
   * Absent equals absent; absent never equals present; two present blocks are equal exactly
   * when no field differs.
   */
  lemma IndexOptionEqualCases(oldOption: Option<IndexOption>, newOption: Option<IndexOption>)
    ensures oldOption.None? && newOption.None? ==> IsIndexOptionEqual(oldOption, newOption)
    ensures oldOption.None? != newOption.None? ==> !IsIndexOptionEqual(oldOption, newOption)
    ensures oldOption.Some? && newOption.Some? ==>
      (IsIndexOptionEqual(oldOption, newOption) <==>
        && oldOption.value.keyBlockSize == newOption.value.keyBlockSize
        && oldOption.value.indexType == newOption.value.indexType
        && oldOption.value.parserName == newOption.value.parserName
        && oldOption.value.comment == newOption.value.comment
        && oldOption.value.visibility == newOption.value.visibility)
    ensures IsIndexOptionEqual(oldOption, newOption) <==> oldOption == newOption
  {
  }
}
