/**
  The `true_false_symbol` rule (`src/lints/true_false_symbol/true_false_symbol.rs`):
  the identifiers `T` and `F` can be rebound in R, so they are flagged and
  fixed to `TRUE` and `FALSE`, except as a function name (`T()`), as an
  element name (`df$T`) and as an operand of a formula (`y ~ T`).
*/
module TrueFalseSymbol {
  import opened Wrappers
  import opened Syntax
  import opened Messages

  /** An identifier whose trimmed text is `T` or `F`. */
  predicate IsSymbol(n: Node)
  {
    n.kind == RIdentifier && (n.trimmed == "T" || n.trimmed == "F")
  }

  /**
    What the rule needs to look at a flagged symbol without a panic: the
    symbol has a parent, and a binary parent has its operator.
  */
  predicate Defined(c: Cursor)
  {
    IsSymbol(c.node) ==>
      && Parent(c).Some?
      && (Parent(c).value.kind == RBinaryExpression ==> AsBinaryFields(Parent(c).value).operator.Some?)
  }

  /** A parent under which `T` and `F` are allowed: a call, an extraction, or a formula. */
  predicate Exempt(parent: Node)
    requires parent.kind == RBinaryExpression ==> AsBinaryFields(parent).operator.Some?
  {
    || parent.kind == RCall
    || parent.kind == RExtractExpression
    || (parent.kind == RBinaryExpression && AsBinaryFields(parent).operator.value.kind == Tilde)
  }

  /** `TrueFalseSymbol::check` at the cursor's node; `findRowCol` stands for `find_row_col`. */
  function Check(c: Cursor, newLines: seq<nat>, file: string, findRowCol: (Node, seq<nat>) -> Location)
    : (r: seq<LintDiagnostic>)
    requires Defined(c)
    ensures |r| <= 1
    ensures |r| == 1 <==> IsSymbol(c.node) && !Exempt(Parent(c).value)
    ensures |r| == 1 ==>
              && r[0].rule == TrueFalseSymbolViolation
              && r[0].filename == file && r[0].location == findRowCol(c.node, newLines)
              && r[0].fix.start == c.node.range.start && r[0].fix.end == c.node.range.end
              && (c.node.trimmed == "T" ==> r[0].fix.content == "TRUE")
              && (c.node.trimmed == "F" ==> r[0].fix.content == "FALSE")
  {
    var n := c.node;
    if n.kind == RIdentifier && (n.trimmed == "T" || n.trimmed == "F") then
      var parent := Parent(c).value;
      var isFunctionName := parent.kind == RCall;
      var isElementName := parent.kind == RExtractExpression;
      var isInFormula := parent.kind == RBinaryExpression && AsBinaryFields(parent).operator.value.kind == Tilde;
      if isFunctionName || isElementName || isInFormula then []
      else
        [LintDiagnostic(TrueFalseSymbolViolation, file, findRowCol(n, newLines),
                        Fix(if n.trimmed == "T" then "TRUE" else "FALSE", n.range.start, n.range.end))]
    else []
  }

  /** The cursor's node with its trimmed text replaced. */
  function Rewritten(c: Cursor, text: string): Cursor
  {
    c.(node := c.node.(trimmed := text))
  }

  /** Applying the fix settles the matter: the spelled-out constant is not flagged again. */
  lemma FixIsFinal(c: Cursor, newLines: seq<nat>, file: string, findRowCol: (Node, seq<nat>) -> Location)
    requires Defined(c) && |Check(c, newLines, file, findRowCol)| == 1
    ensures Defined(Rewritten(c, Check(c, newLines, file, findRowCol)[0].fix.content))
    ensures Check(Rewritten(c, Check(c, newLines, file, findRowCol)[0].fix.content), newLines, file, findRowCol) == []
  {
    var content := Check(c, newLines, file, findRowCol)[0].fix.content;
    assert content == "TRUE" || content == "FALSE";
    assert content[1] == 'R' || content[1] == 'A';
  }

  /** Outside the three exempt places, every `T` and `F` is flagged. */
  lemma FlaggedUnlessExempt(c: Cursor, newLines: seq<nat>, file: string, findRowCol: (Node, seq<nat>) -> Location)
    requires Defined(c) && IsSymbol(c.node)
    requires Parent(c).value.kind != RCall && Parent(c).value.kind != RExtractExpression
    requires Parent(c).value.kind != RBinaryExpression
    ensures |Check(c, newLines, file, findRowCol)| == 1
  {
  }

  // ----- The rule's test cases, on hand-built trees ----------------------------

  /** A symbol `T` in a tree built around it. */
  predicate IsT(t: Node)
  {
    t.kind == RIdentifier && t.trimmed == "T"
  }

  /** A program that is just `T` is flagged and fixed to `TRUE`. */
  lemma LoneT(t: Node, newLines: seq<nat>, file: string, findRowCol: (Node, seq<nat>) -> Location)
    requires IsT(t)
    ensures var list := Node(RExpressionList, t.text, t.trimmed, t.range, [Child(t)]);
            var root := Node(RRoot, t.text, t.trimmed, t.range, [Child(list)]);
            var c := ChildCursor(ChildCursor(RootCursor(root), 0), 0);
            && c.node == t && Defined(c)
            && var r := Check(c, newLines, file, findRowCol);
               |r| == 1 && r[0].fix == Fix("TRUE", t.range.start, t.range.end)
  {
    var list := Node(RExpressionList, t.text, t.trimmed, t.range, [Child(t)]);
    var root := Node(RRoot, t.text, t.trimmed, t.range, [Child(list)]);
    ChildNodesOne(list);
    ChildNodesOne(t);
  }

  /** In `sum(x, na.rm = T)` the `T` is an argument value and is flagged. */
  lemma ArgumentValueT(nameClause: Node, t: Node, newLines: seq<nat>, file: string, findRowCol: (Node, seq<nat>) -> Location)
    requires IsT(t) && nameClause.kind == RArgumentNameClause
    ensures var arg := Node(RArgument, [], [], t.range, [Child(nameClause), Child(t)]);
            Children(arg) == [nameClause, t] &&
            var c := ChildCursor(RootCursor(arg), 1);
            && c.node == t && Defined(c) && |Check(c, newLines, file, findRowCol)| == 1
  {
    var arg := Node(RArgument, [], [], t.range, [Child(nameClause), Child(t)]);
    ChildNodesTwo(nameClause, t);
  }

  /** In `T()` the `T` is a function name and is not flagged. */
  lemma CalledT(t: Node, args: Node, newLines: seq<nat>, file: string, findRowCol: (Node, seq<nat>) -> Location)
    requires IsT(t) && args.kind == RCallArguments
    ensures var call := Node(RCall, [], [], t.range, [Child(t), Child(args)]);
            Children(call) == [t, args] &&
            var c := ChildCursor(RootCursor(call), 0);
            && c.node == t && Defined(c) && Check(c, newLines, file, findRowCol) == []
  {
    var call := Node(RCall, [], [], t.range, [Child(t), Child(args)]);
    ChildNodesTwo(t, args);
  }

  /** In `mtcars$T` the `T` is an element name and is not flagged. */
  lemma ExtractedT(df: Node, dollar: Token, t: Node, newLines: seq<nat>, file: string, findRowCol: (Node, seq<nat>) -> Location)
    requires IsT(t)
    ensures var extract := Node(RExtractExpression, [], [], t.range, [Child(df), Tok(dollar), Child(t)]);
            Children(extract) == [df, t] &&
            var c := ChildCursor(RootCursor(extract), 1);
            && c.node == t && Defined(c) && Check(c, newLines, file, findRowCol) == []
  {
    var extract := Node(RExtractExpression, [], [], t.range, [Child(df), Tok(dollar), Child(t)]);
    ChildNodesBinary(df, dollar, t);
  }

  /** In `weight ~ T` the `T` is part of a formula and is not flagged. */
  lemma FormulaT(weight: Node, tilde: Token, t: Node, newLines: seq<nat>, file: string, findRowCol: (Node, seq<nat>) -> Location)
    requires IsT(t) && tilde.kind == Tilde
    ensures var formula := Node(RBinaryExpression, [], [], t.range, [Child(weight), Tok(tilde), Child(t)]);
            Children(formula) == [weight, t] &&
            var c := ChildCursor(RootCursor(formula), 1);
            && c.node == t && Defined(c) && Check(c, newLines, file, findRowCol) == []
  {
    var formula := Node(RBinaryExpression, [], [], t.range, [Child(weight), Tok(tilde), Child(t)]);
    ChildNodesBinary(weight, tilde, t);
    assert AsBinaryFields(formula).operator == Some(tilde);
  }

  /** In `DF$bool <- T` the `T` is an assigned value and is flagged. */
  lemma AssignedT(target: Node, arrow: Token, t: Node, newLines: seq<nat>, file: string, findRowCol: (Node, seq<nat>) -> Location)
    requires IsT(t) && arrow.kind != Tilde
    ensures var assignment := Node(RBinaryExpression, [], [], t.range, [Child(target), Tok(arrow), Child(t)]);
            Children(assignment) == [target, t] &&
            var c := ChildCursor(RootCursor(assignment), 1);
            && c.node == t && Defined(c) && |Check(c, newLines, file, findRowCol)| == 1
  {
    var assignment := Node(RBinaryExpression, [], [], t.range, [Child(target), Tok(arrow), Child(t)]);
    ChildNodesBinary(target, arrow, t);
    assert AsBinaryFields(assignment).operator == Some(arrow);
  }
}
