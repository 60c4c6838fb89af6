/**
  The `equals_na` rule (`src/lints/equals_na/equals_na.rs`): a comparison
  `x == NA` or `x != NA` (either side) is always `NA` in R; the fix is
  `is.na(x)` or `!is.na(x)`.
*/
module EqualsNa {
  import opened Wrappers
  import opened Unicode
  import opened Syntax
  import opened Messages

  /** The six spellings of a missing value. */
  const NA_VALUES: seq<string> := ["NA", "NA_character_", "NA_integer_", "NA_real_", "NA_logical_", "NA_complex_"]

  predicate IsNa(s: string)
  {
    s in NA_VALUES
  }

  /** The trimmed full text of an operand, as `to_string().trim()` gives it. */
  function OperandText(n: Node): string
  {
    Trim(n.text)
  }

  /** The operands and operator are present, the operator is `==` or `!=`, and exactly one side is `NA`. */
  predicate Flags(f: BinaryFields)
  {
    && f.left.Some? && f.operator.Some? && f.right.Some?
    && (f.operator.value.kind == Equal2 || f.operator.value.kind == NotEqual)
    && IsNa(OperandText(f.left.value)) != IsNa(OperandText(f.right.value))
  }

  /** The side compared with `NA`. */
  function Compared(f: BinaryFields): string
    requires Flags(f)
  {
    if IsNa(OperandText(f.left.value)) then OperandText(f.right.value) else OperandText(f.left.value)
  }

  /** `EqualsNa::check` at a node; `findRowCol` stands for `find_row_col`. */
  function Check(n: Node, newLines: seq<nat>, file: string, findRowCol: (Node, seq<nat>) -> Location)
    : (r: Result<seq<LintDiagnostic>, string>)
    ensures r.Err? <==> n.kind == RBinaryExpression && !(AsBinaryFields(n).left.Some? && AsBinaryFields(n).operator.Some? && AsBinaryFields(n).right.Some?)
    ensures r.Ok? ==> |r.value| <= 1
    ensures r.Ok? && |r.value| == 1 <==> n.kind == RBinaryExpression && Flags(AsBinaryFields(n))
    ensures r.Ok? && |r.value| == 1 ==>
              var d, f := r.value[0], AsBinaryFields(n);
              && d.rule == EqualsNaViolation
              && d.filename == file && d.location == findRowCol(n, newLines)
              && d.fix.start == n.range.start && d.fix.end == n.range.end
              && (f.operator.value.kind == Equal2 ==> d.fix.content == "is.na(" + Compared(f) + ")")
              && (f.operator.value.kind == NotEqual ==> d.fix.content == "!is.na(" + Compared(f) + ")")
  {
    if n.kind != RBinaryExpression then Ok([])
    else
      var f := AsBinaryFields(n);
      if f.left.None? then Err("left")
      else if f.operator.None? then Err("operator")
      else if f.right.None? then Err("right")
      else if f.operator.value.kind != Equal2 && f.operator.value.kind != NotEqual then Ok([])
      else
        var leftIsNa := IsNa(OperandText(f.left.value));
        var rightIsNa := IsNa(OperandText(f.right.value));
        if (leftIsNa && rightIsNa) || (!leftIsNa && !rightIsNa) then Ok([])
        else
          var replacement := if leftIsNa then OperandText(f.right.value) else OperandText(f.left.value);
          var content := if f.operator.value.kind == Equal2 then "is.na(" + replacement + ")"
                         else "!is.na(" + replacement + ")";
          Ok([LintDiagnostic(EqualsNaViolation, file, findRowCol(n, newLines),
                             Fix(content, n.range.start, n.range.end))])
  }

  /** The node with its two operands exchanged. */
  function Swapped(n: Node): Node
    requires |n.slots| == 3
  {
    n.(slots := [n.slots[2], n.slots[1], n.slots[0]])
  }

  /** Which side `NA` is written on does not matter: `NA == x` and `x == NA` get the same fix. */
  lemma SideDoesNotMatter(n: Node, newLines: seq<nat>, file: string, findRowCol: (Node, seq<nat>) -> Location)
    requires |n.slots| == 3
    ensures Check(Swapped(n), newLines, file, findRowCol).Ok? ==> Check(n, newLines, file, findRowCol).Ok?
    ensures var r, s := Check(n, newLines, file, findRowCol), Check(Swapped(n), newLines, file, findRowCol);
            r.Ok? && s.Ok? ==>
              && (|r.value| == 1 <==> |s.value| == 1)
              && (|r.value| == 1 ==> r.value[0].fix == s.value[0].fix && r.value[0].rule == s.value[0].rule)
  {
  }

  // ----- Examples -------------------------------------------------------------

  /** A leaf whose text is `s`. */
  function Leaf(kind: Kind, s: string, start: nat): Node
  {
    Node(kind, s, s, TextRange(start, start + |s|), [])
  }

  /** The comparison `left op right` over two leaves. */
  function Comparison(left: Node, op: Token, right: Node): Node
  {
    Node(RBinaryExpression, left.text + " " + op.trimmed + " " + right.text,
         left.trimmed + " " + op.trimmed + " " + right.trimmed, TextRange(left.range.start, right.range.end), [Child(left), Tok(op), Child(right)])
  }

  /**
    A comparison of an operand that is not `NA` with one that is, in either
    order, is fixed to `is.na(operand)` for `==` and to `!is.na(operand)`
    for `!=`, over the whole comparison.
  */
  lemma ComparisonWithNa(other: Node, na: Node, op: Token, naFirst: bool,
                         newLines: seq<nat>, file: string, findRowCol: (Node, seq<nat>) -> Location)
    requires !IsNa(OperandText(other)) && IsNa(OperandText(na))
    requires op.kind == Equal2 || op.kind == NotEqual
    ensures var n := if naFirst then Comparison(na, op, other) else Comparison(other, op, na);
            var r := Check(n, newLines, file, findRowCol);
            && r.Ok? && |r.value| == 1 && r.value[0].rule == EqualsNaViolation
            && r.value[0].fix.start == n.range.start && r.value[0].fix.end == n.range.end
            && (op.kind == Equal2 ==> r.value[0].fix.content == "is.na(" + OperandText(other) + ")")
            && (op.kind == NotEqual ==> r.value[0].fix.content == "!is.na(" + OperandText(other) + ")")
  {
    var n := if naFirst then Comparison(na, op, other) else Comparison(other, op, na);
    var f := AsBinaryFields(n);
    assert f == if naFirst then BinaryFields(Some(na), Some(op), Some(other)) else BinaryFields(Some(other), Some(op), Some(na));
    assert Flags(f);
    assert Compared(f) == OperandText(other);
  }

  /** An operand written `x` is not a missing value. */
  lemma XIsNotNa(n: Node, x: string)
    requires x == "x" && n.text == x
    ensures OperandText(n) == x && !IsNa(OperandText(n))
  {
    assert !IsWhitespace(x[0]);
    assert Trim(x) == x;
  }

  /** An operand written `NA` is a missing value. */
  lemma NaIsNa(n: Node, na: string)
    requires na == "NA" && n.text == na
    ensures OperandText(n) == na && IsNa(OperandText(n))
  {
    assert !IsWhitespace(na[0]) && !IsWhitespace(na[1]);
    assert Trim(na) == na;
    assert NA_VALUES[0] == na;
  }

  /** `x == NA` is fixed to `is.na(x)` over the whole comparison. */
  lemma EqualsNaFixed(x: Node, na: Node, eq: Token, newLines: seq<nat>, file: string, findRowCol: (Node, seq<nat>) -> Location)
    requires x.text == "x" && na.text == "NA" && eq == Token(Equal2, "==")
    ensures var n := Comparison(x, eq, na);
            var r := Check(n, newLines, file, findRowCol);
            r.Ok? && |r.value| == 1 && r.value[0].fix == Fix("is.na(x)", n.range.start, n.range.end)
  {
    XIsNotNa(x, x.text);
    NaIsNa(na, na.text);
    ComparisonWithNa(x, na, eq, false, newLines, file, findRowCol);
    FixTexts(OperandText(x));
  }

  /** `NA != x` is fixed to `!is.na(x)`. */
  lemma NotEqualsNaFixed(x: Node, na: Node, ne: Token, newLines: seq<nat>, file: string, findRowCol: (Node, seq<nat>) -> Location)
    requires x.text == "x" && na.text == "NA" && ne == Token(NotEqual, "!=")
    ensures var n := Comparison(na, ne, x);
            var r := Check(n, newLines, file, findRowCol);
            r.Ok? && |r.value| == 1 && r.value[0].fix == Fix("!is.na(x)", n.range.start, n.range.end)
  {
    XIsNotNa(x, x.text);
    NaIsNa(na, na.text);
    ComparisonWithNa(x, na, ne, true, newLines, file, findRowCol);
    FixTexts(OperandText(x));
  }

  /** The two fix texts for the operand `x`. */
  lemma FixTexts(s: string)
    requires s == "x"
    ensures "is.na(" + s + ")" == "is.na(x)" && "!is.na(" + s + ")" == "!is.na(x)"
  {
  }

  /** Two missing values compared with each other are left alone. */
  lemma BothNaLeftAlone(left: Node, right: Node, op: Token, newLines: seq<nat>, file: string, findRowCol: (Node, seq<nat>) -> Location)
    requires IsNa(OperandText(left)) && IsNa(OperandText(right))
    ensures Check(Comparison(left, op, right), newLines, file, findRowCol) == Ok([])
  {
    var n := Comparison(left, op, right);
    assert AsBinaryFields(n) == BinaryFields(Some(left), Some(op), Some(right));
    NotFlaggedLeftAlone(n, newLines, file, findRowCol);
  }

  /** A binary expression with all its fields that is not flagged gives no diagnostic and no error. */
  lemma NotFlaggedLeftAlone(n: Node, newLines: seq<nat>, file: string, findRowCol: (Node, seq<nat>) -> Location)
    requires n.kind == RBinaryExpression
    requires AsBinaryFields(n).left.Some? && AsBinaryFields(n).operator.Some? && AsBinaryFields(n).right.Some?
    requires !Flags(AsBinaryFields(n))
    ensures Check(n, newLines, file, findRowCol) == Ok([])
  {
    var r := Check(n, newLines, file, findRowCol);
    assert r.Ok? && |r.value| <= 1 && |r.value| != 1;
  }

  /** `NA == NA` is left alone. */
  lemma NaEqualsNaLeftAlone(left: Node, right: Node, eq: Token, newLines: seq<nat>, file: string, findRowCol: (Node, seq<nat>) -> Location)
    requires left.text == "NA" && right.text == "NA" && eq == Token(Equal2, "==")
    ensures Check(Comparison(left, eq, right), newLines, file, findRowCol) == Ok([])
  {
    NaIsNa(left, left.text);
    NaIsNa(right, right.text);
    BothNaLeftAlone(left, right, eq, newLines, file, findRowCol);
  }

  /** A comparison with its right operand missing is an error. */
  lemma MissingOperandIsError(x: Node, op: Token, newLines: seq<nat>, file: string, findRowCol: (Node, seq<nat>) -> Location)
    ensures Check(Node(RBinaryExpression, x.text, x.trimmed, x.range, [Child(x), Tok(op), Missing]), newLines, file, findRowCol) == Err("right")
  {
  }
}
