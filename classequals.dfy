/**
  The `class_equals` rule (`src/lints/class_equals.rs`): comparing
  `class(x)` with a string by `==`, `!=` or `%in%` misses subclasses; the
  fix is `inherits(x, "name")`, negated for `!=`. This file belongs to the
  engine version whose rules return `Message` values; this rule's message
  holds a file name, a location and a fix. Whether the node sits inside
  square brackets and the arguments of a call (`get_args`) are computed by
  helpers that are not part of this model and come in as parameters.
*/
module ClassEquals {
  import opened Wrappers
  import opened Syntax
  import opened Messages

  /** `Message::ClassEquals`. */
  datatype ClassEqualsMessage = ClassEqualsMessage(filename: string, location: Location, fix: Fix)

  /** A side written `class(...)`: its first child reads `class`. */
  predicate IsClassCall(side: Node)
  {
    FirstChild(side).Some? && FirstChild(side).value.trimmed == "class"
  }

  predicate IsString(side: Node)
  {
    side.kind == RStringValue
  }

  /** The operator is one the rule considers: `==`, `!=`, or one written `%in%`. */
  predicate Considered(op: Token)
  {
    op.kind == Equal2 || op.kind == NotEqual || op.trimmed == "%in%"
  }

  /** The comparison keeps its sense: `==` and `%in%` become `inherits`. */
  predicate Positive(op: Token)
  {
    op.kind == Equal2 || op.trimmed == "%in%"
  }

  /** `format!("{}({}, {})", fun, args, class_name)`. */
  function Call(fun: string, args: string, className: string): string
  {
    fun + "(" + args + ", " + className + ")"
  }

  /** The two sides: the first two child nodes. */
  function Lhs(n: Node): Node
    requires |Children(n)| >= 2
  {
    Children(n)[0]
  }

  function Rhs(n: Node): Node
    requires |Children(n)| >= 2
  {
    Children(n)[1]
  }

  /** Some side is `class(...)` and some side is a string. */
  predicate Flags(n: Node)
    requires |Children(n)| >= 2
  {
    (IsClassCall(Lhs(n)) || IsClassCall(Rhs(n))) && (IsString(Lhs(n)) || IsString(Rhs(n)))
  }

  /** The `class(...)` side, the left one when both are. */
  function ClassSide(n: Node): Node
    requires |Children(n)| >= 2
  {
    if IsClassCall(Lhs(n)) then Lhs(n) else Rhs(n)
  }

  /** The side opposite the `class(...)` side. */
  function OtherSide(n: Node): Node
    requires |Children(n)| >= 2
  {
    if IsClassCall(Lhs(n)) then Rhs(n) else Lhs(n)
  }

  /**
    What the rule needs to run without a panic on a binary node outside
    square brackets: an operator; for a considered operator, two children;
    for a flagged comparison, arguments on the `class(...)` side.
  */
  predicate Defined(n: Node, inBrackets: bool, getArgs: Node -> Option<Node>)
  {
    n.kind == RBinaryExpression && !inBrackets ==>
      && AsBinaryFields(n).operator.Some?
      && (Considered(AsBinaryFields(n).operator.value) ==>
            && |Children(n)| >= 2
            && (Flags(n) ==> getArgs(ClassSide(n)).Some?))
  }

  /** `ClassEquals::check`; `findRowCol` stands for `find_row_col`. */
  function Check(n: Node, inBrackets: bool, getArgs: Node -> Option<Node>,
                 newLines: seq<nat>, file: string, findRowCol: (Node, seq<nat>) -> Location)
    : (r: seq<ClassEqualsMessage>)
    requires Defined(n, inBrackets, getArgs)
    ensures |r| <= 1
    ensures |r| == 1 <==> && n.kind == RBinaryExpression && !inBrackets
                          && Considered(AsBinaryFields(n).operator.value) && Flags(n)
    ensures |r| == 1 ==>
              var op, args, cls := AsBinaryFields(n).operator.value, getArgs(ClassSide(n)).value.trimmed, OtherSide(n).trimmed;
              && r[0].filename == file && r[0].location == findRowCol(n, newLines)
              && r[0].fix.start == n.range.start && r[0].fix.end == n.range.end
              && r[0].fix.content == Call(if Positive(op) then "inherits" else "!inherits", args, cls)
  {
    if n.kind != RBinaryExpression || inBrackets then []
    else
      var operator := AsBinaryFields(n).operator.value;
      if operator.kind != Equal2 && operator.kind != NotEqual && operator.trimmed != "%in%" then []
      else
        var lhs, rhs := Children(n)[0], Children(n)[1];
        var leftIsClass := match FirstChild(lhs) case Some(x) => x.trimmed == "class" case None => false;
        var rightIsClass := match FirstChild(rhs) case Some(x) => x.trimmed == "class" case None => false;
        var leftIsString := lhs.kind == RStringValue;
        var rightIsString := rhs.kind == RStringValue;
        if (!leftIsClass && !rightIsClass) || (!leftIsString && !rightIsString) then []
        else
          var funName := if operator.kind == Equal2 || operator.trimmed == "%in%" then "inherits" else "!inherits";
          var funContent := if leftIsClass then getArgs(lhs) else getArgs(rhs);
          var className := if leftIsClass then rhs.trimmed else lhs.trimmed;
          [ClassEqualsMessage(file, findRowCol(n, newLines),
                              Fix(Call(funName, funContent.value.trimmed, className), n.range.start, n.range.end))]
  }

  /**
    When exactly one side is `class(...)`, which side it is written on does
    not matter: `class(x) == "a"` and `"a" == class(x)` get the same fix.
  */
  lemma SideDoesNotMatter(n: Node, m: Node, inBrackets: bool, getArgs: Node -> Option<Node>,
                          newLines: seq<nat>, file: string, findRowCol: (Node, seq<nat>) -> Location)
    requires n.kind == m.kind && n.range == m.range && AsBinaryFields(n).operator == AsBinaryFields(m).operator
    requires |Children(n)| >= 2 && |Children(m)| >= 2
    requires Lhs(m) == Rhs(n) && Rhs(m) == Lhs(n)
    requires IsClassCall(Lhs(n)) != IsClassCall(Rhs(n))
    requires findRowCol(n, newLines) == findRowCol(m, newLines)
    requires Defined(n, inBrackets, getArgs) && Defined(m, inBrackets, getArgs)
    ensures Check(n, inBrackets, getArgs, newLines, file, findRowCol) == Check(m, inBrackets, getArgs, newLines, file, findRowCol)
  {
  }

  /** When both sides are `class(...)`, the arguments come from the left one. */
  lemma LeftPreferred(n: Node, inBrackets: bool, getArgs: Node -> Option<Node>,
                      newLines: seq<nat>, file: string, findRowCol: (Node, seq<nat>) -> Location)
    requires Defined(n, inBrackets, getArgs)
    requires |Check(n, inBrackets, getArgs, newLines, file, findRowCol)| == 1
    requires IsClassCall(Lhs(n))
    ensures var op, r := AsBinaryFields(n).operator.value, Check(n, inBrackets, getArgs, newLines, file, findRowCol);
            Positive(op) ==> r[0].fix.content == Call("inherits", getArgs(Lhs(n)).value.trimmed, Rhs(n).trimmed)
  {
  }

  /** A comparison inside square brackets is never flagged. */
  lemma InBracketsNeverFlagged(n: Node, getArgs: Node -> Option<Node>,
                               newLines: seq<nat>, file: string, findRowCol: (Node, seq<nat>) -> Location)
    ensures Check(n, true, getArgs, newLines, file, findRowCol) == []
  {
  }

  // ----- An example ---------------------------------------------------------------

  /** The fix text for `class(x) == "lm"`. */
  lemma InheritsText(args: string, cls: string)
    requires args == "x" && cls == "\"lm\""
    ensures Call("inherits", args, cls) == "inherits(x, \"lm\")"
  {
  }

  /**
    `class(x) == "lm"`, where `class(x)` is a call whose first child is the
    identifier `class` and whose arguments read `x`, is fixed to
    `inherits(x, "lm")` over the whole comparison.
  */
  lemma ClassOfXEqualsLm(classCall: Node, lm: Node, eq: Token, getArgs: Node -> Option<Node>,
                         newLines: seq<nat>, file: string, findRowCol: (Node, seq<nat>) -> Location)
    requires FirstChild(classCall).Some? && FirstChild(classCall).value.trimmed == "class"
    requires getArgs(classCall).Some? && getArgs(classCall).value.trimmed == "x"
    requires lm.kind == RStringValue && lm.trimmed == "\"lm\"" && eq.kind == Equal2
    ensures var n := Node(RBinaryExpression, [], [], TextRange(0, 16), [Child(classCall), Tok(eq), Child(lm)]);
            && Defined(n, false, getArgs)
            && Check(n, false, getArgs, newLines, file, findRowCol)
               == [ClassEqualsMessage(file, findRowCol(n, newLines), Fix("inherits(x, \"lm\")", 0, 16))]
  {
    var n := Node(RBinaryExpression, [], [], TextRange(0, 16), [Child(classCall), Tok(eq), Child(lm)]);
    ChildNodesBinary(classCall, eq, lm);
    assert AsBinaryFields(n).operator == Some(eq);
    InheritsText(getArgs(classCall).value.trimmed, lm.trimmed);
  }
}
