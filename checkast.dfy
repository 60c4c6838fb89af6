/**
  Rule selection and the tree walk that applies the selected linters
  (`src/check_ast.rs`). At every node it visits, `check_ast` applies every
  selected linter in rule order, and then goes on as the node's kind says:
  a container kind visits all its children; an identifier visits only its
  next sibling; any other node visits its children if it has any and its
  next sibling otherwise. The earlier sibling's visit of its next sibling
  comes on top of the parent's own loop over its children, so a sibling
  that follows an identifier or a leaf is visited more than once.
  `CheckAst` keeps that walk as written, and `GetChecks` calls it as the
  code does; `CheckTree` is the preorder walk that visits each node once.

  The linters themselves are a parameter: `check(linter, cursor, newLines,
  file)` is what `LintChecker::check` returns at that node.
*/
module CheckAst {
  import opened Wrappers
  import opened Syntax

  /** The linters `rule_name_to_lint_checker` can build. */
  datatype LintChecker = AnyIsNa | TrueFalseSymbol | AnyDuplicated | ClassEquals | EqualsNa

  /** `ALL_RULES` of `src/lints/mod.rs`. */
  const ALL_RULES: seq<string> := [
    "any_duplicated", "any_is_na", "class_equals", "duplicated_arguments",
    "equal_assignment", "equals_na", "true_false_symbol"]

  /** The name that selects each linter. */
  function RuleName(l: LintChecker): string
  {
    match l
    case AnyIsNa => "any_is_na"
    case TrueFalseSymbol => "T-F-symbols"
    case AnyDuplicated => "any_duplicated"
    case ClassEquals => "class_equals"
    case EqualsNa => "equals-na"
  }

  /** The names `rule_name_to_lint_checker` accepts; any other is unreachable there. */
  predicate KnownRule(name: string)
  {
    name == "any_is_na" || name == "T-F-symbols" || name == "any_duplicated"
      || name == "class_equals" || name == "equals-na"
  }

  /** `rule_name_to_lint_checker`: the linter whose name is given. */
  function RuleNameToLintChecker(name: string): (l: LintChecker)
    requires KnownRule(name)
    ensures RuleName(l) == name
  {
    if name == "any_is_na" then AnyIsNa
    else if name == "T-F-symbols" then TrueFalseSymbol
    else if name == "any_duplicated" then AnyDuplicated
    else if name == "class_equals" then ClassEquals
    else EqualsNa
  }

  /** Every linter is selected by exactly its own name. */
  lemma RuleNameRoundTrip(l: LintChecker)
    ensures KnownRule(RuleName(l)) && RuleNameToLintChecker(RuleName(l)) == l
  {
  }

  /** The last two names of `ALL_RULES`, and the two before them, are not accepted. */
  lemma AllRulesNotAccepted()
    ensures !KnownRule(ALL_RULES[3]) && !KnownRule(ALL_RULES[4])
    ensures !KnownRule(ALL_RULES[5]) && !KnownRule(ALL_RULES[6])
  {
    assert ALL_RULES[3][0] == 'd';
    assert ALL_RULES[4][5] == '_';
    assert ALL_RULES[5][6] == '_';
    assert ALL_RULES[6][1] == 'r';
  }

  predicate AllKnown(rules: seq<string>)
  {
    forall i :: 0 <= i < |rules| ==> KnownRule(rules[i])
  }

  /** The linters of the selected rules, in rule order (the `map` over `rules`). */
  function Linters(rules: seq<string>): (ls: seq<LintChecker>)
    requires AllKnown(rules)
    ensures |ls| == |rules|
  {
    if rules == [] then [] else [RuleNameToLintChecker(rules[0])] + Linters(rules[1..])
  }

  /** Linter `i` is the one rule `i` names. */
  lemma {:induction false} LintersSelectByName(rules: seq<string>, i: nat)
    requires AllKnown(rules) && i < |rules|
    ensures RuleName(Linters(rules)[i]) == rules[i]
  {
    if i > 0 {
      LintersSelectByName(rules[1..], i - 1);
    }
  }

  /** What stays fixed during one walk: the linters, the newline offsets, the file and the linters' logic. */
  datatype Ctx<D> = Ctx(
    linters: seq<LintChecker>,
    newLines: seq<nat>,
    file: string,
    check: (LintChecker, Cursor, seq<nat>, string) -> Result<seq<D>, string>)

  /** `extend` with a checker's result: the diagnostics it found; a failed check adds none. */
  function Found<D>(r: Result<seq<D>, string>): seq<D>
  {
    if r.Ok? then r.value else []
  }

  /** The diagnostics of the first `k` linters at the cursor. */
  function HereUpTo<D>(ctx: Ctx<D>, c: Cursor, k: nat): seq<D>
    requires k <= |ctx.linters|
  {
    if k == 0 then []
    else HereUpTo(ctx, c, k - 1) + Found(ctx.check(ctx.linters[k - 1], c, ctx.newLines, ctx.file))
  }

  /** The diagnostics of all selected linters at the cursor, in rule order. */
  function Here<D>(ctx: Ctx<D>, c: Cursor): seq<D>
  {
    HereUpTo(ctx, c, |ctx.linters|)
  }

  // ----- The walk as written ------------------------------------------------------

  /**
    `check_ast` goes down into the children of a container, and of any node
    but an identifier that has a first child; otherwise it goes on to the
    next sibling.
  */
  predicate VisitsChildren(n: Node)
  {
    IsContainer(n.kind) || (n.kind != RIdentifier && FirstChild(n).Some?)
  }

  /** What `check_ast` returns for the node under the cursor. */
  function AsWritten<D>(ctx: Ctx<D>, c: Cursor): seq<D>
    requires c.Valid()
    decreases Measure(c), 1
  {
    ChildrenSmaller(c.node);
    MeasureAtLeastSize(c);
    var here := Here(ctx, c);
    if VisitsChildren(c.node) then here + AsWrittenChildren(ctx, c, |Children(c.node)|)
    else if NextSibling(c).Some? then
      NextSiblingDecreases(c);
      here + AsWritten(ctx, NextSibling(c).value)
    else here
  }

  /** What `check_ast` returns for the first `k` children of the node under the cursor. */
  function AsWrittenChildren<D>(ctx: Ctx<D>, c: Cursor, k: nat): seq<D>
    requires c.Valid() && k <= |Children(c.node)|
    decreases SizeSeq(Children(c.node)), 2, k
  {
    if k == 0 then []
    else
      ChildCursorDecreases(c, k - 1);
      AsWrittenChildren(ctx, c, k - 1) + AsWritten(ctx, ChildCursor(c, k - 1))
  }

  /** The loop over the linters at one node: each linter's diagnostics, in order. */
  method ApplyLinters<D>(ctx: Ctx<D>, c: Cursor) returns (diagnostics: seq<D>)
    ensures diagnostics == Here(ctx, c)
  {
    diagnostics := [];
    for i := 0 to |ctx.linters|
      invariant diagnostics == HereUpTo(ctx, c, i)
    {
      diagnostics := diagnostics + Found(ctx.check(ctx.linters[i], c, ctx.newLines, ctx.file));
    }
  }

  /** `check_ast`, as written: the linters are built from the rule names at every node. */
  method CheckAst<D>(
    c: Cursor, newLines: seq<nat>, file: string, rules: seq<string>,
    check: (LintChecker, Cursor, seq<nat>, string) -> Result<seq<D>, string>)
    returns (diagnostics: seq<D>)
    requires AllKnown(rules) && c.Valid()
    ensures diagnostics == AsWritten(Ctx(Linters(rules), newLines, file, check), c)
    decreases Measure(c), 1
  {
    var linters := Linters(rules);
    diagnostics := ApplyLinters(Ctx(linters, newLines, file, check), c);
    ChildrenSmaller(c.node);
    MeasureAtLeastSize(c);
    if VisitsChildren(c.node) {
      var found := CheckChildren(c, newLines, file, rules, check);
      diagnostics := diagnostics + found;
    } else {
      var ns := NextSibling(c);
      if ns.Some? {
        NextSiblingDecreases(c);
        var found := CheckAst(ns.value, newLines, file, rules, check);
        diagnostics := diagnostics + found;
      }
    }
  }

  /** The loop of `check_ast` over the children of the node under the cursor. */
  method CheckChildren<D>(
    c: Cursor, newLines: seq<nat>, file: string, rules: seq<string>,
    check: (LintChecker, Cursor, seq<nat>, string) -> Result<seq<D>, string>)
    returns (diagnostics: seq<D>)
    requires AllKnown(rules) && c.Valid()
    ensures diagnostics == AsWrittenChildren(Ctx(Linters(rules), newLines, file, check), c, |Children(c.node)|)
    decreases SizeSeq(Children(c.node)), 2
  {
    ghost var ctx := Ctx(Linters(rules), newLines, file, check);
    var children := Children(c.node);
    diagnostics := [];
    for i := 0 to |children|
      invariant diagnostics == AsWrittenChildren(ctx, c, i)
    {
      ChildCursorDecreases(c, i);
      var found := CheckAst(ChildCursor(c, i), newLines, file, rules, check);
      diagnostics := diagnostics + found;
    }
  }

  // ----- The preorder walk -------------------------------------------------------

  /** Every node of the tree under the cursor visited once, in preorder. */
  function Checks<D>(ctx: Ctx<D>, c: Cursor): seq<D>
    decreases Size(c.node), 1
  {
    Here(ctx, c) + ChecksChildren(ctx, c, |Children(c.node)|)
  }

  function ChecksChildren<D>(ctx: Ctx<D>, c: Cursor, k: nat): seq<D>
    requires k <= |Children(c.node)|
    decreases Size(c.node), 0, k
  {
    if k == 0 then []
    else
      ChildSmaller(c.node, k - 1);
      ChecksChildren(ctx, c, k - 1) + Checks(ctx, ChildCursor(c, k - 1))
  }

  /** The walk that applies the linters once at every node, parents before children. */
  method CheckTree<D>(
    c: Cursor, newLines: seq<nat>, file: string, rules: seq<string>,
    check: (LintChecker, Cursor, seq<nat>, string) -> Result<seq<D>, string>)
    returns (diagnostics: seq<D>)
    requires AllKnown(rules)
    ensures diagnostics == Checks(Ctx(Linters(rules), newLines, file, check), c)
    decreases Size(c.node), 1
  {
    var linters := Linters(rules);
    diagnostics := ApplyLinters(Ctx(linters, newLines, file, check), c);
    var found := CheckTreeChildren(c, newLines, file, rules, check);
    diagnostics := diagnostics + found;
  }

  /** The loop of the preorder walk over the children of the node under the cursor. */
  method CheckTreeChildren<D>(
    c: Cursor, newLines: seq<nat>, file: string, rules: seq<string>,
    check: (LintChecker, Cursor, seq<nat>, string) -> Result<seq<D>, string>)
    returns (diagnostics: seq<D>)
    requires AllKnown(rules)
    ensures diagnostics == ChecksChildren(Ctx(Linters(rules), newLines, file, check), c, |Children(c.node)|)
    decreases Size(c.node), 0
  {
    ghost var ctx := Ctx(Linters(rules), newLines, file, check);
    var children := Children(c.node);
    diagnostics := [];
    for i := 0 to |children|
      invariant diagnostics == ChecksChildren(ctx, c, i)
    {
      ChildSmaller(c.node, i);
      var found := CheckTree(ChildCursor(c, i), newLines, file, rules, check);
      diagnostics := diagnostics + found;
    }
  }

  /**
    `get_checks`: the semantic diagnostics (none are computed) followed by
    the diagnostics of `check_ast` from the root, as written; a failure to
    find the newlines is the result.
  */
  method GetChecks<D>(
    root: Node, newLines: Result<seq<nat>, string>, file: string, rules: seq<string>,
    check: (LintChecker, Cursor, seq<nat>, string) -> Result<seq<D>, string>)
    returns (r: Result<seq<D>, string>)
    requires AllKnown(rules)
    ensures newLines.Err? ==> r == Err(newLines.error)
    ensures newLines.Ok? ==> r == Ok(AsWritten(Ctx(Linters(rules), newLines.value, file, check), RootCursor(root)))
  {
    if newLines.Err? {
      return Err(newLines.error);
    }
    var diagnosticsSemantic: seq<D> := [];
    var diagnosticsLints := CheckAst(RootCursor(root), newLines.value, file, rules, check);
    diagnosticsSemantic := diagnosticsSemantic + diagnosticsLints;
    assert diagnosticsSemantic == diagnosticsLints;
    return Ok(diagnosticsSemantic);
  }

  // ----- Properties ---------------------------------------------------------------

  /** With no rule selected, neither walk reports anything. */
  lemma {:induction false} NoRulesNoDiagnostics<D>(ctx: Ctx<D>, c: Cursor)
    requires ctx.linters == [] && c.Valid()
    ensures AsWritten(ctx, c) == []
    ensures Checks(ctx, c) == []
    decreases Measure(c), 1
  {
    ChildrenSmaller(c.node);
    MeasureAtLeastSize(c);
    NoRulesNoDiagnosticsChildren(ctx, c, |Children(c.node)|);
    if NextSibling(c).Some? {
      NextSiblingDecreases(c);
      NoRulesNoDiagnostics(ctx, NextSibling(c).value);
    }
  }

  lemma {:induction false} NoRulesNoDiagnosticsChildren<D>(ctx: Ctx<D>, c: Cursor, k: nat)
    requires ctx.linters == [] && c.Valid() && k <= |Children(c.node)|
    ensures AsWrittenChildren(ctx, c, k) == []
    ensures ChecksChildren(ctx, c, k) == []
    decreases SizeSeq(Children(c.node)), 2, k
  {
    if k > 0 {
      ChildCursorDecreases(c, k - 1);
      NoRulesNoDiagnosticsChildren(ctx, c, k - 1);
      NoRulesNoDiagnostics(ctx, ChildCursor(c, k - 1));
    }
  }

  /** The linters of concatenated rule lists are the concatenated linters. */
  lemma {:induction false} LintersAppend(first: seq<string>, second: seq<string>)
    requires AllKnown(first) && AllKnown(second)
    ensures AllKnown(first + second)
    ensures Linters(first + second) == Linters(first) + Linters(second)
  {
    assert AllKnown(first + second) by {
      forall i | 0 <= i < |first + second| ensures KnownRule((first + second)[i]) {
        if i < |first| { assert (first + second)[i] == first[i]; }
        else { assert (first + second)[i] == second[i - |first|]; }
      }
    }
    if first != [] {
      assert (first + second)[1..] == first[1..] + second;
      assert AllKnown(first[1..]) by {
        forall i | 0 <= i < |first[1..]| ensures KnownRule(first[1..][i]) { assert first[1..][i] == first[i + 1]; }
      }
      LintersAppend(first[1..], second);
    } else {
      assert first + second == second;
    }
  }

  /** At a node, the linters of earlier rules report before those of later rules. */
  lemma {:induction false} RulesInOrder<D>(ctx: Ctx<D>, first: seq<LintChecker>, second: seq<LintChecker>, c: Cursor)
    requires ctx.linters == first + second
    ensures Here(ctx, c) == Here(ctx.(linters := first), c) + Here(ctx.(linters := second), c)
    decreases |second|
  {
    if second == [] {
      assert first + second == first;
    } else {
      var init := second[..|second| - 1];
      assert first + second == (first + init) + [second[|second| - 1]];
      RulesInOrder(ctx.(linters := first + init), first, init, c);
      HereUpToPrefix(ctx.(linters := first + init), ctx, c, |first + init|);
      HereUpToPrefix(ctx.(linters := init), ctx.(linters := second), c, |init|);
    }
  }

  /** `HereUpTo` depends only on the first `k` linters. */
  lemma {:induction false} HereUpToPrefix<D>(short: Ctx<D>, long: Ctx<D>, c: Cursor, k: nat)
    requires k <= |short.linters| <= |long.linters|
    requires short.newLines == long.newLines && short.file == long.file && short.check == long.check
    requires short.linters == long.linters[..|short.linters|]
    ensures HereUpTo(short, c, k) == HereUpTo(long, c, k)
  {
    if k > 0 {
      assert short.linters[k - 1] == long.linters[k - 1];
      HereUpToPrefix(short, long, c, k - 1);
    }
  }

  // ----- Each node once -----------------------------------------------------------

  /** Every linter reports exactly one diagnostic at every node. */
  ghost predicate OneEach<D>(ctx: Ctx<D>)
  {
    forall l, d :: ctx.check(l, d, ctx.newLines, ctx.file).Ok? && |ctx.check(l, d, ctx.newLines, ctx.file).value| == 1
  }

  lemma {:induction false} HereLength<D>(ctx: Ctx<D>, c: Cursor, k: nat)
    requires OneEach(ctx) && k <= |ctx.linters|
    ensures |HereUpTo(ctx, c, k)| == k
  {
    if k > 0 {
      HereLength(ctx, c, k - 1);
      var l := ctx.linters[k - 1];
      assert |ctx.check(l, c, ctx.newLines, ctx.file).value| == 1;
    }
  }

  lemma SizeSeqSnoc(ns: seq<Node>, k: nat)
    requires 0 < k <= |ns|
    ensures SizeSeq(ns[..k]) == SizeSeq(ns[..k - 1]) + Size(ns[k - 1])
  {
    SizeSeqAppend(ns[..k - 1], [ns[k - 1]]);
    assert ns[..k] == ns[..k - 1] + [ns[k - 1]];
  }

  lemma {:induction false} SizeSeqAppend(a: seq<Node>, b: seq<Node>)
    ensures SizeSeq(a + b) == SizeSeq(a) + SizeSeq(b)
  {
    if a != [] {
      assert (a + b)[0] == a[0];
      assert (a + b)[1..] == a[1..] + b;
      SizeSeqAppend(a[1..], b);
    } else {
      assert a + b == b;
    }
  }

  /**
    When every linter reports one diagnostic per node, the preorder walk
    reports exactly one per rule and node: every node is visited once.
  */
  lemma {:induction false} VisitsEachNodeOnce<D>(ctx: Ctx<D>, c: Cursor)
    requires OneEach(ctx)
    ensures |Checks(ctx, c)| == |ctx.linters| * Size(c.node)
    decreases Size(c.node), 1
  {
    HereLength(ctx, c, |ctx.linters|);
    VisitsEachNodeOnceChildren(ctx, c, |Children(c.node)|);
    ChildrenSmaller(c.node);
    assert Children(c.node)[..|Children(c.node)|] == Children(c.node);
    SizeOfChildNodes(c.node, 0);
    assert c.node.slots[0..] == c.node.slots;
    var r, s := |ctx.linters|, SizeSeq(Children(c.node));
    assert Size(c.node) == 1 + s;
    Distribute(r, 1, s);
  }

  lemma {:induction false} VisitsEachNodeOnceChildren<D>(ctx: Ctx<D>, c: Cursor, k: nat)
    requires OneEach(ctx) && k <= |Children(c.node)|
    ensures |ChecksChildren(ctx, c, k)| == |ctx.linters| * SizeSeq(Children(c.node)[..k])
    decreases Size(c.node), 0, k
  {
    if k > 0 {
      ChildSmaller(c.node, k - 1);
      VisitsEachNodeOnceChildren(ctx, c, k - 1);
      VisitsEachNodeOnce(ctx, ChildCursor(c, k - 1));
      SizeSeqSnoc(Children(c.node), k);
      var r, a, b := |ctx.linters|, SizeSeq(Children(c.node)[..k - 1]), Size(Children(c.node)[k - 1]);
      Distribute(r, a, b);
    }
  }

  lemma Distribute(r: int, a: int, b: int)
    ensures r * (a + b) == r * a + r * b
  {
  }

  // ----- The duplicate visit ------------------------------------------------------

  /** The identifier `x` at offset 0. */
  function XNode(): Node
  {
    Node(RIdentifier, "x", "x", Messages.TextRange(0, 1), [])
  }

  /** The identifier `T` at offset 5. */
  function TNode(): Node
  {
    Node(RIdentifier, "T", "T", Messages.TextRange(5, 6), [])
  }

  /** The tree of `x <- T`: an assignment whose two operands are identifiers. */
  function XAssignT(): Node
  {
    Node(RBinaryExpression, "x <- T", "x <- T", Messages.TextRange(0, 6),
      [Child(XNode()), Tok(Token(OtherToken, "<-")), Child(TNode())])
  }

  /** A linter that reports the start offset of every node it is applied to. */
  function StartOffset(l: LintChecker, c: Cursor, newLines: seq<nat>, file: string): Result<seq<nat>, string>
  {
    Ok([c.node.range.start])
  }

  lemma XAssignTShape()
    ensures Children(XAssignT()) == [XNode(), TNode()]
    ensures Children(XNode()) == [] && Children(TNode()) == []
  {
    var slots := XAssignT().slots;
    assert slots[1..][1..] == [Child(TNode())];
    assert ChildNodes(slots[1..]) == ChildNodes(slots[2..]);
  }

  lemma XAssignTSiblings()
    ensures |Children(XAssignT())| == 2
    ensures NextSibling(ChildCursor(RootCursor(XAssignT()), 0)) == Some(ChildCursor(RootCursor(XAssignT()), 1))
    ensures NextSibling(ChildCursor(RootCursor(XAssignT()), 1)).None?
  {
    XAssignTShape();
  }

  /** With the one linter `StartOffset`, each node reports its start offset. */
  lemma HereStartOffset(l: LintChecker, c: Cursor)
    ensures Here(Ctx([l], [], [], StartOffset), c) == [c.node.range.start]
  {
    assert HereUpTo(Ctx([l], [], [], StartOffset), c, 0) == [];
  }

  /** `T`, the last child, hands on to nothing. */
  lemma AsWrittenLastOperand(l: LintChecker)
    ensures |Children(XAssignT())| == 2
    ensures AsWritten(Ctx([l], [], [], StartOffset), ChildCursor(RootCursor(XAssignT()), 1)) == [5]
  {
    XAssignTShape();
    XAssignTSiblings();
    HereStartOffset(l, ChildCursor(RootCursor(XAssignT()), 1));
  }

  /** `x` hands on to its next sibling `T`. */
  lemma AsWrittenFirstOperand(l: LintChecker)
    ensures |Children(XAssignT())| == 2
    ensures AsWritten(Ctx([l], [], [], StartOffset), ChildCursor(RootCursor(XAssignT()), 0)) == [0, 5]
  {
    XAssignTShape();
    XAssignTSiblings();
    AsWrittenLastOperand(l);
    HereStartOffset(l, ChildCursor(RootCursor(XAssignT()), 0));
  }

  /**
    On `x <- T` with one rule selected, `check_ast` applies the linter to
    `T` twice: once as the next sibling of `x` and once from the loop over
    the children.
  */
  lemma DuplicateVisit(l: LintChecker)
    ensures AsWritten(Ctx([l], [], [], StartOffset), RootCursor(XAssignT())) == [0, 0, 5, 5]
  {
    var ctx := Ctx([l], [], [], StartOffset);
    var root := RootCursor(XAssignT());
    AsWrittenFirstOperand(l);
    AsWrittenLastOperand(l);
    HereStartOffset(l, root);
    XAssignTShape();
    assert AsWrittenChildren(ctx, root, 1) == [0, 5];
    assert AsWrittenChildren(ctx, root, 2) == [0, 5, 5];
  }

  /** In the preorder walk each operand of `x <- T` reports once. */
  lemma PreorderOperands(l: LintChecker)
    ensures |Children(XAssignT())| == 2
    ensures Checks(Ctx([l], [], [], StartOffset), ChildCursor(RootCursor(XAssignT()), 0)) == [0]
    ensures Checks(Ctx([l], [], [], StartOffset), ChildCursor(RootCursor(XAssignT()), 1)) == [5]
  {
    XAssignTShape();
    HereStartOffset(l, ChildCursor(RootCursor(XAssignT()), 0));
    HereStartOffset(l, ChildCursor(RootCursor(XAssignT()), 1));
  }

  /** The preorder walk applies the linter once to each of the three nodes of `x <- T`. */
  lemma PreorderVisitsOnce(l: LintChecker)
    ensures Checks(Ctx([l], [], [], StartOffset), RootCursor(XAssignT())) == [0, 0, 5]
  {
    var ctx := Ctx([l], [], [], StartOffset);
    var root := RootCursor(XAssignT());
    XAssignTShape();
    PreorderOperands(l);
    HereStartOffset(l, root);
    assert ChecksChildren(ctx, root, 1) == [0];
    assert ChecksChildren(ctx, root, 2) == [0, 5];
  }
}
