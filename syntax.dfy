/**
  An abstract R syntax tree, standing for the nodes of the R parser's
  lossless tree that the rules and the traversal look at: a node has a
  kind, its full text (with trivia) and its trimmed text, its trimmed byte
  range, and its slots in order. A slot holds a child node, a token, or
  nothing when the parser found the element missing. `children()` are the
  child nodes in slot order; navigation upwards and sideways goes through a
  cursor that remembers the path from the root.
*/
module Syntax {
  import opened Wrappers
  import Messages

  /** The syntax kinds the traversal and the rules distinguish. */
  datatype Kind =
    | RExpressionList | RFunctionDefinition | RCall | RCallArguments | RSubset | RSubset2
    | RParameterList | RParameters | RParameter | RArgumentList | RArgument
    | RBracedExpressions | RRoot | RRepeatStatement | RUnaryExpression | RBinaryExpression
    | RParenthesizedExpression | RExtractExpression | RNamespaceExpression | RNaExpression
    | RForStatement | RWhileStatement | RIfStatement
    | RIdentifier | RStringValue | RArgumentNameClause
    | ROther(name: string)

  /**
    The kinds whose children `check_ast` always visits: every kind it lists,
    which are all kinds here but identifiers, string values, argument name
    clauses and the other kinds.
  */
  predicate IsContainer(k: Kind)
  {
    !(k.RIdentifier? || k.RStringValue? || k.RArgumentNameClause? || k.ROther?)
  }

  /** The token kinds the rules compare operators against. */
  datatype TokenKind = Equal2 | NotEqual | Tilde | OtherToken

  datatype Token = Token(kind: TokenKind, trimmed: string)

  datatype Slot = Missing | Child(node: Node) | Tok(token: Token)

  datatype Node = Node(kind: Kind, text: string, trimmed: string, range: Messages.TextRange, slots: seq<Slot>)

  /** The child nodes of the given slots, in order. */
  function ChildNodes(slots: seq<Slot>): (r: seq<Node>)
    ensures |r| <= |slots|
  {
    if slots == [] then []
    else if slots[0].Child? then [slots[0].node] + ChildNodes(slots[1..])
    else ChildNodes(slots[1..])
  }

  /** `children()`: the child nodes, tokens and missing slots skipped. */
  function Children(n: Node): seq<Node>
  {
    ChildNodes(n.slots)
  }

  /** The child nodes of one node slot: that node. */
  lemma ChildNodesOne(a: Node)
    ensures ChildNodes([Child(a)]) == [a]
  {
    assert [Child(a)][1..] == [];
  }

  /** The child nodes of two node slots: both nodes, in order. */
  lemma ChildNodesTwo(a: Node, b: Node)
    ensures ChildNodes([Child(a), Child(b)]) == [a, b]
  {
    assert [Child(a), Child(b)][1..] == [Child(b)];
    ChildNodesOne(b);
  }

  /** The child nodes of a binary shape: the operands; the operator token is skipped. */
  lemma ChildNodesBinary(a: Node, t: Token, b: Node)
    ensures ChildNodes([Child(a), Tok(t), Child(b)]) == [a, b]
  {
    var slots := [Child(a), Tok(t), Child(b)];
    assert slots[1..][1..] == [Child(b)];
    ChildNodesOne(b);
  }

  /** `first_child()`. */
  function FirstChild(n: Node): (r: Option<Node>)
    ensures r.Some? <==> Children(n) != []
    ensures r.Some? ==> r.value == Children(n)[0]
  {
    if Children(n) == [] then None else Some(Children(n)[0])
  }

  /** The node in slot `i`, if that slot holds one. */
  function NodeSlot(n: Node, i: nat): Option<Node>
  {
    if i < |n.slots| && n.slots[i].Child? then Some(n.slots[i].node) else None
  }

  /** The token in slot `i`, if that slot holds one. */
  function TokenSlot(n: Node, i: nat): Option<Token>
  {
    if i < |n.slots| && n.slots[i].Tok? then Some(n.slots[i].token) else None
  }

  /** `as_fields()` of a binary expression: left operand, operator, right operand. */
  datatype BinaryFields = BinaryFields(left: Option<Node>, operator: Option<Token>, right: Option<Node>)

  function AsBinaryFields(n: Node): BinaryFields
  {
    BinaryFields(NodeSlot(n, 0), TokenSlot(n, 1), NodeSlot(n, 2))
  }

  // ----- Size ---------------------------------------------------------------

  /** The number of nodes in the tree. */
  function Size(n: Node): nat
    decreases n, 1
  {
    1 + SizeFrom(n, 0)
  }

  /** The number of nodes under the slots of `n` from slot `i` on. */
  function SizeFrom(n: Node, i: nat): nat
    requires i <= |n.slots|
    decreases n, 0, |n.slots| - i
  {
    if i == |n.slots| then 0
    else (if n.slots[i].Child? then Size(n.slots[i].node) else 0) + SizeFrom(n, i + 1)
  }

  /** The number of nodes in a forest. */
  function SizeSeq(ns: seq<Node>): nat
  {
    if ns == [] then 0 else Size(ns[0]) + SizeSeq(ns[1..])
  }

  lemma {:induction false} SizeOfChildNodes(n: Node, i: nat)
    requires i <= |n.slots|
    ensures SizeSeq(ChildNodes(n.slots[i..])) == SizeFrom(n, i)
    decreases |n.slots| - i
  {
    if i < |n.slots| {
      assert n.slots[i..][1..] == n.slots[i + 1..];
      SizeOfChildNodes(n, i + 1);
    }
  }

  /** A node counts for more than all of its descendants together. */
  lemma ChildrenSmaller(n: Node)
    ensures SizeSeq(Children(n)) < Size(n)
  {
    SizeOfChildNodes(n, 0);
    assert n.slots[0..] == n.slots;
  }

  /** The forest from `i` on is its first tree plus the forest after it. */
  lemma SizeSeqSuffix(ns: seq<Node>, i: nat)
    requires i < |ns|
    ensures SizeSeq(ns[i..]) == Size(ns[i]) + SizeSeq(ns[i + 1..])
  {
    assert ns[i..][1..] == ns[i + 1..];
  }

  /** Dropping a prefix never enlarges a forest. */
  lemma {:induction false} SizeSeqDrop(ns: seq<Node>, i: nat)
    requires i <= |ns|
    ensures SizeSeq(ns[i..]) <= SizeSeq(ns)
  {
    if i > 0 {
      SizeSeqDrop(ns[1..], i - 1);
      assert ns[1..][i - 1..] == ns[i..];
    }
  }

  /** Each child counts for less than its parent. */
  lemma ChildSmaller(n: Node, i: nat)
    requires i < |Children(n)|
    ensures Size(Children(n)[i]) < Size(n)
  {
    ChildrenSmaller(n);
    SizeSeqDrop(Children(n), i);
    SizeSeqSuffix(Children(n), i);
  }

  // ----- Cursors ------------------------------------------------------------

  /** One step down from the root: the parent and the index of the child taken. */
  datatype Frame = Frame(parent: Node, index: nat)

  /** A node together with the path that leads to it from the root. */
  datatype Cursor = Cursor(node: Node, path: seq<Frame>)
  {
    /** The last step of the path does lead to this node. */
    predicate Valid()
    {
      path != [] ==>
        var f := path[|path| - 1];
        f.index < |Children(f.parent)| && Children(f.parent)[f.index] == node
    }
  }

  /** The cursor at the root of a tree. */
  function RootCursor(n: Node): (c: Cursor)
    ensures c.Valid() && c.node == n
  {
    Cursor(n, [])
  }

  /** The cursor at child `i` of the cursor's node. */
  function ChildCursor(c: Cursor, i: nat): (d: Cursor)
    requires i < |Children(c.node)|
    ensures d.Valid() && d.node == Children(c.node)[i]
    ensures Parent(d) == Some(c.node)
  {
    Cursor(Children(c.node)[i], c.path + [Frame(c.node, i)])
  }

  /** `parent()`: the node above, `None` at the root. */
  function Parent(c: Cursor): Option<Node>
  {
    if c.path == [] then None else Some(c.path[|c.path| - 1].parent)
  }

  /**
    `next_sibling()`: the next child node of the same parent, `None` at the
    root and at the last child.
  */
  function NextSibling(c: Cursor): (r: Option<Cursor>)
    requires c.Valid()
    ensures r.Some? ==> r.value.Valid() && Parent(r.value) == Parent(c)
    ensures r.Some? <==> c.path != [] && c.path[|c.path| - 1].index + 1 < |Children(c.path[|c.path| - 1].parent)|
  {
    if c.path == [] then None
    else
      var f := c.path[|c.path| - 1];
      var siblings := Children(f.parent);
      if f.index + 1 < |siblings| then
        Some(Cursor(siblings[f.index + 1], c.path[..|c.path| - 1] + [Frame(f.parent, f.index + 1)]))
      else None
  }

  /**
    A measure that both steps of the traversal decrease: the size of the
    node itself at the root, otherwise the size of it and all its later
    siblings.
  */
  function Measure(c: Cursor): nat
    requires c.Valid()
  {
    if c.path == [] then Size(c.node)
    else
      var f := c.path[|c.path| - 1];
      SizeSeq(Children(f.parent)[f.index..])
  }

  lemma MeasureAtLeastSize(c: Cursor)
    requires c.Valid()
    ensures Size(c.node) <= Measure(c)
  {
    if c.path != [] {
      var f := c.path[|c.path| - 1];
      SizeSeqSuffix(Children(f.parent), f.index);
    }
  }

  /** Moving to the next sibling decreases the measure. */
  lemma NextSiblingDecreases(c: Cursor)
    requires c.Valid() && NextSibling(c).Some?
    ensures Measure(NextSibling(c).value) < Measure(c)
  {
    var f := c.path[|c.path| - 1];
    SizeSeqSuffix(Children(f.parent), f.index);
  }

  /** Moving to child `i` decreases the measure below the size of the forest of children. */
  lemma ChildCursorDecreases(c: Cursor, i: nat)
    requires c.Valid() && i < |Children(c.node)|
    ensures Measure(ChildCursor(c, i)) <= SizeSeq(Children(c.node)) < Measure(c)
  {
    SizeSeqDrop(Children(c.node), i);
    ChildrenSmaller(c.node);
    MeasureAtLeastSize(c);
  }
}
