/**
  A lexical scope of the semantic model
  (`src/semantic_analysis/semantic_model/scope.rs`): its id, its parent's
  id, the node and range it covers, and the names bound, shadowed and
  referenced in it.
*/
module Scope {
  import opened Wrappers
  import opened Syntax
  import opened Messages

  datatype Scope = Scope(
    id: nat,
    parent: Option<nat>,
    node: Node,
    range: TextRange,
    bindings: seq<string>,
    shadowed: seq<(string, string)>,
    references: set<string>)

  /** `Scope::new`: what is given is stored; nothing is bound, shadowed or referenced yet. */
  function NewScope(id: nat, parent: Option<nat>, node: Node, range: TextRange): (s: Scope)
    ensures s.id == id && s.parent == parent && s.node == node && s.range == range
    ensures s.bindings == [] && s.shadowed == [] && s.references == {}
  {
    Scope(id, parent, node, range, [], [], {})
  }

  /** `iter().any(|b| b == name)` over a list of names. */
  function AnyEqual(names: seq<string>, name: string): (b: bool)
    ensures b <==> exists k :: 0 <= k < |names| && names[k] == name
  {
    if names == [] then false
    else if names[0] == name then true
    else
      var rest := AnyEqual(names[1..], name);
      assert forall k :: 1 <= k < |names| ==> names[k] == names[1..][k - 1];
      rest
  }

  /** `has_binding`. */
  function HasBinding(s: Scope, name: string): (b: bool)
    ensures b <==> name in s.bindings
  {
    AnyEqual(s.bindings, name)
  }

  /** A fresh scope binds no name. */
  lemma FreshScopeBindsNothing(id: nat, parent: Option<nat>, node: Node, range: TextRange, name: string)
    ensures !HasBinding(NewScope(id, parent, node, range), name)
  {
  }
}
