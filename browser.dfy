/**
  The `browser` rule (`crates/jarl-core/src/lints/browser/browser.rs`): a
  call to `browser()` left in the code is reported over the whole call,
  with an empty fix since there is nothing to put in its place. It belongs
  to the newer engine, where rules get a call node and return an optional
  diagnostic.
*/
module Browser {
  import opened Wrappers
  import opened Syntax
  import opened Messages

  /** `RCallFields::function`: the callee, slot 0 of a call. */
  function Function(call: Node): Option<Node>
  {
    NodeSlot(call, 0)
  }

  /** `browser`: a missing callee is an error; a callee reading `browser` gives the diagnostic. */
  function Check(call: Node): (r: Result<Option<Diagnostic>, string>)
    requires call.kind == RCall
    ensures r.Err? <==> Function(call).None?
    ensures r.Ok? && r.value.Some? <==> Function(call).Some? && Function(call).value.trimmed == "browser"
    ensures r.Ok? && r.value.Some? ==>
              && r.value.value == NewDiagnostic(FromViolation(BrowserViolation), call.range, EmptyFix())
              && r.value.value.range == call.range
              && r.value.value.fix.content == [] && r.value.value.fix.start == r.value.value.fix.end
  {
    var callee := Function(call);
    if callee.None? then Err("missing callee")
    else if callee.value.trimmed != "browser" then Ok(None)
    else Ok(Some(NewDiagnostic(FromViolation(BrowserViolation), call.range, EmptyFix())))
  }

  /** The diagnostic names the rule and says what to do, and replaces nothing. */
  lemma ReportedAsBrowser(call: Node)
    requires call.kind == RCall && Check(call).Ok? && Check(call).value.Some?
    ensures var d := Check(call).value.value;
            && d.message.name == Name(BrowserViolation) && d.message.body == Body(BrowserViolation)
            && d.location.None? && d.filename == []
            && d.fix == EmptyFix()
  {
  }

  // ----- The rule's test cases, on hand-built trees ----------------------------

  /** `browser()` and `browser(text = ...)`: a call whose callee reads `browser` is reported. */
  lemma BrowserCallReported(callee: Node, args: Node)
    requires callee.trimmed == "browser"
    ensures var call := Node(RCall, [], [], TextRange(0, 9), [Child(callee), Child(args)]);
            Check(call) == Ok(Some(NewDiagnostic(FromViolation(BrowserViolation), TextRange(0, 9), EmptyFix())))
  {
  }

  /** A call to any other function is not reported. */
  lemma OtherCallNotReported(callee: Node, args: Node, range: TextRange)
    requires callee.trimmed != "browser"
    ensures Check(Node(RCall, [], [], range, [Child(callee), Child(args)])) == Ok(None)
  {
  }

  /** A call whose callee the parser could not make out is an error. */
  lemma MissingCalleeIsError(args: Node, range: TextRange)
    ensures Check(Node(RCall, [], [], range, [Missing, Child(args)])).Err?
  {
  }
}
