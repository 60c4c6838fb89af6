# A model of the flir language server and its lint core

flir is a linter for R. This project models, in Dafny, the parts of it
that decide what a user sees:

- the diagnostics-only language server (`crates/flir-lsp`):
  - how it answers requests and notifications;
  - how it queues lint work and drains that work;
  - how it turns the engine's byte ranges into LSP positions in each of the three position encodings;
- the engine's core (`src/`):
  - the rules selected by name;
  - the tree walk that applies the selected linters at every node;
  - the rules `equals_na`, `true_false_symbol` and `class_equals`, and `browser` from `crates/jarl-core`;
  - the helpers they rely on: argument lookup by name and position, and scope bindings;
  - the diagnostic records and their console rendering;
  - the fix applier;
- the VS Code extension's choice of which `flir` executable to start (`editors/code/src/binary.ts`).

Text is `string`, a sequence of Unicode scalar values. Byte offsets are
computed through UTF-8 lengths (`Unicode.ByteLen`), and the engine's
slicing panics are preconditions stated in those terms. A slice is only
defined when an offset lands on a char boundary
(`Unicode.IsCharBoundary`); `Unicode.Trim` models `str::trim`.

The modules follow the program:

- `Wrappers`: `Option` and `Result`.
- `Unicode`: UTF-8 and UTF-16 lengths, char boundaries, trimming.
- `Syntax`: an abstract R syntax tree.
  - Each node has a kind, its full and trimmed text, its range and its slots.
  - A slot holds a child node, a token, or nothing when the parser found the element missing.
  - A cursor remembers the path from the root. It models rowan's `parent`, `first_child` and `next_sibling`.
- `Messages`: `src/message.rs`.
- `Arguments`: `src/traits.rs`.
- `Scope`: `src/semantic_analysis/semantic_model/scope.rs`.
- `CheckAst`: `src/check_ast.rs`.
- `EqualsNa`, `TrueFalseSymbol`, `ClassEquals` and `Browser`: one module per rule.
- `Fixes`: `src/fix.rs`.
- `Positions`: the position conversion of `crates/flir-lsp/src/lint.rs`.
- `Lint`: the rest of that file.
- `Server`: `crates/flir-lsp/src/server.rs`.
  - The session and the server each become a class whose fields the handlers update in place.
  - Every handler is also given as a function on those fields. The lemmas about the protocol are stated over these functions.
- `Binary`: `editors/code/src/binary.ts`.

Two places where the code does something other than what it evidently
means are listed under "## Findings". Both are modelled twice: once as
written, and once corrected.

- The server's conversion of diagnostics uses the corrected position conversion.
- `get_checks` keeps the walk as written, because it calls `check_ast` itself. The corrected walk, `CheckAst.CheckTree`, stands beside it.

A few points where the code and its description disagree; the model follows the code.

- `rule_name_to_lint_checker` accepts `any_is_na`, `T-F-symbols`, `any_duplicated`, `class_equals` and `equals-na`.
  - Four names of `ALL_RULES` are not among these: `duplicated_arguments`, `equal_assignment`, `equals_na` and `true_false_symbol`.
  - Selecting one of them panics, so the model requires known names (`CheckAst.AllRulesNotAccepted`).
- A lint task whose linting fails publishes nothing. A diagnostic request whose linting fails gets no response at all.
- A request whose params do not parse gets no response either. Its handler returns an error and the main loop only logs it.
- The rules under `src/lints` build a diagnostic with a location and a file name, but no range (`Messages.LintDiagnostic`).
  - `src/fix.rs` belongs to a version of the engine whose `Message` enum carries fixes with an `offset_change_before`.
  - That is why `Fixes` has its own `EditFix` and `Message`.

## Model

| member | source | states |
|---|---|---|
| Messages.EmptyRange | src/message.rs:82 | the empty range at an offset starts and ends there |
| Messages.EmptyFix | src/message.rs:18-24 | the empty fix replaces the empty range at 0 by nothing |
| Messages.EmptyViolationData | src/message.rs:64-66 | the empty violation data has no name and no body |
| Messages.Name | src/lints/equals_na/equals_na.rs:13-15 | each rule's name is a single word with no space, so the rendering keeps it apart from the body (also src/lints/true_false_symbol/true_false_symbol.rs:12-14 and crates/jarl-core/src/lints/browser/browser.rs:34-36) |
| Messages.Body | src/lints/equals_na/equals_na.rs:16-18 | each rule's explanation is never empty (also src/lints/true_false_symbol/true_false_symbol.rs:15-17 and crates/jarl-core/src/lints/browser/browser.rs:37-39) |
| Messages.NameIdentifiesRule | src/lints/equals_na/equals_na.rs:12-19 | no two rules share a name or a body, so either one identifies the rule (also src/lints/true_false_symbol/true_false_symbol.rs:11-18 and crates/jarl-core/src/lints/browser/browser.rs:33-40) |
| Messages.FromViolation | src/message.rs:54-61 | the data built from a violation carries that rule's name and body unchanged |
| Messages.NewDiagnostic | src/message.rs:70-78 | a new diagnostic keeps its message, range and fix, with no location and no file name yet |
| Messages.EmptyDiagnostic | src/message.rs:79-87 | the empty diagnostic is made of the empty message, range and fix, with no location |
| Messages.Decimal | src/message.rs:96-104 | `{}` renders a row or column as non-empty decimal digits with no leading zero |
| Messages.DecimalRoundTrip | src/message.rs:96-104 | reading the rendered digits back gives the number |
| Messages.DecimalInjective | src/message.rs:96-104 | distinct rows or columns render differently |
| Messages.ReadsRowAndColumn | src/message.rs:96-104 | "row:col]" followed by anything reads back as that row and column |
| Messages.Display | src/message.rs:90-105 | the rendering starts with the file name followed by " [", and ends with the rule's name, a space and the rule's body, as "<filename> [<row>:<col>] <name> <body>"; the location must be present (92-95) |
| Messages.DisplayReadsBack | src/message.rs:90-105 | the location of a rendered diagnostic can be read back from its text after "file [" |
| Messages.DisplayDeterminesLocation | src/message.rs:90-105 | two renderings of the same file are equal only if their locations are |
| Arguments.FindByName | src/traits.rs:11-25 | the index of the first argument whose name clause, trimmed, reads the name; every earlier one is present and does not match |
| Arguments.GetArgByName | src/traits.rs:11-25 | a found argument is one whose name matches; none is found only if no argument matches |
| Arguments.GetArgByPosition | src/traits.rs:27-29 | an argument is found exactly when the position is in range, and it is the one at that position |
| Arguments.GetArgByNameThenPosition | src/traits.rs:31-36 | the named argument when there is one, otherwise the one at the position |
| Arguments.FirstMatchIsFound | src/traits.rs:11-25 | any matching argument with no match before it is the one found |
| Arguments.UnnamedNeverMatch | src/traits.rs:13-23 | arguments without a name clause are never found by name |
| Arguments.AllPresentScans | src/traits.rs:11-25 | when every argument is present, the scan is free of panics for any name |
| Arguments.UnnamedFallsBackToPosition | src/traits.rs:31-36 | with no named arguments, the lookup by name then position is the lookup by position |
| Arguments.UnresolvedNameNeverMatches | src/traits.rs:13-23 | a name clause whose name the parser could not make out matches no name |
| Arguments.PositionCountsNamed | src/traits.rs:27-29 | positions count named arguments too: in `f(a = 1, 2)` position 0 is `a = 1` |
| Scope.NewScope | src/semantic_analysis/semantic_model/scope.rs:47-57 | a new scope stores what it is given and has no bindings, shadowed names or references |
| Scope.AnyEqual | src/semantic_analysis/semantic_model/scope.rs:61 | true exactly when some listed name equals the name |
| Scope.HasBinding | src/semantic_analysis/semantic_model/scope.rs:60-62 | true exactly when the name is among the scope's bindings |
| Scope.FreshScopeBindsNothing | src/semantic_analysis/semantic_model/scope.rs:47-62 | a fresh scope binds no name |
| CheckAst.RuleNameToLintChecker | src/check_ast.rs:17-26 | the linter built for an accepted name is the one that name selects |
| CheckAst.RuleNameRoundTrip | src/check_ast.rs:17-26 | every linter is selected by exactly its own name |
| CheckAst.AllRulesNotAccepted | src/lints/mod.rs:9-17 | four of the names in `ALL_RULES` are not accepted by `rule_name_to_lint_checker` (src/check_ast.rs:17-26) |
| CheckAst.Linters | src/check_ast.rs:59-62 | one linter per selected rule name |
| CheckAst.LintersSelectByName | src/check_ast.rs:59-62 | linter i is the one rule name i selects |
| CheckAst.LintersAppend | src/check_ast.rs:59-62 | the linters of two rule lists joined are the two lists of linters joined |
| CheckAst.ApplyLinters | src/check_ast.rs:64-66 | at a node, the diagnostics of every selected linter in rule order; a failed check adds none |
| CheckAst.RulesInOrder | src/check_ast.rs:64-66 | at a node, earlier rules report before later ones |
| CheckAst.HereLength | src/check_ast.rs:64-66 | with linters that report one diagnostic each, a node gets one diagnostic per linter |
| CheckAst.CheckAst | src/check_ast.rs:51-134 | the walk as written: a container visits its children, an identifier its next sibling, any other node its children if it has any and its next sibling otherwise |
| CheckAst.CheckChildren | src/check_ast.rs:101-103 | the loop over a node's children, in order, each walked as written |
| CheckAst.AsWrittenFirstOperand | src/check_ast.rs:105-112 | in `x <- T`, the identifier `x` reports itself and then `T`, its next sibling |
| CheckAst.AsWrittenLastOperand | src/check_ast.rs:105-112 | in `x <- T`, the last operand `T` reports itself only |
| CheckAst.DuplicateVisit | src/check_ast.rs:101-112 | the walk as written reports `T` twice in `x <- T` |
| CheckAst.HereStartOffset | src/check_ast.rs:64-66 | a linter that reports start offsets reports the node's own start |
| CheckAst.CheckTree | src/check_ast.rs:51-134 | the corrected walk: the linters at the node once, then each child's walk in order |
| CheckAst.GetChecks | src/check_ast.rs:28-49 | a failure to find the newlines is the result; otherwise the diagnostics of `check_ast` from the root, as written, after the empty semantic ones |
| CheckAst.NoRulesNoDiagnostics | src/check_ast.rs:101-129 | with no rule selected, neither walk reports anything (src/check_ast.rs:59-66) |
| CheckAst.VisitsEachNodeOnce | src/check_ast.rs:51-134 | in the corrected walk, linters that report one diagnostic each give one diagnostic per linter per node |
| CheckAst.PreorderOperands | src/check_ast.rs:101-112 | in the corrected walk each operand of `x <- T` reports once |
| CheckAst.PreorderVisitsOnce | src/check_ast.rs:51-134 | the corrected walk reports each of the three nodes of `x <- T` once, parent first |
| EqualsNa.Check | src/lints/equals_na/equals_na.rs:21-99 | an error exactly when a binary expression lacks an operand or its operator (36-38); at most one diagnostic, and one exactly when the operator is `==` or `!=` and exactly one side is a missing value (40-60); the fix `is.na(x)` or `!is.na(x)` over the whole comparison (62-94) |
| EqualsNa.SideDoesNotMatter | src/lints/equals_na/equals_na.rs:53-68 | `NA == x` and `x == NA` get the same diagnostic |
| EqualsNa.ComparisonWithNa | src/lints/equals_na/equals_na.rs:64-94 | a comparison of any non-missing operand with a missing value, on either side, is fixed to `is.na` of that operand, negated for `!=` |
| EqualsNa.EqualsNaFixed | src/lints/equals_na/equals_na.rs:70-81 | `x == NA` is fixed to `is.na(x)` over the whole comparison |
| EqualsNa.NotEqualsNaFixed | src/lints/equals_na/equals_na.rs:83-94 | `NA != x` is fixed to `!is.na(x)` |
| EqualsNa.NotFlaggedLeftAlone | src/lints/equals_na/equals_na.rs:40-60 | a complete binary expression that is not flagged gives no diagnostic and no error |
| EqualsNa.BothNaLeftAlone | src/lints/equals_na/equals_na.rs:58-60 | two missing values compared with each other are left alone |
| EqualsNa.NaEqualsNaLeftAlone | src/lints/equals_na/equals_na.rs:58-60 | `NA == NA` is left alone |
| EqualsNa.MissingOperandIsError | src/lints/equals_na/equals_na.rs:36-38 | a comparison with its right operand missing is the error "right" |
| TrueFalseSymbol.Check | src/lints/true_false_symbol/true_false_symbol.rs:20-69 | at most one diagnostic, and one exactly when the node is the symbol `T` or `F` outside a call's callee, an extraction and a formula; its fix spells out `TRUE` or `FALSE` over the symbol |
| TrueFalseSymbol.FixIsFinal | src/lints/true_false_symbol/true_false_symbol.rs:58-62 | the spelled-out constant put in by the fix is not flagged again (23-24) |
| TrueFalseSymbol.FlaggedUnlessExempt | src/lints/true_false_symbol/true_false_symbol.rs:26-49 | every `T` and `F` outside the three exempt places is flagged |
| TrueFalseSymbol.LoneT | src/lints/true_false_symbol/mod.rs:9-66 | a program that is just `T` is flagged and fixed to `TRUE` |
| TrueFalseSymbol.ArgumentValueT | src/lints/true_false_symbol/mod.rs:9-66 | the `T` of `na.rm = T` is flagged |
| TrueFalseSymbol.CalledT | src/lints/true_false_symbol/mod.rs:9-66 | the `T` of `T()` is not flagged |
| TrueFalseSymbol.ExtractedT | src/lints/true_false_symbol/mod.rs:9-66 | the `T` of `mtcars$T` is not flagged |
| TrueFalseSymbol.FormulaT | src/lints/true_false_symbol/mod.rs:9-66 | the `T` of `weight ~ T` is not flagged |
| TrueFalseSymbol.AssignedT | src/lints/true_false_symbol/mod.rs:9-66 | the `T` of `DF$bool <- T` is flagged |
| ClassEquals.Check | src/lints/class_equals.rs:11-80 | at most one diagnostic, and one exactly when a binary expression outside square brackets compares `class(...)` with a string by `==`, `!=` or `%in%` (16-48); the fix calls `inherits` with the arguments of `class`, negated for `!=` (50-78) |
| ClassEquals.SideDoesNotMatter | src/lints/class_equals.rs:60-66 | swapping the sides of a comparison with one `class(...)` side gives the same diagnostic |
| ClassEquals.LeftPreferred | src/lints/class_equals.rs:60-62 | when both sides are `class(...)`, the fix takes the left one's arguments |
| ClassEquals.InBracketsNeverFlagged | src/lints/class_equals.rs:16-18 | a comparison inside square brackets is never flagged |
| ClassEquals.ClassOfXEqualsLm | src/lints/class_equals.rs:50-78 | `class(x) == "lm"` is fixed to `inherits(x, "lm")` over the whole comparison |
| Browser.Check | crates/jarl-core/src/lints/browser/browser.rs:42-55 | an error exactly when the callee is missing (45); a diagnostic exactly when the callee reads `browser` (47-49), over the call's range with the empty fix (51-54) |
| Browser.ReportedAsBrowser | crates/jarl-core/src/lints/browser/browser.rs:33-40 | the diagnostic names the rule `browser`, says to remove the call, and replaces nothing (51-54) |
| Browser.BrowserCallReported | crates/jarl-core/src/lints/browser/mod.rs:8-36 | a call whose callee reads `browser` is reported |
| Browser.OtherCallNotReported | crates/jarl-core/src/lints/browser/mod.rs:8-36 | a call to any other function is not reported |
| Browser.MissingCalleeIsError | crates/jarl-core/src/lints/browser/browser.rs:43-49 | a call whose callee the parser could not make out is an error |
| Fixes.FixesOf | src/fix.rs:4-11 | the fixes of the messages, one per message, in order |
| Fixes.Step | src/fix.rs:17-37 | one fix moved by the shift applies exactly when the moved offsets fit `i32`, are in order and land on char boundaries |
| Fixes.ApplyFixes | src/fix.rs:3-41 | the result is the contents with every fix spliced in, in order, each moved by the shifts of the fixes before it; no messages leave the contents unchanged (13-16, 40) |
| Fixes.SpliceAll | src/fix.rs:16-38 | the loop leaves the buffer that applying all the fixes in order gives |
| Fixes.FirstFixUnmoved | src/fix.rs:16-37 | the first fix is applied at its own range |
| Fixes.ShiftIgnoresLaterFixes | src/fix.rs:26-29 | a fix is moved only by the fixes before it |
| Fixes.RunIgnoresLaterFixes | src/fix.rs:16-37 | the first fixes give the same buffer whatever fixes follow them |
| Fixes.SpliceKeepsOutside | src/fix.rs:37 | `replace_range` keeps the text before and after the range and puts the content between them |
| Fixes.SingleFix | src/fix.rs:37 | one fix turns the contents into the text before its range, its content, and the text after |
| Fixes.SpliceByteLen | src/fix.rs:37 | a splice changes the byte length by the content's length less the range's |
| Fixes.ShiftTracksLength | src/fix.rs:26-29 | when each fix's `offset_change_before` is its true change in length, the shift is the buffer's change in length |
| Positions.ByteOffsetToLspPosition | crates/flir-lsp/src/lint.rs:154-204 | the loop returns the position the conversion as written defines |
| Positions.AsWrittenPosition | crates/flir-lsp/src/lint.rs:159-165 | an out-of-bounds error exactly when the offset is past the content's byte length |
| Positions.OffsetToPosition | crates/flir-lsp/src/lint.rs:159-165 | an error exactly when the offset is past the content's byte length, naming the offset and the length |
| Positions.PositionAtCharIndex | crates/flir-lsp/src/lint.rs:171-200 | the offset of any char boundary is converted to the number of newlines before it and the length of the line up to it, measured in the negotiated encoding (180-192) |
| Positions.ScanAtCharIndex | crates/flir-lsp/src/lint.rs:171-200 | scanning line by line to a char boundary lands on a sliceable prefix and gives its newline count and last-line length |
| Positions.ScanOnBoundary | crates/flir-lsp/src/lint.rs:184-189 | an in-bounds offset on a char boundary never makes the prefix slice panic |
| Positions.LocateIsScan | crates/flir-lsp/src/lint.rs:171-198 | on content without '\r', stepping through `lines()` finds the same line and column as splitting on '\n' |
| Positions.AsWrittenAgreesWithoutCr | crates/flir-lsp/src/lint.rs:154-204 | on content without '\r', the conversion as written and the corrected one agree at every offset |
| Positions.PastEndAt | crates/flir-lsp/src/lint.rs:202-203 | the fall-through after the loop is reached only at the very end of the content, after its last newline |
| Positions.AsWrittenPastEnd | crates/flir-lsp/src/lint.rs:202-203 | the fall-through is reached only for empty content or content ending in '\n', and gives the line after the last one, column 0 |
| Positions.CrLfShiftsLaterLines | crates/flir-lsp/src/lint.rs:198 | in "a\r\nb", offsets 3 and 4 are converted to (1,1) and (2,0) where they mean (1,0) and (1,1) |
| Positions.HelloWorldStartAndBeyond | crates/flir-lsp/src/lint.rs:252-264 | offset 0 of "hello\nworld\ntest" is (0,0) and offset 1000 is out of bounds |
| Positions.HelloWorldSecondLine | crates/flir-lsp/src/lint.rs:247-250 | offset 7 of "hello\nworld\ntest" is (1,1) |
| Positions.HelloWorldEnd | crates/flir-lsp/src/lint.rs:257-261 | offset 16, the end of "hello\nworld\ntest", is (2,4) |
| Positions.EmojiColumns | crates/flir-lsp/src/lint.rs:267-286 | before the globe in "hello 🌍 world" the column is 6 in every encoding, for the as-written conversion the test calls and for the corrected one; after it, 8 UTF-16 units, 10 bytes or 7 scalar values, on which both conversions agree |
| Lint.ConvertToLspDiagnostic | crates/flir-lsp/src/lint.rs:118-151 | the conversion succeeds exactly when both ends are within the content; a bad start is the error reported before a bad end (128-129); a converted diagnostic is a warning with source flir, the rule's name as its code and the rule's body as its message (135-148) |
| Lint.ConvertedRange | crates/flir-lsp/src/lint.rs:124-131 | a range between char boundaries converts to the positions the two prefixes define |
| Lint.ConvertAll | crates/flir-lsp/src/lint.rs:39-45 | success exactly when every diagnostic lies within the content, with every diagnostic converted in order; otherwise the error of the first one out of bounds. Only the diagnostics the loop gets to need to be free of slicing panics |
| Lint.FirstFailure | crates/flir-lsp/src/lint.rs:41 | the error of the first diagnostic that fails to convert is the result |
| Lint.StopsAtFirstOutOfBounds | crates/flir-lsp/src/lint.rs:39-42 | in "é" under UTF-16, a diagnostic at byte 5 followed by one inside the "é" fails with the error for byte 5; the later one, which would panic, is never converted |
| Lint.RunFlirLinting | crates/flir-lsp/src/lint.rs:49-56 | with no file path there are no diagnostics; with one, the engine decides (the invalid UTF-8 path case of 58-64 is left to the engine, see "Left out") |
| Lint.NoPathNoDiagnostics | crates/flir-lsp/src/lint.rs:30-56 | a document without a file path is linted to an empty list |
| Lint.LintDocument | crates/flir-lsp/src/lint.rs:30-46 | the method returns the engine's diagnostics converted, or the engine's or the first conversion's error |
| Server.Snapshot | crates/flir-lsp/src/server.rs:267 | a snapshot exists exactly when the document is open, and carries its URI, text and version (327, 350) |
| Server.Loop | crates/flir-lsp/src/server.rs:168-227 | the main loop takes at most the inputs it is given |
| Server.Drain | crates/flir-lsp/src/server.rs:379-400 | the workers leave no task behind |
| Server.Session.constructor | crates/flir-lsp/src/server.rs:100-105 | a new session has no documents and no shutdown request |
| Server.Session.OpenDocument | crates/flir-lsp/src/server.rs:323 | the document is stored under its URI, overwriting any earlier one; nothing else changes |
| Server.Session.UpdateDocument | crates/flir-lsp/src/server.rs:342-346 | a successful update stores the updated document; a failed one changes nothing and is propagated |
| Server.Session.CloseDocument | crates/flir-lsp/src/server.rs:363 | an open document is removed; closing one that is not open fails and changes nothing |
| Server.Session.TakeSnapshot | crates/flir-lsp/src/server.rs:267 | the session's snapshot of a URI is the snapshot of its documents |
| Server.Session.RequestShutdown | crates/flir-lsp/src/server.rs:259 | the shutdown latch is set and the documents are kept |
| Server.Server.constructor | crates/flir-lsp/src/server.rs:134-136 | the channels and the outbox start empty and the process is running |
| Server.Server.Send | crates/flir-lsp/src/server.rs:260 | a response is appended to the outbox; nothing else changes |
| Server.Server.Enqueue | crates/flir-lsp/src/server.rs:268-272 | a task is appended to the task channel; nothing else changes |
| Server.Server.LintIfPush | crates/flir-lsp/src/server.rs:326-333 | in push mode a lint task for the open document is enqueued; otherwise nothing happens (349-356) |
| Server.Server.HandleRequest | crates/flir-lsp/src/server.rs:249-294 | the new session, channels and result are those of the request step |
| Server.Server.HandleNotification | crates/flir-lsp/src/server.rs:297-376 | the new session, channels and result are those of the notification step |
| Server.Server.HandleMessage | crates/flir-lsp/src/server.rs:230-246 | a request or notification goes to its handler; a response from the client changes nothing |
| Server.Server.HandleInput | crates/flir-lsp/src/server.rs:177-222 | one turn of the loop: a closed channel or a shutdown event stops it at once; a worker's response goes out to the client; a message is handled; the loop stops once shutdown is requested or the process has exited |
| Server.Server.MainLoop | crates/flir-lsp/src/server.rs:168-227 | the loop's final state and the number of inputs it took are those the turns define |
| Server.Server.HandleLintTask | crates/flir-lsp/src/server.rs:403-423 | a lint task's effect on the channels is the task step |
| Server.Server.HandleDiagnosticRequest | crates/flir-lsp/src/server.rs:426-452 | a diagnostic request task's effect on the channels is the task step |
| Server.Server.WorkerThread | crates/flir-lsp/src/server.rs:379-400 | the workers take the tasks in order until none is left |
| Server.ShutdownLatches | crates/flir-lsp/src/server.rs:258-261 | `shutdown` sets the latch and answers its id with an empty success; documents and tasks are untouched |
| Server.DiagnosticRequestRouted | crates/flir-lsp/src/server.rs:263-279 | a diagnostic request for an open document enqueues one task with its snapshot and id; for any other document it gets a "Document not found" error |
| Server.MalformedDiagnosticRequest | crates/flir-lsp/src/server.rs:264-265 | a diagnostic request whose params do not parse fails and changes nothing |
| Server.UnknownRequestRejected | crates/flir-lsp/src/server.rs:281-291 | any other request gets a -32601 error for its id, with session and tasks unchanged |
| Server.DidOpenStores | crates/flir-lsp/src/server.rs:312-334 | `didOpen` stores the document and, in push mode, enqueues one lint task for it |
| Server.DidChangeFailureChangesNothing | crates/flir-lsp/src/server.rs:342-346 | a failed update stores nothing, enqueues nothing and sends nothing |
| Server.DidChangeRelints | crates/flir-lsp/src/server.rs:342-357 | a successful change stores the updated document and, in push mode, enqueues one lint task for it |
| Server.DidCloseClears | crates/flir-lsp/src/server.rs:359-370 | closing an open document removes it and publishes an empty diagnostic list for it |
| Server.ExitEnds | crates/flir-lsp/src/server.rs:304-311 | `exit` ends the process and changes nothing else |
| Server.UnknownNotificationIgnored | crates/flir-lsp/src/server.rs:371-374 | any other notification changes nothing |
| Server.MessageStepMonotone | crates/flir-lsp/src/server.rs:236-245 | handling a message never clears the shutdown latch and only appends to the channels and the outbox |
| Server.LoopKeepsLatch | crates/flir-lsp/src/server.rs:220-222 | once shutdown is requested it stays requested |
| Server.LoopStopsAtShutdown | crates/flir-lsp/src/server.rs:220-222 | a shutdown request is the last input the loop takes (258-261) |
| Server.LoopStopsOnlyForCause | crates/flir-lsp/src/server.rs:188-222 | the loop stops before the end of its inputs only after a closed channel, a shutdown event, a shutdown request or an exit |
| Server.LintTaskPublishes | crates/flir-lsp/src/server.rs:403-423 | a lint task that lints successfully publishes the diagnostics for the snapshot's URI and version; a failed one publishes nothing |
| Server.DiagnosticTaskResponds | crates/flir-lsp/src/server.rs:426-452 | a diagnostic request that lints successfully is answered for its id with a full report of the diagnostics; a failed one gets no response |
| Server.DrainAnswersEach | crates/flir-lsp/src/server.rs:384-400 | draining the tasks sends one response event for each diagnostic request whose lint succeeds |
| Binary.FromBundled | editors/code/src/binary.ts:85-93 | the bundled executable, exactly when it exists |
| Binary.FromEnvironment | editors/code/src/binary.ts:95-105 | what the `PATH` search found, exactly when it is truthy |
| Binary.FromPath | editors/code/src/binary.ts:107-124 | the configured path, exactly when one is given and it exists |
| Binary.Resolve | editors/code/src/binary.ts:10-83 | an untrusted workspace uses only the bundled executable, the `path` strategy only the configured path, and an unrecognised strategy is an error (80-82) |
| Binary.UntrustedIgnoresStrategy | editors/code/src/binary.ts:14-28 | in an untrusted workspace the strategy and the configured path make no difference, and resolution succeeds exactly when the bundled executable is usable |
| Binary.BundledFirst | editors/code/src/binary.ts:29-49 | `bundled` tries the bundled executable, then the `PATH`, then fails with its own message |
| Binary.EnvironmentFirst | editors/code/src/binary.ts:50-70 | `environment` tries the `PATH`, then the bundled executable, then fails with its own message |
| Binary.PathNeverFallsBack | editors/code/src/binary.ts:71-79 | `path` succeeds exactly when the configured path is given and exists, and never falls back (107-124) |
| Binary.FallbacksAgreeUnlessBoth | editors/code/src/binary.ts:29-70 | `bundled` and `environment` resolve alike unless both executables are available |
| Binary.ResolvedIsFound | editors/code/src/binary.ts:10-83 | a resolved path is always one that one of the three lookups found |

## Left out

- Threads, channels and `select!`:
  - `run` creates bounded channels (capacity 100) and a pool of worker threads (crates/flir-lsp/src/server.rs:137-155).
  - The model replaces them with a schedule: a sequence of inputs for the main loop, and tasks drained in order by one worker.
  - Interleavings, channel capacity and the pool size are therefore not modelled.
- The initialize handshake and the rest of `run` (crates/flir-lsp/src/server.rs:62-165) are left out: the connection over stdio, the capabilities and the position-encoding negotiation. The negotiated encoding is an input.
- `crates/flir-lsp/src/lib.rs` and the CLI entry points are left out. They only start the server.
- JSON parsing of params is modelled only by the shape the params parse into. A parse failure is `ParamsError`.
- Logging (`tracing`, `eprintln!`) is left out. It has no effect on the protocol.
- `Session::update_document` applies incremental changes in code that is not part of this model (the session and document modules). It is a parameter (`Config.update`) that may fail.
- `client.rs` is not part of this model:
  - the error code of `to_lsp_error` without an explicit code is a parameter;
  - publishing and responding are modelled as appending to an outbox.
- Server.Session.CloseDocument: takes `close_document` to fail exactly when the document is not open, because the session module is not part of this model and its failure condition is not visible; `Server.DidCloseClears` rests on the same assumption.
- `std::process::exit` is modelled as setting the `exited` flag on the channels.
- `run_flir_linting` looks up the configuration and runs the engine on a file. It is a parameter: the engine as a function from a path to diagnostics or an error.
- Lint.RunFlirLinting: does not state the `Ok([])` that `run_flir_linting` returns for a path that is not valid UTF-8 (crates/flir-lsp/src/lint.rs:58-64), because a Dafny `string` cannot hold such a path; that case is left to the `engine` parameter.
- The bodies of the `any_is_na` and `any_duplicated` linters are not part of this model. The walk treats every linter as a parameter.
- `get_args`, `node_is_in_square_brackets` and `find_row_col` are not part of this model. They are parameters of the rules that call them.
- `fs.existsSync` and the `which` search are given as facts about the machine (`Binary.Setup`). The names of the bundled executable and the configuration values of editors/code/src/constants.ts are parameters too.
- Positions.ByteOffsetToLspPosition: does not model the `as u32` truncation of line and character, because a document would need more than 4 GiB of lines for it to matter.
- Positions.OffsetToPosition: does not model the `as u32` truncation either, for the same reason.
- The ANSI colours `Display` adds to the rendering are left out. `Messages.Display` renders the same text without them.
- The semantic diagnostics of `get_checks` are the empty list they are in the code. The semantic model's construction is left out: only `Scope::new` and `has_binding` are modelled.
- The integration tests spawn binaries and read files. They are left out; the unit tests of lint.rs, and the examples in the rules' test modules, are stated as lemmas.
- `ConvertToLspDiagnostic` uses the corrected conversion (`Positions.OffsetToPosition`). The as-written conversion is modelled beside it and related to it by `Positions.AsWrittenAgreesWithoutCr`.

## Findings

| source | as written | input that shows it | evidently intended | confidence | as-written member | corrected member |
|---|---|---|---|---|---|---|
| crates/flir-lsp/src/lint.rs:198 | the offset of the next line is taken as the end of the line plus one byte, but `lines()` has already stripped a '\r' before the '\n', so every line after a CRLF starts one byte too early | content "a\r\nb": offset 3 (the start of `b`) is converted to (1,1) and offset 4 (the end) to (2,0) | the start of `b` is (1,0) and the end is (1,1) | not executed | Positions.ByteOffsetToLspPosition, with Positions.CrLfShiftsLaterLines | Positions.OffsetToPosition, with Positions.PositionAtCharIndex |
| src/check_ast.rs:105-112 | an identifier, and any leaf that is not a container, walks its next sibling, while the parent's loop over its children (122-128) walks that sibling again | `x <- T` with a linter that reports start offsets gives [0, 0, 5, 5]: `T` is checked twice | each node checked once, in preorder: [0, 0, 5] | not executed | CheckAst.CheckAst, called by CheckAst.GetChecks, with CheckAst.DuplicateVisit | CheckAst.CheckTree, with CheckAst.PreorderVisitsOnce and CheckAst.VisitsEachNodeOnce |
