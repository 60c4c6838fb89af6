/**
  The bridge from the lint engine to LSP diagnostics
  (`crates/flir-lsp/src/lint.rs`): every engine diagnostic carries a byte
  range into the document; `ConvertToLspDiagnostic` turns it into an LSP
  diagnostic whose range is made of LSP positions, and `LintDocument` does
  so for the whole engine result, failing as a whole on the first
  diagnostic that cannot be converted.
*/
module Lint {
  import opened Wrappers
  import opened Unicode
  import opened Positions
  import Messages

  /** The `source` of every diagnostic this server publishes (`DIAGNOSTIC_SOURCE`). */
  const DIAGNOSTIC_SOURCE: string := "Flir"

  /** LSP `DiagnosticSeverity`. */
  datatype Severity = Error | Warning | Information | Hint

  datatype LspRange = LspRange(start: Position, end: Position)

  /** An LSP `Diagnostic`; related information, tags and data are kept abstract. */
  datatype LspDiagnostic = LspDiagnostic(
    range: LspRange,
    severity: Option<Severity>,
    code: Option<string>,
    codeDescription: Option<string>,
    source: Option<string>,
    message: string,
    relatedInformation: Option<seq<string>>,
    tags: Option<seq<nat>>,
    data: Option<string>)

  /** What the worker knows of an open document when it lints it. */
  datatype DocumentSnapshot = DocumentSnapshot(
    uri: string,
    content: string,
    version: int,
    languageId: Option<string>,
    encoding: PositionEncoding,
    filePath: Option<string>)

  /** Why linting a document failed. */
  datatype LintError = EngineError(reason: string) | ConversionError(error: PositionError)

  // ----- One diagnostic --------------------------------------------------------

  /**
    Converting the diagnostic's range does not panic: the start is out of
    bounds or on a char boundary, and so is the end whenever the start
    converts (an out-of-bounds start is reported before the end is looked at).
  */
  predicate Convertible(d: Messages.Diagnostic, content: string, encoding: PositionEncoding)
  {
    && OnBoundaryOrBeyond(content, d.range.start, encoding)
    && (d.range.start <= ByteLen(content) ==> OnBoundaryOrBeyond(content, d.range.end, encoding))
  }

  /** Both ends of the diagnostic's range lie within the content. */
  predicate InBounds(d: Messages.Diagnostic, content: string)
  {
    d.range.start <= ByteLen(content) && d.range.end <= ByteLen(content)
  }

  /** The fixed fields of every converted diagnostic. */
  predicate FlirShaped(l: LspDiagnostic, d: Messages.Diagnostic)
  {
    && l.severity == Some(Warning)
    && l.code == Some(d.message.name)
    && l.codeDescription.None?
    && l.source == Some(DIAGNOSTIC_SOURCE)
    && l.message == d.message.body
    && l.relatedInformation.None?
    && l.tags.None?
    && l.data.None?
  }

  /**
    `convert_to_lsp_diagnostic`: both ends of the range are converted with
    the same encoding (the start first, so its error wins), and the rule's
    name and body become the code and the message of a warning from "Flir".
  */
  function ConvertToLspDiagnostic(d: Messages.Diagnostic, content: string, encoding: PositionEncoding)
    : (r: Result<LspDiagnostic, PositionError>)
    requires Convertible(d, content, encoding)
    ensures r.Ok? <==> InBounds(d, content)
    ensures r.Err? && d.range.start > ByteLen(content) ==> r.error == OutOfBounds(d.range.start, ByteLen(content))
    ensures r.Err? && d.range.start <= ByteLen(content) ==> r.error == OutOfBounds(d.range.end, ByteLen(content))
    ensures r.Ok? ==> FlirShaped(r.value, d)
  {
    var start := OffsetToPosition(content, d.range.start, encoding);
    if start.Err? then Err(start.error)
    else
      var end := OffsetToPosition(content, d.range.end, encoding);
      if end.Err? then Err(end.error)
      else
        Ok(LspDiagnostic(
          LspRange(start.value, end.value),
          Some(Warning),
          Some(d.message.name),
          None,
          Some(DIAGNOSTIC_SOURCE),
          d.message.body,
          None,
          None,
          None))
  }

  /**
    A diagnostic whose range runs from char index `i` to char index `j` of
    the content gets, for each end, the line counted in '\n' before it and
    the character measured in the negotiated encoding since the last '\n'.
  */
  lemma ConvertedRange(d: Messages.Diagnostic, content: string, encoding: PositionEncoding, i: nat, j: nat)
    requires i <= |content| && j <= |content|
    requires d.range.start == ByteLen(content[..i]) && d.range.end == ByteLen(content[..j])
    ensures Convertible(d, content, encoding)
    ensures ConvertToLspDiagnostic(d, content, encoding).Ok?
    ensures ConvertToLspDiagnostic(d, content, encoding).value.range == LspRange(
              Position(NewlinesIn(content[..i]), Measure(LastLine(content[..i]), encoding)),
              Position(NewlinesIn(content[..j]), Measure(LastLine(content[..j]), encoding)))
  {
    PositionAtCharIndex(content, i, encoding);
    PositionAtCharIndex(content, j, encoding);
    ByteLenPrefix(content, i);
    ByteLenPrefix(content, j);
  }

  // ----- All diagnostics -------------------------------------------------------

  /** The loop of `lint_document` gets to diagnostic `k`: every diagnostic before it converts. */
  predicate Reached(ds: seq<Messages.Diagnostic>, content: string, k: nat)
    requires k <= |ds|
  {
    forall m :: 0 <= m < k ==> InBounds(ds[m], content)
  }

  /** Every diagnostic the loop gets to can be converted without a panic. */
  predicate AllConvertible(ds: seq<Messages.Diagnostic>, content: string, encoding: PositionEncoding)
  {
    forall k :: 0 <= k < |ds| && Reached(ds, content, k) ==> Convertible(ds[k], content, encoding)
  }

  /**
    The conversion of every diagnostic in order: one LSP diagnostic per
    engine diagnostic when all convert, otherwise the error of the first
    that does not.
  */
  function ConvertAll(ds: seq<Messages.Diagnostic>, content: string, encoding: PositionEncoding)
    : (r: Result<seq<LspDiagnostic>, PositionError>)
    requires AllConvertible(ds, content, encoding)
    ensures r.Ok? <==> Reached(ds, content, |ds|)
    ensures r.Ok? ==> |r.value| == |ds|
                      && forall k :: 0 <= k < |ds| ==>
                           Reached(ds, content, k) && r.value[k] == ConvertToLspDiagnostic(ds[k], content, encoding).value
    ensures r.Err? ==> exists k :: 0 <= k < |ds| && Reached(ds, content, k)
                        && ConvertToLspDiagnostic(ds[k], content, encoding) == Err(r.error)
  {
    if ds == [] then Ok([])
    else
      assert Reached(ds, content, 0);
      var first := ConvertToLspDiagnostic(ds[0], content, encoding);
      if first.Err? then Err(first.error)
      else
        AllConvertibleTail(ds, content, encoding);
        var rest := ConvertAll(ds[1..], content, encoding);
        if rest.Err? then
          FailureLater(ds, content, encoding, rest.error);
          Err(rest.error)
        else
          ReachedTail(ds, content, |ds| - 1);
          var r := [first.value] + rest.value;
          forall k | 0 <= k < |ds|
            ensures Reached(ds, content, k) && r[k] == ConvertToLspDiagnostic(ds[k], content, encoding).value
          {
            if k > 0 { ReachedTail(ds, content, k - 1); }
          }
          Ok(r)
  }

  /** Past a first diagnostic that converts, reaching `k` more of them is reaching `k + 1` of all. */
  lemma ReachedTail(ds: seq<Messages.Diagnostic>, content: string, k: nat)
    requires ds != [] && InBounds(ds[0], content) && k < |ds|
    ensures Reached(ds[1..], content, k) <==> Reached(ds, content, k + 1)
  {
    assert forall m :: 0 <= m < k ==> ds[1..][m] == ds[m + 1];
    if Reached(ds, content, k + 1) {
      forall m | 0 <= m < k ensures InBounds(ds[1..][m], content) {
        assert InBounds(ds[m + 1], content);
      }
    }
    if Reached(ds[1..], content, k) {
      forall m | 0 <= m < k + 1 ensures InBounds(ds[m], content) {
        if m > 0 { assert ds[m] == ds[1..][m - 1]; }
      }
    }
  }

  lemma AllConvertibleTail(ds: seq<Messages.Diagnostic>, content: string, encoding: PositionEncoding)
    requires ds != [] && AllConvertible(ds, content, encoding) && InBounds(ds[0], content)
    ensures AllConvertible(ds[1..], content, encoding)
  {
    forall k | 0 <= k < |ds[1..]| && Reached(ds[1..], content, k)
      ensures Convertible(ds[1..][k], content, encoding)
    {
      ReachedTail(ds, content, k);
      assert ds[1..][k] == ds[k + 1];
    }
  }

  /** A first failure among all but the first diagnostic, when the first converts, is the first failure of all. */
  lemma FailureLater(ds: seq<Messages.Diagnostic>, content: string, encoding: PositionEncoding, e: PositionError)
    requires ds != [] && AllConvertible(ds, content, encoding) && InBounds(ds[0], content)
    requires AllConvertible(ds[1..], content, encoding)
    requires exists k :: 0 <= k < |ds| - 1 && Reached(ds[1..], content, k)
               && ConvertToLspDiagnostic(ds[1..][k], content, encoding) == Err(e)
    ensures exists k :: 0 <= k < |ds| && Reached(ds, content, k)
              && ConvertToLspDiagnostic(ds[k], content, encoding) == Err(e)
  {
    var k :| 0 <= k < |ds| - 1 && Reached(ds[1..], content, k)
             && ConvertToLspDiagnostic(ds[1..][k], content, encoding) == Err(e);
    ReachedTail(ds, content, k);
    assert ds[k + 1] == ds[1..][k];
  }

  /**
    The visible part of `run_flir_linting`: without a file path there is
    nothing to lint; otherwise the engine, which reads the file at that
    path, decides.
  */
  function RunFlirLinting(filePath: Option<string>, engine: string -> Result<seq<Messages.Diagnostic>, string>)
    : (r: Result<seq<Messages.Diagnostic>, string>)
    ensures filePath.None? ==> r == Ok([])
    ensures filePath.Some? ==> r == engine(filePath.value)
  {
    if filePath.None? then Ok([]) else engine(filePath.value)
  }

  /** Every diagnostic of the engine's that the conversion loop gets to can be converted without a panic. */
  predicate LintDefined(snapshot: DocumentSnapshot, engine: string -> Result<seq<Messages.Diagnostic>, string>)
  {
    var found := RunFlirLinting(snapshot.filePath, engine);
    found.Ok? ==> AllConvertible(found.value, snapshot.content, snapshot.encoding)
  }

  /** What `lint_document` returns for a snapshot. */
  function LintResult(snapshot: DocumentSnapshot, engine: string -> Result<seq<Messages.Diagnostic>, string>)
    : Result<seq<LspDiagnostic>, LintError>
    requires LintDefined(snapshot, engine)
  {
    var found := RunFlirLinting(snapshot.filePath, engine);
    if found.Err? then Err(EngineError(found.error))
    else
      var converted := ConvertAll(found.value, snapshot.content, snapshot.encoding);
      if converted.Err? then Err(ConversionError(converted.error)) else Ok(converted.value)
  }

  /**
    `lint_document`: run the engine, then convert its diagnostics one by
    one, giving up on the first that fails.
  */
  method LintDocument(snapshot: DocumentSnapshot, engine: string -> Result<seq<Messages.Diagnostic>, string>)
    returns (r: Result<seq<LspDiagnostic>, LintError>)
    requires LintDefined(snapshot, engine)
    ensures r == LintResult(snapshot, engine)
  {
    var content := snapshot.content;
    var encoding := snapshot.encoding;
    var found := RunFlirLinting(snapshot.filePath, engine);
    if found.Err? {
      return Err(EngineError(found.error));
    }
    var flirDiagnostics := found.value;
    var lspDiagnostics: seq<LspDiagnostic> := [];
    for i := 0 to |flirDiagnostics|
      invariant |lspDiagnostics| == i
      invariant Reached(flirDiagnostics, content, i)
      invariant forall k :: 0 <= k < i ==>
                  Reached(flirDiagnostics, content, k) && lspDiagnostics[k] == ConvertToLspDiagnostic(flirDiagnostics[k], content, encoding).value
    {
      var converted := ConvertToLspDiagnostic(flirDiagnostics[i], content, encoding);
      if converted.Err? {
        FirstFailure(flirDiagnostics, content, encoding, i);
        return Err(ConversionError(converted.error));
      }
      lspDiagnostics := lspDiagnostics + [converted.value];
    }
    ghost var all := ConvertAll(flirDiagnostics, content, encoding);
    assert all.Ok? && all.value == lspDiagnostics;
    return Ok(lspDiagnostics);
  }

  /** When diagnostic `i` is the first that fails, `ConvertAll` fails with its error. */
  lemma FirstFailure(ds: seq<Messages.Diagnostic>, content: string, encoding: PositionEncoding, i: nat)
    requires AllConvertible(ds, content, encoding)
    requires i < |ds| && Reached(ds, content, i) && !InBounds(ds[i], content)
    ensures ConvertAll(ds, content, encoding) == Err(ConvertToLspDiagnostic(ds[i], content, encoding).error)
  {
    var r := ConvertAll(ds, content, encoding);
    var k :| 0 <= k < |ds| && Reached(ds, content, k)
             && ConvertToLspDiagnostic(ds[k], content, encoding) == Err(r.error);
    if k != i {
      assert false;
    }
  }

  /** A document without a file path is linted to no diagnostics. */
  lemma NoPathNoDiagnostics(snapshot: DocumentSnapshot, engine: string -> Result<seq<Messages.Diagnostic>, string>)
    requires snapshot.filePath.None?
    ensures LintDefined(snapshot, engine) && LintResult(snapshot, engine) == Ok([])
  {
    assert Reached([], snapshot.content, 0);
  }

  /**
    The conversion stops at the first diagnostic out of bounds and never
    looks at the later ones: in "é" (two bytes) under UTF-16, a diagnostic
    at byte 5 followed by one inside the "é" fails with the error for byte 5.
  */
  lemma StopsAtFirstOutOfBounds(content: string, d: Messages.Diagnostic, e: Messages.Diagnostic)
    requires content == "\U{E9}"
    requires d.range == Messages.TextRange(5, 5) && e.range == Messages.TextRange(1, 1)
    ensures !Convertible(e, content, UTF16)
    ensures AllConvertible([d, e], content, UTF16)
    ensures ConvertAll([d, e], content, UTF16) == Err(OutOfBounds(5, 2))
  {
    assert ByteLen(content) == 2;
    assert !IsCharBoundary(content, 1);
    assert [d, e][0] == d && !InBounds(d, content);
    assert !Reached([d, e], content, 1);
  }
}
