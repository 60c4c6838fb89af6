/**
  Converting a byte offset into an LSP position (`byte_offset_to_lsp_position`).

  The Language Server Protocol 3.17 ("Position" section) counts a position
  as a zero-based line and a character offset inside that line, measured in
  the code units of the negotiated `PositionEncodingKind`: UTF-8 bytes,
  UTF-16 code units or UTF-32 code units (Unicode scalar values).

  The conversion walks the lines that Rust's `str::lines` yields, keeping the
  byte offset where each line is assumed to start. `ByteOffsetToLspPosition`
  is that loop as written; `AsWrittenPosition` is the function it computes.
  Because the loop advances by one byte per line while `str::lines` also
  drops the '\r' of a "\r\n" ending, every "\r\n" shifts the rest of the
  document by a byte (`CrLfShiftsLaterLines`). `OffsetToPosition` is the
  conversion with that corrected: it agrees with the loop on content without
  '\r' (`AsWrittenAgreesWithoutCr`) and is characterised for all content by
  `PositionAtCharIndex`.
*/
module Positions {
  import opened Wrappers
  import opened Unicode

  /** The position encodings an LSP client can negotiate. */
  datatype PositionEncoding = UTF8 | UTF16 | UTF32

  /** An LSP position: zero-based line and character offset in the negotiated encoding. */
  datatype Position = Position(line: nat, character: nat)

  /** The error for an offset beyond the end of the content. */
  datatype PositionError = OutOfBounds(offset: nat, max: nat)

  // ----- Rust `str::lines` -------------------------------------------------

  /** Index of the first '\n' in `s`, or `|s|` when there is none. */
  function NewlineIndex(s: string): (i: nat)
    ensures i <= |s|
    ensures i < |s| ==> s[i] == '\n'
  {
    if s == [] || s[0] == '\n' then 0 else 1 + NewlineIndex(s[1..])
  }

  /** No '\n' comes before the first one. */
  lemma {:induction false} NoNewlineBefore(s: string)
    ensures forall j :: 0 <= j < NewlineIndex(s) ==> s[j] != '\n'
    decreases |s|
  {
    if s != [] && s[0] != '\n' {
      NoNewlineBefore(s[1..]);
    }
  }

  /** `line` without one trailing '\r'. */
  function StripCr(line: string): string
  {
    if line != [] && line[|line| - 1] == '\r' then line[..|line| - 1] else line
  }

  /**
    The lines of `s` as Rust's `str::lines` yields them: `s` is cut after
    every '\n'; a piece that ends in '\n' loses it and then one '\r' before
    it; a last piece without '\n' is kept whole; an empty string, or a final
    '\n', yields no empty last line.
  */
  function Lines(s: string): seq<string>
    decreases |s|
  {
    if s == [] then []
    else
      var i := NewlineIndex(s);
      if i == |s| then [s] else [StripCr(s[..i])] + Lines(s[i + 1..])
  }

  // ----- The scan --------------------------------------------------------------

  /**
    Where a scan over lines stops for an offset: inside a line, with the
    line's number, text and the byte column within it, or past the last line.
  */
  datatype Stop = InLine(line: nat, text: string, column: nat) | PastEnd(line: nat)

  /**
    The scan over `lines` for `offset`, where `lines[0]` is taken to start at
    byte `start` and to be line number `line`: the first line whose span
    `[start, start + length]` (end included) holds `offset`, the next line
    being taken to start one byte after the end of this one.
  */
  function Locate(lines: seq<string>, offset: nat, start: nat, line: nat): (st: Stop)
    requires start <= offset
    ensures st.InLine? ==> st.column <= ByteLen(st.text)
    decreases |lines|
  {
    if lines == [] then PastEnd(line)
    else if offset <= start + ByteLen(lines[0]) then InLine(line, lines[0], offset - start)
    else Locate(lines[1..], offset, start + ByteLen(lines[0]) + 1, line + 1)
  }

  /** The character slice the conversion takes is on a char boundary, or no slice is taken. */
  predicate Sliceable(st: Stop, encoding: PositionEncoding)
  {
    encoding == UTF8 || st.PastEnd? || IsCharBoundary(st.text, st.column)
  }

  /** The character offset for byte `column` of `text` in the given encoding. */
  function Character(text: string, column: nat, encoding: PositionEncoding): nat
    requires encoding == UTF8 || IsCharBoundary(text, column)
  {
    match encoding
    case UTF8 => column
    case UTF16 => Utf16Units(text[..CharIndex(text, column).value])
    case UTF32 => CharIndex(text, column).value
  }

  function PositionOf(st: Stop, encoding: PositionEncoding): Position
    requires Sliceable(st, encoding)
  {
    match st
    case InLine(line, text, column) => Position(line, Character(text, column, encoding))
    case PastEnd(line) => Position(line, 0)
  }

  /**
    The scan with each line taken to end at its '\n' (a "\r\n" line keeps
    its '\r'), walking the text itself: the first line, from byte `start`,
    whose span `[start, start + length]` holds `offset`, the next line
    starting one byte after the '\n'.
  */
  function Scan(s: string, offset: nat, start: nat, line: nat): (st: Stop)
    requires start <= offset
    ensures st.InLine? ==> st.column <= ByteLen(st.text)
    decreases |s|
  {
    if s == [] then PastEnd(line)
    else
      var i := NewlineIndex(s);
      if offset <= start + ByteLen(s[..i]) then InLine(line, s[..i], offset - start)
      else if i == |s| then PastEnd(line + 1)
      else Scan(s[i + 1..], offset, start + ByteLen(s[..i]) + 1, line + 1)
  }

  // ----- The conversion as written -----------------------------------------

  /** The offset is out of bounds, or the loop's prefix slice does not panic. */
  predicate AsWrittenDefined(content: string, offset: nat, encoding: PositionEncoding)
  {
    offset > ByteLen(content) || Sliceable(Locate(Lines(content), offset, 0, 0), encoding)
  }

  /** What `byte_offset_to_lsp_position` returns. */
  function AsWrittenPosition(content: string, offset: nat, encoding: PositionEncoding): (r: Result<Position, PositionError>)
    requires AsWrittenDefined(content, offset, encoding)
    ensures r.Err? <==> offset > ByteLen(content)
  {
    if offset > ByteLen(content) then Err(OutOfBounds(offset, ByteLen(content)))
    else Ok(PositionOf(Locate(Lines(content), offset, 0, 0), encoding))
  }

  function Min(a: nat, b: nat): nat { if a <= b then a else b }

  /**
    `byte_offset_to_lsp_position`: reject an offset past the end, then walk
    the lines of `content`, returning at the first line whose span holds the
    offset; an offset past every line gives (number of lines, 0).
  */
  method ByteOffsetToLspPosition(byteOffset: nat, content: string, encoding: PositionEncoding)
    returns (r: Result<Position, PositionError>)
    requires AsWrittenDefined(content, byteOffset, encoding)
    ensures r == AsWrittenPosition(content, byteOffset, encoding)
  {
    if byteOffset > ByteLen(content) {
      return Err(OutOfBounds(byteOffset, ByteLen(content)));
    }
    var currentOffset: nat := 0;
    var line: nat := 0;
    var lines := Lines(content);
    for i := 0 to |lines|
      invariant line == i
      invariant currentOffset <= byteOffset
      invariant Locate(lines, byteOffset, 0, 0) == Locate(lines[i..], byteOffset, currentOffset, line)
    {
      var lineContent := lines[i];
      var lineStart := currentOffset;
      var lineEnd := currentOffset + ByteLen(lineContent);
      if byteOffset <= lineEnd {
        var columnByteOffset := byteOffset - lineStart;
        var lspCharacter;
        match encoding {
          case UTF8 =>
            lspCharacter := columnByteOffset;
          case UTF16 =>
            var prefix := lineContent[..CharIndex(lineContent, Min(columnByteOffset, ByteLen(lineContent))).value];
            lspCharacter := Utf16Units(prefix);
          case UTF32 =>
            var prefix := lineContent[..CharIndex(lineContent, Min(columnByteOffset, ByteLen(lineContent))).value];
            lspCharacter := |prefix|;
        }
        return Ok(Position(line, lspCharacter));
      }
      assert lines[i..][1..] == lines[i + 1..];
      currentOffset := lineEnd + 1;
      line := line + 1;
    }
    return Ok(Position(line, 0));
  }

  // ----- The corrected conversion ------------------------------------------

  /** The offset is out of bounds or on a char boundary, where a slice is needed. */
  predicate OnBoundaryOrBeyond(content: string, offset: nat, encoding: PositionEncoding)
  {
    encoding == UTF8 || offset > ByteLen(content) || IsCharBoundary(content, offset)
  }

  /**
    Byte offset to LSP position with each line taken to end at its '\n'
    (a "\r\n" line keeps its '\r'), so that line starts stay exact.
  */
  function OffsetToPosition(content: string, offset: nat, encoding: PositionEncoding): (r: Result<Position, PositionError>)
    requires OnBoundaryOrBeyond(content, offset, encoding)
    ensures r.Err? <==> offset > ByteLen(content)
    ensures r.Err? ==> r.error == OutOfBounds(offset, ByteLen(content))
  {
    if offset > ByteLen(content) then Err(OutOfBounds(offset, ByteLen(content)))
    else
      ScanOnBoundary(content, offset, encoding);
      Ok(PositionOf(Scan(content, offset, 0, 0), encoding))
  }

  // ----- The reference: count newlines, measure the last line ----------------

  /** Number of '\n' in `s`. */
  function NewlinesIn(s: string): nat
  {
    if s == [] then 0
    else NewlinesIn(s[..|s| - 1]) + (if s[|s| - 1] == '\n' then 1 else 0)
  }

  /** The part of `s` after its last '\n' (all of `s` when it has none). */
  function LastLine(s: string): string
  {
    if s == [] then []
    else if s[|s| - 1] == '\n' then []
    else LastLine(s[..|s| - 1]) + [s[|s| - 1]]
  }

  /** Length of `s` in the code units of `encoding`. */
  function Measure(s: string, encoding: PositionEncoding): nat
  {
    match encoding
    case UTF8 => ByteLen(s)
    case UTF16 => Utf16Units(s)
    case UTF32 => |s|
  }

  lemma {:induction false} NewlinesAppend(a: string, b: string)
    ensures NewlinesIn(a + b) == NewlinesIn(a) + NewlinesIn(b)
    decreases |b|
  {
    if b == [] {
      assert a + b == a;
    } else {
      assert (a + b)[..|a + b| - 1] == a + b[..|b| - 1];
      NewlinesAppend(a, b[..|b| - 1]);
    }
  }

  lemma {:induction false} LastLineAfterNewline(a: string, b: string)
    ensures LastLine(a + ['\n'] + b) == LastLine(b)
    decreases |b|
  {
    if b == [] {
      assert a + ['\n'] + b == a + ['\n'];
    } else {
      assert (a + ['\n'] + b)[..|a + ['\n'] + b| - 1] == a + ['\n'] + b[..|b| - 1];
      LastLineAfterNewline(a, b[..|b| - 1]);
    }
  }

  lemma {:induction false} NoNewline(s: string)
    requires forall j :: 0 <= j < |s| ==> s[j] != '\n'
    ensures NewlinesIn(s) == 0 && LastLine(s) == s
  {
    if s != [] {
      NoNewline(s[..|s| - 1]);
      assert s == s[..|s| - 1] + [s[|s| - 1]];
    }
  }

  lemma ByteLenPrefix(s: string, k: nat)
    requires k <= |s|
    ensures ByteLen(s[..k]) <= ByteLen(s)
  {
    assert s == s[..k] + s[k..];
    ByteLenAppend(s[..k], s[k..]);
  }

  /** A line that holds the offset at char index `k` of itself. */
  lemma InLineAtCharIndex(text: string, k: nat, line: nat, encoding: PositionEncoding)
    requires k <= |text|
    requires forall j :: 0 <= j < k ==> text[j] != '\n'
    ensures Sliceable(InLine(line, text, ByteLen(text[..k])), encoding)
    ensures PositionOf(InLine(line, text, ByteLen(text[..k])), encoding)
            == Position(line + NewlinesIn(text[..k]), Measure(LastLine(text[..k]), encoding))
  {
    CharIndexOfPrefix(text, k);
    NoNewline(text[..k]);
  }

  /** Char index `k` past the first '\n' at index `i`: bytes, newlines and last line. */
  lemma PastFirstNewline(s: string, i: nat, k: nat)
    requires i < k <= |s| && s[i] == '\n'
    requires forall j :: 0 <= j < i ==> s[j] != '\n'
    ensures ByteLen(s[..k]) == ByteLen(s[..i]) + 1 + ByteLen(s[i + 1..][..k - i - 1])
    ensures NewlinesIn(s[..k]) == 1 + NewlinesIn(s[i + 1..][..k - i - 1])
    ensures LastLine(s[..k]) == LastLine(s[i + 1..][..k - i - 1])
  {
    var tail := s[i + 1..][..k - i - 1];
    assert s[..k] == s[..i] + ['\n'] + tail;
    ByteLenAppend(s[..i] + ['\n'], tail);
    ByteLenAppend(s[..i], ['\n']);
    assert ByteLen(['\n']) == 1;
    NewlinesAppend(s[..i] + ['\n'], tail);
    NewlinesAppend(s[..i], ['\n']);
    NoNewline(s[..i]);
    assert NewlinesIn(['\n']) == 1 by { assert ['\n'][..0] == []; }
    LastLineAfterNewline(s[..i], tail);
  }

  /** The scan stops in the first line when the offset's char index is on it. */
  lemma ScanInFirstLine(s: string, k: nat, start: nat, line: nat, encoding: PositionEncoding)
    requires k <= |s| && k <= NewlineIndex(s)
    ensures Sliceable(Scan(s, start + ByteLen(s[..k]), start, line), encoding)
    ensures PositionOf(Scan(s, start + ByteLen(s[..k]), start, line), encoding)
            == Position(line + NewlinesIn(s[..k]), Measure(LastLine(s[..k]), encoding))
  {
    var i := NewlineIndex(s);
    NoNewlineBefore(s);
    if s == [] {
      assert s[..k] == [];
    } else {
      assert s[..i][..k] == s[..k];
      ByteLenPrefix(s[..i], k);
      assert Scan(s, start + ByteLen(s[..k]), start, line) == InLine(line, s[..i], ByteLen(s[..i][..k]));
      InLineAtCharIndex(s[..i], k, line, encoding);
    }
  }

  /**
    Scanning `s` from byte `start` and line number `line` for the offset of
    its char index `k` stops where the newline count and the last line of
    `s[..k]` say.
  */
  lemma {:induction false} ScanAtCharIndex(s: string, k: nat, start: nat, line: nat, encoding: PositionEncoding)
    requires k <= |s|
    ensures Sliceable(Scan(s, start + ByteLen(s[..k]), start, line), encoding)
    ensures PositionOf(Scan(s, start + ByteLen(s[..k]), start, line), encoding)
            == Position(line + NewlinesIn(s[..k]), Measure(LastLine(s[..k]), encoding))
    decreases |s|
  {
    var i := NewlineIndex(s);
    if k <= i {
      ScanInFirstLine(s, k, start, line, encoding);
    } else {
      var rest, k', start' := s[i + 1..], k - i - 1, start + ByteLen(s[..i]) + 1;
      var offset := start + ByteLen(s[..k]);
      NoNewlineBefore(s);
      PastFirstNewline(s, i, k);
      assert offset == start' + ByteLen(rest[..k']);
      ScanPast(s, offset, start, line, i, start');
      ScanAtCharIndex(rest, k', start', line + 1, encoding);
      assert NewlinesIn(s[..k]) == 1 + NewlinesIn(rest[..k']);
      assert LastLine(s[..k]) == LastLine(rest[..k']);
    }
  }

  /** A boundary offset inside the content stops the corrected scan on a boundary of its line. */
  lemma ScanOnBoundary(content: string, offset: nat, encoding: PositionEncoding)
    requires OnBoundaryOrBeyond(content, offset, encoding)
    requires offset <= ByteLen(content)
    ensures Sliceable(Scan(content, offset, 0, 0), encoding)
  {
    if encoding != UTF8 {
      var k := CharIndex(content, offset).value;
      CharIndexBytes(content, offset);
      ScanAtCharIndex(content, k, 0, 0, encoding);
    }
  }

  /**
    The corrected conversion of the byte offset of char index `k`: the line
    is the number of '\n' before it, and the character is the length, in the
    negotiated encoding, of the text between the last of those '\n' and it.
  */
  lemma PositionAtCharIndex(content: string, k: nat, encoding: PositionEncoding)
    requires k <= |content|
    ensures OnBoundaryOrBeyond(content, ByteLen(content[..k]), encoding)
    ensures OffsetToPosition(content, ByteLen(content[..k]), encoding)
            == Ok(Position(NewlinesIn(content[..k]), Measure(LastLine(content[..k]), encoding)))
  {
    CharIndexOfPrefix(content, k);
    ByteLenPrefix(content, k);
    ScanAtCharIndex(content, k, 0, 0, encoding);
  }

  // ----- Agreement without '\r' --------------------------------------------

  /** Rust's lines of a text with a '\n' at index `NewlineIndex(s)`: the first line, then the lines after it. */
  lemma LinesUnfold(s: string)
    requires NewlineIndex(s) < |s|
    ensures Lines(s) == [StripCr(s[..NewlineIndex(s)])] + Lines(s[NewlineIndex(s) + 1..])
  {
  }

  lemma ConsParts<T>(head: T, tail: seq<T>)
    ensures ([head] + tail)[0] == head && ([head] + tail)[1..] == tail
  {
  }

  /** One step of the scan over lines. */
  lemma LocateCons(first: string, rest: seq<string>, offset: nat, start: nat, line: nat)
    requires start <= offset
    ensures Locate([first] + rest, offset, start, line)
            == if offset <= start + ByteLen(first) then InLine(line, first, offset - start)
               else Locate(rest, offset, start + ByteLen(first) + 1, line + 1)
  {
    ConsParts(first, rest);
  }

  /** The scan of the text moves past a first line that ends before the offset. */
  lemma ScanPast(s: string, offset: nat, start: nat, line: nat, i: nat, start': nat)
    requires i == NewlineIndex(s) < |s|
    requires start' == start + ByteLen(s[..i]) + 1 <= offset
    ensures Scan(s, offset, start, line) == Scan(s[i + 1..], offset, start', line + 1)
  {
  }

  /** The scan of the text stops in a first line, ended by '\n', that holds the offset. */
  lemma ScanStops(s: string, offset: nat, start: nat, line: nat, i: nat)
    requires i == NewlineIndex(s) < |s|
    requires start <= offset <= start + ByteLen(s[..i])
    ensures Scan(s, offset, start, line) == InLine(line, s[..i], offset - start)
  {
  }

  /** A line without '\r' loses nothing to `StripCr`. */
  lemma StripCrNoCr(line: string)
    requires forall j :: 0 <= j < |line| ==> line[j] != '\r'
    ensures StripCr(line) == line
  {
  }

  /** The last line, without '\n': one line, scanned alike. */
  lemma LocateIsScanLast(s: string, offset: nat, start: nat, line: nat)
    requires s != [] && NewlineIndex(s) == |s|
    requires start <= offset
    ensures Locate(Lines(s), offset, start, line) == Scan(s, offset, start, line)
  {
    assert Lines(s) == [s] + [];
    assert s[..|s|] == s;
    LocateCons(s, [], offset, start, line);
  }

  /** On text without '\r', the scan over Rust's lines is the scan of the text. */
  lemma {:induction false} LocateIsScan(s: string, offset: nat, start: nat, line: nat)
    requires forall j :: 0 <= j < |s| ==> s[j] != '\r'
    requires start <= offset
    ensures Locate(Lines(s), offset, start, line) == Scan(s, offset, start, line)
    decreases |s|
  {
    if s != [] {
      var i := NewlineIndex(s);
      if i == |s| {
        LocateIsScanLast(s, offset, start, line);
      } else {
        var first, rest := s[..i], s[i + 1..];
        var start' := start + ByteLen(first) + 1;
        StripCrNoCr(first);
        LinesUnfold(s);
        assert Lines(s) == [first] + Lines(rest);
        LocateCons(first, Lines(rest), offset, start, line);
        if start + ByteLen(first) < offset {
          ScanPast(s, offset, start, line, i, start');
          LocateIsScan(rest, offset, start', line + 1);
        } else {
          ScanStops(s, offset, start, line, i);
        }
      }
    }
  }

  /**
    On content without '\r' the loop as written and the corrected conversion
    give the same result for every offset the corrected one accepts.
  */
  lemma AsWrittenAgreesWithoutCr(content: string, offset: nat, encoding: PositionEncoding)
    requires forall j :: 0 <= j < |content| ==> content[j] != '\r'
    requires OnBoundaryOrBeyond(content, offset, encoding)
    ensures AsWrittenDefined(content, offset, encoding)
    ensures AsWrittenPosition(content, offset, encoding) == OffsetToPosition(content, offset, encoding)
  {
    if offset <= ByteLen(content) {
      LocateIsScan(content, offset, 0, 0);
      ScanOnBoundary(content, offset, encoding);
    }
  }

  // ----- Past the last line --------------------------------------------------

  /** The bytes of a text with a '\n' at index `i`: those before it, one, and those after it. */
  lemma SplitAtNewline(s: string, i: nat)
    requires i < |s| && s[i] == '\n'
    ensures ByteLen(s) == ByteLen(s[..i]) + 1 + ByteLen(s[i + 1..])
  {
    assert s == s[..i] + ['\n'] + s[i + 1..];
    ByteLenAppend(s[..i] + ['\n'], s[i + 1..]);
    ByteLenAppend(s[..i], ['\n']);
    assert ByteLen(['\n']) == 1;
  }

  lemma {:induction false} PastEndAt(s: string, offset: nat, start: nat, line: nat)
    requires forall j :: 0 <= j < |s| ==> s[j] != '\r'
    requires start <= offset <= start + ByteLen(s)
    ensures Locate(Lines(s), offset, start, line).PastEnd? ==>
              && offset == start + ByteLen(s)
              && (s == [] || s[|s| - 1] == '\n')
              && Locate(Lines(s), offset, start, line).line == line + |Lines(s)|
    decreases |s|
  {
    LocateIsScan(s, offset, start, line);
    if s != [] {
      var i := NewlineIndex(s);
      if i == |s| {
        assert s[..i] == s;
      } else {
        var first, rest := s[..i], s[i + 1..];
        var start' := start + ByteLen(first) + 1;
        SplitAtNewline(s, i);
        StripCrNoCr(first);
        LinesUnfold(s);
        assert |Lines(s)| == 1 + |Lines(rest)|;
        if start + ByteLen(first) < offset {
          ScanPast(s, offset, start, line, i, start');
          PastEndAt(rest, offset, start', line + 1);
          LocateIsScan(rest, offset, start', line + 1);
          if rest == [] {
            assert s[|s| - 1] == s[i];
          } else {
            assert s[|s| - 1] == rest[|rest| - 1];
          }
        } else {
          ScanStops(s, offset, start, line, i);
        }
      }
    }
  }

  /**
    The loop runs past every line only for the offset at the very end of an
    empty document or of one that ends in '\n', and then answers
    (number of lines, 0).
  */
  lemma AsWrittenPastEnd(content: string, offset: nat, encoding: PositionEncoding)
    requires forall j :: 0 <= j < |content| ==> content[j] != '\r'
    requires offset <= ByteLen(content)
    requires Locate(Lines(content), offset, 0, 0).PastEnd?
    ensures offset == ByteLen(content)
    ensures content == [] || content[|content| - 1] == '\n'
    ensures AsWrittenDefined(content, offset, encoding)
    ensures AsWrittenPosition(content, offset, encoding) == Ok(Position(|Lines(content)|, 0))
  {
    PastEndAt(content, offset, 0, 0);
  }

  // ----- Worked examples -------------------------------------------------------

  lemma NewlineCount(a: string, b: string)
    ensures NewlinesIn(a + ['\n'] + b) == NewlinesIn(a) + 1 + NewlinesIn(b)
  {
    NewlinesAppend(a + ['\n'], b);
    NewlinesAppend(a, ['\n']);
    assert NewlinesIn(['\n']) == 1 by { assert ['\n'][..0] == []; }
  }

  /** Rust's lines of `a` + "\n" + `b`, for `a` without '\n'. */
  lemma {:induction false} LinesAroundNewline(a: string, b: string)
    requires forall j :: 0 <= j < |a| ==> a[j] != '\n'
    ensures Lines(a + ['\n'] + b) == [StripCr(a)] + Lines(b)
  {
    var s := a + ['\n'] + b;
    NewlineIndexAt(a, b);
    assert s[..|a|] == a && s[|a| + 1..] == b;
  }

  lemma {:induction false} NewlineIndexAt(a: string, b: string)
    requires forall j :: 0 <= j < |a| ==> a[j] != '\n'
    ensures NewlineIndex(a + ['\n'] + b) == |a|
    decreases |a|
  {
    if a != [] {
      assert (a + ['\n'] + b)[1..] == a[1..] + ['\n'] + b;
      NewlineIndexAt(a[1..], b);
    }
  }

  /** "hello\nworld\ntest" has no '\r'. */
  lemma HelloWorldNoCr(c: string)
    requires c == "hello\nworld\ntest"
    ensures forall j :: 0 <= j < |c| ==> c[j] != '\r'
  {
  }

  /** "hello\nworld\ntest" is 16 bytes long. */
  lemma HelloWorldBytes(c: string)
    requires c == "hello\nworld\ntest"
    ensures ByteLen(c) == 16
  {
    AsciiByteLen(c);
  }

  /** Its first 7 chars, "hello\nw", are 7 bytes long. */
  lemma HelloWorldPrefixBytes(c: string)
    requires c == "hello\nworld\ntest"
    ensures ByteLen(c[..7]) == 7
  {
    AsciiByteLen(c[..7]);
  }

  /** "hello\nworld\ntest" has two '\n'. */
  lemma HelloWorldNewlines(c: string)
    requires c == "hello\nworld\ntest"
    ensures NewlinesIn(c) == 2
  {
    var a := "world" + ['\n'] + "test";
    assert c == "hello" + ['\n'] + a;
    NewlineCount("hello", a);
    NewlineCount("world", "test");
    NoNewline("hello");
    NoNewline("world");
    NoNewline("test");
  }

  /** "hello\nworld\ntest" ends in the line "test". */
  lemma HelloWorldLastLine(c: string)
    requires c == "hello\nworld\ntest"
    ensures LastLine(c) == "test"
  {
    var a := "world" + ['\n'] + "test";
    assert c == "hello" + ['\n'] + a;
    LastLineAfterNewline("hello", a);
    LastLineAfterNewline("world", "test");
    NoNewline("test");
  }

  /** Its first 7 chars, "hello\nw", hold one '\n' and end in the line "w". */
  lemma HelloWorldPrefix(c: string)
    requires c == "hello\nworld\ntest"
    ensures NewlinesIn(c[..7]) == 1 && LastLine(c[..7]) == "w"
  {
    assert c[..7] == "hello" + ['\n'] + "w";
    NewlineCount("hello", "w");
    NoNewline("hello");
    NoNewline("w");
    LastLineAfterNewline("hello", "w");
  }

  /** The document of the conversion's unit test: offset 0 is (0, 0), and offset 1000 is out of bounds. */
  lemma HelloWorldStartAndBeyond(c: string)
    requires c == "hello\nworld\ntest"
    ensures AsWrittenDefined(c, 0, UTF8) && AsWrittenPosition(c, 0, UTF8) == Ok(Position(0, 0))
    ensures AsWrittenDefined(c, 1000, UTF8) && AsWrittenPosition(c, 1000, UTF8) == Err(OutOfBounds(1000, 16))
  {
    HelloWorldNoCr(c);
    HelloWorldBytes(c);
    assert c[..0] == [];
    PositionAtCharIndex(c, 0, UTF8);
    AsWrittenAgreesWithoutCr(c, 0, UTF8);
  }

  /** The 'w' of "world", at offset 7, is (1, 1). */
  lemma HelloWorldSecondLine(c: string)
    requires c == "hello\nworld\ntest"
    ensures AsWrittenDefined(c, 7, UTF8) && AsWrittenPosition(c, 7, UTF8) == Ok(Position(1, 1))
  {
    HelloWorldNoCr(c);
    HelloWorldPrefixBytes(c);
    HelloWorldPrefix(c);
    AsciiByteLen("w");
    PositionAtCharIndex(c, 7, UTF8);
    AsWrittenAgreesWithoutCr(c, 7, UTF8);
  }

  /** The end of the document, offset 16, is (2, 4), after "test". */
  lemma HelloWorldEnd(c: string)
    requires c == "hello\nworld\ntest"
    ensures AsWrittenDefined(c, 16, UTF8) && AsWrittenPosition(c, 16, UTF8) == Ok(Position(2, 4))
  {
    HelloWorldNoCr(c);
    HelloWorldBytes(c);
    HelloWorldNewlines(c);
    HelloWorldLastLine(c);
    AsciiByteLen("test");
    assert c[..16] == c;
    PositionAtCharIndex(c, 16, UTF8);
    AsWrittenAgreesWithoutCr(c, 16, UTF8);
  }

  /** "hello \U{1F30D} world" has no '\r'. */
  lemma EmojiNoCr(c: string)
    requires c == "hello \U{1F30D} world"
    ensures forall j :: 0 <= j < |c| ==> c[j] != '\r'
  {
  }

  /** Its first 6 chars, "hello ", are 6 bytes and 6 UTF-16 units, on one line. */
  lemma EmojiBefore(c: string)
    requires c == "hello \U{1F30D} world"
    ensures ByteLen(c[..6]) == 6 && Utf16Units(c[..6]) == 6
    ensures NewlinesIn(c[..6]) == 0 && LastLine(c[..6]) == c[..6]
  {
    var p := c[..6];
    assert p == "hello ";
    AsciiByteLen(p);
    BmpUtf16Units(p);
    NoNewline(p);
  }

  /** Its first 7 chars, up to and including the globe, are 10 bytes and 8 UTF-16 units, on one line. */
  lemma EmojiAfter(c: string)
    requires c == "hello \U{1F30D} world"
    ensures ByteLen(c[..7]) == 10 && Utf16Units(c[..7]) == 8
    ensures NewlinesIn(c[..7]) == 0 && LastLine(c[..7]) == c[..7]
  {
    EmojiBefore(c);
    var g := ['\U{1F30D}'];
    assert c[..7] == c[..6] + g;
    ByteLenAppend(c[..6], g);
    Utf16UnitsAppend(c[..6], g);
    assert ByteLen(g) == 4 && Utf16Units(g) == 2;
    NoNewline(c[..7]);
  }

  /**
    The multi-byte test: in "hello \U{1F30D} world" the globe takes 4 UTF-8
    bytes, 2 UTF-16 units and 1 scalar value, so byte 6 is character 6 in
    every encoding and byte 10, just after it, is 10, 8 or 7.
  */
  lemma EmojiColumns(c: string, encoding: PositionEncoding)
    requires c == "hello \U{1F30D} world"
    ensures OnBoundaryOrBeyond(c, 6, encoding) && OnBoundaryOrBeyond(c, 10, encoding)
    ensures OffsetToPosition(c, 6, encoding) == Ok(Position(0, 6))
    ensures OffsetToPosition(c, 10, encoding)
            == Ok(Position(0, match encoding case UTF8 => 10 case UTF16 => 8 case UTF32 => 7))
    ensures AsWrittenDefined(c, 6, encoding) && AsWrittenPosition(c, 6, encoding) == Ok(Position(0, 6))
    ensures AsWrittenDefined(c, 10, encoding)
    ensures AsWrittenPosition(c, 10, encoding) == OffsetToPosition(c, 10, encoding)
  {
    EmojiNoCr(c);
    EmojiBefore(c);
    EmojiAfter(c);
    PositionAtCharIndex(c, 6, encoding);
    PositionAtCharIndex(c, 7, encoding);
    AsWrittenAgreesWithoutCr(c, 6, encoding);
    AsWrittenAgreesWithoutCr(c, 10, encoding);
  }

  /** Rust's lines of "a\r\nb", and the counts of its prefixes of 3 and 4 chars. */
  lemma CrLfFacts(c: string)
    requires c == "a\r\nb"
    ensures ByteLen(c) == 4 && Lines(c) == ["a", "b"]
    ensures ByteLen("a") == 1 && ByteLen("b") == 1
    ensures ByteLen(c[..3]) == 3 && NewlinesIn(c[..3]) == 1 && LastLine(c[..3]) == []
    ensures NewlinesIn(c) == 1 && LastLine(c) == "b"
  {
    assert c == "a\r" + ['\n'] + "b";
    AsciiByteLen(c);
    LinesAroundNewline("a\r", "b");
    assert StripCr("a\r") == "a";
    assert NewlineIndex("b") == 1;
    AsciiByteLen("a");
    AsciiByteLen("b");
    var p3 := c[..3];
    assert p3 == "a\r" + ['\n'];
    AsciiByteLen(p3);
    NewlinesAppend("a\r", ['\n']);
    NoNewline("a\r");
    assert NewlinesIn(['\n']) == 1 by { assert ['\n'][..0] == []; }
    NewlineCount("a\r", "b");
    NoNewline("b");
    LastLineAfterNewline("a\r", "b");
  }

  /**
    The "\r\n" drift: in "a\r\nb" byte 3 is the 'b' at (1, 0), but the loop
    as written takes line 1 to start at byte 2 and answers (1, 1); the end
    of the document, byte 4, is (1, 1) and the loop answers (2, 0).
  */
  lemma CrLfShiftsLaterLines(c: string)
    requires c == "a\r\nb"
    ensures AsWrittenDefined(c, 3, UTF8) && AsWrittenDefined(c, 4, UTF8)
    ensures AsWrittenPosition(c, 3, UTF8) == Ok(Position(1, 1))
    ensures OffsetToPosition(c, 3, UTF8) == Ok(Position(1, 0))
    ensures AsWrittenPosition(c, 4, UTF8) == Ok(Position(2, 0))
    ensures OffsetToPosition(c, 4, UTF8) == Ok(Position(1, 1))
  {
    CrLfFacts(c);
    var lines := Lines(c);
    assert lines[1..] == ["b"] && lines[1..][1..] == [];
    assert Locate(lines, 3, 0, 0) == Locate(lines[1..], 3, 2, 1) == InLine(1, "b", 1);
    assert Locate(lines, 4, 0, 0) == Locate(lines[1..], 4, 2, 1);
    assert Locate(lines[1..], 4, 2, 1) == Locate(lines[1..][1..], 4, 4, 2) == PastEnd(2);
    PositionAtCharIndex(c, 3, UTF8);
    assert c[..4] == c;
    PositionAtCharIndex(c, 4, UTF8);
  }
}
