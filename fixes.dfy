/**
  Applying fixes to a file's contents (`src/fix.rs`). This file belongs to
  a version of the engine whose `Message` enum has one variant per rule,
  each carrying a fix whose `offset_change_before` says by how many bytes
  the fix is taken to change the length of the text. The fixes are applied
  in list order to one buffer; fix k is applied at its range moved by the
  sum of the `offset_change_before` of the fixes before it. Offsets go
  through `i32`, so they must fit it, and the buffer's `replace_range`
  needs both ends of the moved range on char boundaries.
*/
module Fixes {
  import opened Wrappers
  import opened Unicode

  /** A fix of this engine version: replace bytes `[start, end)` by `content`. */
  datatype EditFix = EditFix(content: string, start: nat, end: nat, offsetChangeBefore: int)

  /** The engine's messages of this version; only their fixes matter here. */
  datatype Message = AnyDuplicated(fix: EditFix) | AnyIsNa(fix: EditFix) | TrueFalseSymbol(fix: EditFix)

  const I32_MIN: int := -0x8000_0000
  const I32_MAX: int := 0x7FFF_FFFF

  predicate InI32(x: int) { I32_MIN <= x <= I32_MAX }

  /** The fixes of the messages, in order. */
  function FixesOf(messages: seq<Message>): (fixes: seq<EditFix>)
    ensures |fixes| == |messages|
    ensures forall k :: 0 <= k < |messages| ==> fixes[k] == messages[k].fix
  {
    if messages == [] then [] else [messages[0].fix] + FixesOf(messages[1..])
  }

  /** The shift applied to fix `k`: the `offsetChangeBefore` of fixes `0 .. k - 1` added up. */
  function Shift(fixes: seq<EditFix>, k: nat): int
    requires k <= |fixes|
  {
    if k == 0 then 0 else Shift(fixes, k - 1) + fixes[k - 1].offsetChangeBefore
  }

  /** `String::replace_range(start..end, content)` on byte offsets. */
  function Splice(s: string, start: nat, end: nat, content: string): string
    requires IsCharBoundary(s, start) && IsCharBoundary(s, end)
  {
    s[..CharIndex(s, start).value] + content + s[CharIndex(s, end).value..]
  }

  /**
    Fix `f`, moved by `shift`, can be applied to `s` without a panic: its
    offsets fit `i32` before and after the move, the accumulated shift does
    not overflow, and the moved range is a well-ordered pair of char
    boundaries of `s`.
  */
  predicate Applicable(f: EditFix, shift: int, s: string)
  {
    && InI32(f.start) && InI32(f.end) && InI32(shift) && InI32(f.offsetChangeBefore)
    && InI32(f.start + shift) && InI32(f.end + shift) && InI32(shift + f.offsetChangeBefore)
    && 0 <= f.start + shift <= f.end + shift
    && IsCharBoundary(s, f.start + shift) && IsCharBoundary(s, f.end + shift)
  }

  /** One step of the loop: fix `f` moved by `shift`, or `None` when it would panic. */
  function Step(f: EditFix, shift: int, s: string): (r: Option<string>)
    ensures r.Some? <==> Applicable(f, shift, s)
  {
    if Applicable(f, shift, s) then Some(Splice(s, f.start + shift, f.end + shift, f.content)) else None
  }

  /**
    The buffer after the first `k` fixes, or `None` when one of them would
    panic.
  */
  function Run(fixes: seq<EditFix>, s: string, k: nat): Option<string>
    requires k <= |fixes|
  {
    if k == 0 then Some(s)
    else
      match Run(fixes, s, k - 1)
      case None => None
      case Some(before) => Step(fixes[k - 1], Shift(fixes, k - 1), before)
  }

  /** If all `n` fixes apply, so do the first `k`. */
  lemma {:induction false} RunPrefix(fixes: seq<EditFix>, s: string, k: nat, n: nat)
    requires k <= n <= |fixes|
    requires Run(fixes, s, n).Some?
    ensures Run(fixes, s, k).Some?
    decreases n - k
  {
    if k < n {
      assert Run(fixes, s, n - 1).Some?;
      RunPrefix(fixes, s, k, n - 1);
    }
  }

  /** When the first `k + 1` fixes apply, fix `k` applies to the buffer left by the ones before it, at its moved range. */
  lemma RunNext(fixes: seq<EditFix>, s: string, k: nat, before: string, start: int, end: int)
    requires k < |fixes| && Run(fixes, s, k + 1).Some?
    requires Run(fixes, s, k) == Some(before)
    requires start == fixes[k].start + Shift(fixes, k) && end == fixes[k].end + Shift(fixes, k)
    ensures 0 <= start <= end && IsCharBoundary(before, start) && IsCharBoundary(before, end)
    ensures InI32(Shift(fixes, k + 1))
    ensures Run(fixes, s, k + 1) == Some(Splice(before, start, end, fixes[k].content))
  {
    RunUnfold(fixes, s, k);
    StepAt(fixes[k], Shift(fixes, k), before, start, end);
  }

  /** One turn of the loop of `apply_fixes`, once all the fixes are known to apply. */
  lemma LoopStep(fixes: seq<EditFix>, s: string, k: nat, before: string, start: int, end: int)
    requires k < |fixes| && Run(fixes, s, |fixes|).Some?
    requires Run(fixes, s, k) == Some(before)
    requires start == fixes[k].start + Shift(fixes, k) && end == fixes[k].end + Shift(fixes, k)
    ensures 0 <= start <= end && IsCharBoundary(before, start) && IsCharBoundary(before, end)
    ensures Run(fixes, s, k + 1) == Some(Splice(before, start, end, fixes[k].content))
  {
    assert Run(fixes, s, k + 1).Some? by { RunPrefix(fixes, s, k + 1, |fixes|); }
    RunNext(fixes, s, k, before, start, end);
  }

  /** An applicable step splices the content in at the moved range. */
  lemma StepAt(f: EditFix, shift: int, s: string, start: int, end: int)
    requires Step(f, shift, s).Some?
    requires start == f.start + shift && end == f.end + shift
    ensures 0 <= start <= end && IsCharBoundary(s, start) && IsCharBoundary(s, end)
    ensures InI32(shift + f.offsetChangeBefore)
    ensures Step(f, shift, s) == Some(Splice(s, start, end, f.content))
  {
  }

  lemma RunUnfold(fixes: seq<EditFix>, s: string, k: nat)
    requires k < |fixes|
    ensures Run(fixes, s, k + 1)
            == if Run(fixes, s, k).None? then None else Step(fixes[k], Shift(fixes, k), Run(fixes, s, k).value)
  {
  }

  /**
    `apply_fixes`: take the fix of every message, then splice each into the
    buffer at its range moved by the accumulated `offset_change_before`.
  */
  method ApplyFixes(messages: seq<Message>, contents: string) returns (r: string)
    requires Run(FixesOf(messages), contents, |messages|).Some?
    ensures Some(r) == Run(FixesOf(messages), contents, |messages|)
    ensures messages == [] ==> r == contents
  {
    var fixes := FixesOf(messages);
    r := SpliceAll(fixes, contents);
  }

  /**
    The loop of `apply_fixes` over the fixes; a moved range end that does
    not fit `i32`, is negative, or is off a char boundary would panic.
  */
  method SpliceAll(fixes: seq<EditFix>, contents: string) returns (r: string)
    requires Run(fixes, contents, |fixes|).Some?
    ensures Some(r) == Run(fixes, contents, |fixes|)
  {
    var newContent := contents;
    var diffLength: int := 0;
    for k := 0 to |fixes|
      invariant diffLength == Shift(fixes, k)
      invariant Run(fixes, contents, k) == Some(newContent)
    {
      var fix := fixes[k];
      var start: int := fix.start;
      var end: int := fix.end;
      start := start + diffLength;
      end := end + diffLength;
      LoopStep(fixes, contents, k, newContent, start, end);
      diffLength := diffLength + fix.offsetChangeBefore;
      var startUsize: nat := start;
      var endUsize: nat := end;
      newContent := Splice(newContent, startUsize, endUsize, fix.content);
    }
    return newContent;
  }

  // ----- Properties -------------------------------------------------------------

  /** The first fix is applied at its own range, unmoved. */
  lemma FirstFixUnmoved(fixes: seq<EditFix>, s: string)
    requires |fixes| >= 1 && Run(fixes, s, 1).Some?
    ensures Applicable(fixes[0], 0, s)
    ensures Run(fixes, s, 1) == Some(Splice(s, fixes[0].start, fixes[0].end, fixes[0].content))
  {
  }

  /** A fix's own `offsetChangeBefore` does not move it: only the fixes before it do. */
  lemma {:induction false} ShiftIgnoresLaterFixes(fixes: seq<EditFix>, other: seq<EditFix>, k: nat)
    requires k <= |fixes| && k <= |other|
    requires fixes[..k] == other[..k]
    ensures Shift(fixes, k) == Shift(other, k)
  {
    if k > 0 {
      assert fixes[..k - 1] == other[..k - 1] by {
        assert fixes[..k - 1] == fixes[..k][..k - 1];
        assert other[..k - 1] == other[..k][..k - 1];
      }
      assert fixes[k - 1] == fixes[..k][k - 1];
      assert other[k - 1] == other[..k][k - 1];
      ShiftIgnoresLaterFixes(fixes, other, k - 1);
    }
  }

  /** The first `k` fixes produce the same buffer whatever follows them. */
  lemma {:induction false} RunIgnoresLaterFixes(fixes: seq<EditFix>, other: seq<EditFix>, s: string, k: nat)
    requires k <= |fixes| && k <= |other|
    requires fixes[..k] == other[..k]
    ensures Run(fixes, s, k) == Run(other, s, k)
  {
    if k > 0 {
      assert fixes[..k - 1] == fixes[..k][..k - 1];
      assert other[..k - 1] == other[..k][..k - 1];
      assert fixes[k - 1] == fixes[..k][k - 1];
      assert other[k - 1] == other[..k][k - 1];
      RunIgnoresLaterFixes(fixes, other, s, k - 1);
      ShiftIgnoresLaterFixes(fixes, other, k - 1);
    }
  }

  /** Splicing keeps the text before the range and the text after it. */
  lemma SpliceKeepsOutside(s: string, start: nat, end: nat, content: string)
    requires IsCharBoundary(s, start) && IsCharBoundary(s, end) && start <= end
    ensures var i, j := CharIndex(s, start).value, CharIndex(s, end).value;
            && i <= j <= |s|
            && ByteLen(s[..i]) == start && ByteLen(s[..j]) == end
            && s == s[..i] + s[i..j] + s[j..]
            && Splice(s, start, end, content) == s[..i] + content + s[j..]
  {
    var i, j := CharIndex(s, start).value, CharIndex(s, end).value;
    CharIndexBytes(s, start);
    CharIndexBytes(s, end);
    if j < i {
      ByteLenPrefixStrict(s, j, i);
      assert false;
    }
    assert s == s[..i] + s[i..j] + s[j..];
  }

  /**
    A single fix keeps the text before its start and after its end, with
    its content in between.
  */
  lemma SingleFix(f: EditFix, s: string)
    requires Run([f], s, 1).Some?
    ensures Applicable(f, 0, s)
    ensures var i, j := CharIndex(s, f.start).value, CharIndex(s, f.end).value;
            && i <= j <= |s|
            && ByteLen(s[..i]) == f.start && ByteLen(s[..j]) == f.end
            && Run([f], s, 1) == Some(s[..i] + f.content + s[j..])
  {
    assert Run([f], s, 1) == Step(f, 0, s);
    SpliceKeepsOutside(s, f.start, f.end, f.content);
  }

  /** The byte length of a splice: the range's bytes are replaced by the content's. */
  lemma SpliceByteLen(s: string, start: nat, end: nat, content: string)
    requires IsCharBoundary(s, start) && IsCharBoundary(s, end) && start <= end
    ensures ByteLen(Splice(s, start, end, content)) == ByteLen(s) - (end - start) + ByteLen(content)
  {
    SpliceKeepsOutside(s, start, end, content);
    var i, j := CharIndex(s, start).value, CharIndex(s, end).value;
    ByteLenAppend(s[..i] + s[i..j], s[j..]);
    ByteLenAppend(s[..i], s[i..j]);
    ByteLenAppend(s[..i] + content, s[j..]);
    ByteLenAppend(s[..i], content);
    assert s[..j] == s[..i] + s[i..j];
  }

  /** Each fix's `offsetChangeBefore` is the change in byte length it makes. */
  predicate HonestOffsets(fixes: seq<EditFix>)
  {
    forall k :: 0 <= k < |fixes| ==> fixes[k].offsetChangeBefore == ByteLen(fixes[k].content) - (fixes[k].end - fixes[k].start)
  }

  /**
    When every fix declares the length change it makes, the accumulated
    shift is exactly how much longer the buffer has become: the invariant
    that makes moving later ranges by it meaningful.
  */
  lemma {:induction false} ShiftTracksLength(fixes: seq<EditFix>, s: string, k: nat)
    requires k <= |fixes|
    requires HonestOffsets(fixes)
    requires Run(fixes, s, k).Some?
    ensures ByteLen(Run(fixes, s, k).value) == ByteLen(s) + Shift(fixes, k)
  {
    if k > 0 {
      var f, shift := fixes[k - 1], Shift(fixes, k - 1);
      var before := Run(fixes, s, k - 1);
      ShiftTracksLength(fixes, s, k - 1);
      SpliceByteLen(before.value, f.start + shift, f.end + shift, f.content);
    }
  }
}
