/**
  The engine's diagnostic records (`src/message.rs`): the fix attached to a
  violation, the name and body of a violated rule, the diagnostic that is
  eventually printed, and its one-line console rendering.
*/
module Messages {
  import opened Wrappers

  /** A range of byte offsets `[start, end)` into a source text (`biome_rowan::TextRange`). */
  datatype TextRange = TextRange(start: nat, end: nat)
  {
    predicate Valid() { start <= end }
  }

  /** `TextRange::empty(offset)`: the empty range at `offset`. */
  function EmptyRange(offset: nat): (r: TextRange)
    ensures r.Valid() && r.start == r.end == offset
  {
    TextRange(offset, offset)
  }

  /** A row and column in a file, as found from its newline offsets. */
  datatype Location = Location(row: nat, column: nat)

  /** The replacement of the byte range `[start, end)` by `content`. */
  datatype Fix = Fix(content: string, start: nat, end: nat)

  /** `Fix::empty()`: a fix that replaces the empty range at 0 by nothing. */
  function EmptyFix(): (f: Fix)
    ensures f.content == [] && f.start == 0 && f.end == 0
  {
    Fix("", 0, 0)
  }

  /** The name and explanation of a violated rule. */
  datatype ViolationData = ViolationData(name: string, body: string)

  /** `ViolationData::empty()`. */
  function EmptyViolationData(): (v: ViolationData)
    ensures v.name == [] && v.body == []
  {
    ViolationData("", "")
  }

  /** The rules that implement the `Violation` interface in this model. */
  datatype Violation = EqualsNaViolation | TrueFalseSymbolViolation | BrowserViolation

  /** A rule name is one word: not empty and without spaces. */
  predicate OneWord(s: string)
  {
    s != [] && forall i :: 0 <= i < |s| ==> s[i] != ' '
  }

  /** `Violation::name` of each rule: one word, so the rendering keeps it apart from the body. */
  function Name(v: Violation): (n: string)
    ensures OneWord(n)
  {
    match v
    case EqualsNaViolation => "equals_na"
    case TrueFalseSymbolViolation => "true_false_symbol"
    case BrowserViolation => "browser"
  }

  /** `Violation::body` of each rule: never empty. */
  function Body(v: Violation): (b: string)
    ensures b != []
  {
    match v
    case EqualsNaViolation => "Use `is.na()` instead of comparing to NA with ==, != or %in%."
    case TrueFalseSymbolViolation => "`T` and `F` can be confused with variable names. Spell `TRUE` and `FALSE` entirely instead."
    case BrowserViolation => "Calls to `browser()` should be removed."
  }

  /** Each rule has its own name and its own body. */
  lemma NameIdentifiesRule(v: Violation, w: Violation)
    requires Name(v) == Name(w) || Body(v) == Body(w)
    ensures v == w
  {
    assert Name(EqualsNaViolation)[0] == 'e' && Name(TrueFalseSymbolViolation)[0] == 't' && Name(BrowserViolation)[0] == 'b';
    var na, tf, br := Body(EqualsNaViolation), Body(TrueFalseSymbolViolation), Body(BrowserViolation);
    assert |na| == 61 && |tf| == 91 && |br| == 39;
  }

  /** `From<T: Violation> for ViolationData`: the rule's name and body, unchanged. */
  function FromViolation(v: Violation): (d: ViolationData)
    ensures d.name == Name(v) && d.body == Body(v)
  {
    ViolationData(Name(v), Body(v))
  }

  /** The diagnostic that is reported and printed in the console. */
  datatype Diagnostic = Diagnostic(
    message: ViolationData,
    filename: string,
    range: TextRange,
    location: Option<Location>,
    fix: Fix)

  /** `Diagnostic::new`: keeps message, range and fix; no location and an empty file name yet. */
  function NewDiagnostic(message: ViolationData, range: TextRange, fix: Fix): (d: Diagnostic)
    ensures d.message == message && d.range == range && d.fix == fix
    ensures d.location.None? && d.filename == []
  {
    Diagnostic(message, "", range, None, fix)
  }

  /** `Diagnostic::empty()`. */
  function EmptyDiagnostic(): (d: Diagnostic)
    ensures d.message == EmptyViolationData() && d.range == EmptyRange(0)
    ensures d.location.None? && d.fix == EmptyFix() && d.filename == []
  {
    Diagnostic(EmptyViolationData(), "", EmptyRange(0), None, EmptyFix())
  }

  /**
    The diagnostic the rules under `src/lints` build in this version of the
    engine: a location instead of a range, and the file name filled in. Its
    message is the violated rule converted to `ViolationData` (`Message`);
    the rule itself is kept, which determines that data.
  */
  datatype LintDiagnostic = LintDiagnostic(rule: Violation, filename: string, location: Location, fix: Fix)
  {
    /** The `message` field: the rule's name and body. */
    function Message(): ViolationData
    {
      FromViolation(rule)
    }
  }

  // ----- Decimal rendering of `usize` -------------------------------------------

  function DigitChar(d: nat): char
    requires d < 10
  {
    "0123456789"[d]
  }

  predicate IsDigit(c: char) { '0' <= c <= '9' }

  function DigitValue(c: char): nat
    requires IsDigit(c)
  {
    (c as int - '0' as int) as nat
  }

  /** `n` in decimal, without leading zeros, as `{}` formats an unsigned integer. */
  function Decimal(n: nat): (s: string)
    ensures s != [] && forall i :: 0 <= i < |s| ==> IsDigit(s[i])
    ensures |s| > 1 ==> s[0] != '0'
  {
    if n < 10 then [DigitChar(n)] else Decimal(n / 10) + [DigitChar(n % 10)]
  }

  /** The value of a string of decimal digits. */
  function ParseDecimal(s: string): nat
    requires forall i :: 0 <= i < |s| ==> IsDigit(s[i])
  {
    if s == [] then 0 else 10 * ParseDecimal(s[..|s| - 1]) + DigitValue(s[|s| - 1])
  }

  /** Reading the decimal rendering back gives the number. */
  lemma {:induction false} DecimalRoundTrip(n: nat)
    ensures ParseDecimal(Decimal(n)) == n
  {
    var s := Decimal(n);
    if n >= 10 {
      assert s[..|s| - 1] == Decimal(n / 10);
      DecimalRoundTrip(n / 10);
    }
  }

  /** Distinct numbers render differently. */
  lemma DecimalInjective(m: nat, n: nat)
    requires Decimal(m) == Decimal(n)
    ensures m == n
  {
    DecimalRoundTrip(m);
    DecimalRoundTrip(n);
  }

  // ----- Display -------------------------------------------------------------

  /**
    `Display for Diagnostic`, without terminal colours:
    "<filename> [<row>:<col>] <name> <body>". The location must be present.
  */
  function Display(d: Diagnostic): (r: string)
    requires d.location.Some?
    ensures |r| >= |d.filename| + 2 && r[..|d.filename|] == d.filename && r[|d.filename|..|d.filename| + 2] == " ["
    ensures |r| >= |d.message.body| && r[|r| - |d.message.body|..] == d.message.body
    ensures |r| >= |d.message.body| + |d.message.name| + 1
            && r[|r| - |d.message.body| - |d.message.name| - 1..|r| - |d.message.body|] == d.message.name + " "
  {
    d.filename + " [" + Decimal(d.location.value.row) + ":" + Decimal(d.location.value.column) + "] "
      + d.message.name + " " + d.message.body
  }

  /** Index of the first `c` in `s`, or `|s|`. */
  function IndexOf(s: string, c: char): (i: nat)
    ensures i <= |s| && (i < |s| ==> s[i] == c)
    ensures forall j :: 0 <= j < i ==> s[j] != c
  {
    if s == [] || s[0] == c then 0 else 1 + IndexOf(s[1..], c)
  }

  lemma {:induction false} IndexOfDigitsThen(digits: string, c: char, rest: string)
    requires forall i :: 0 <= i < |digits| ==> IsDigit(digits[i])
    requires !IsDigit(c)
    ensures IndexOf(digits + [c] + rest, c) == |digits|
    decreases |digits|
  {
    if digits != [] {
      assert (digits + [c] + rest)[1..] == digits[1..] + [c] + rest;
      IndexOfDigitsThen(digits[1..], c, rest);
    }
  }

  predicate AllDigits(s: string) { forall i :: 0 <= i < |s| ==> IsDigit(s[i]) }

  /** Reads "<row>:<col>]" from the start of `s`, as a rendered diagnostic has it after "<filename> [". */
  function ReadLocation(s: string): Option<Location>
  {
    var i := IndexOf(s, ':');
    if i == |s| || !AllDigits(s[..i]) then None
    else
      var t := s[i + 1..];
      var j := IndexOf(t, ']');
      if j == |t| || !AllDigits(t[..j]) then None
      else Some(Location(ParseDecimal(s[..i]), ParseDecimal(t[..j])))
  }

  /** Digits, then `c`, then anything: the first `c` ends the digits, which come before it. */
  lemma DigitsThenParts(digits: string, c: char, rest: string)
    requires AllDigits(digits) && !IsDigit(c)
    ensures var s := digits + [c] + rest;
            && IndexOf(s, c) == |digits|
            && s[..|digits|] == digits && AllDigits(s[..|digits|])
            && s[|digits| + 1..] == rest
  {
    IndexOfDigitsThen(digits, c, rest);
    var s := digits + [c] + rest;
    assert s[..|digits|] == digits;
    assert s[|digits| + 1..] == rest;
  }

  /** "<row>:<col>]" followed by anything reads back as that row and column. */
  lemma ReadsRowAndColumn(row: nat, col: nat, rest: string)
    ensures ReadLocation(Decimal(row) + [':'] + Decimal(col) + [']'] + rest) == Some(Location(row, col))
  {
    var r, c := Decimal(row), Decimal(col);
    var t := c + [']'] + rest;
    assert r + [':'] + c + [']'] + rest == r + [':'] + t;
    DigitsThenParts(r, ':', t);
    DigitsThenParts(c, ']', rest);
    DecimalRoundTrip(row);
    DecimalRoundTrip(col);
  }

  /** The row and column of a rendered diagnostic can be read back from the text after "<filename> [". */
  lemma DisplayReadsBack(d: Diagnostic)
    requires d.location.Some?
    ensures |Display(d)| >= |d.filename| + 2
    ensures ReadLocation(Display(d)[|d.filename| + 2..]) == d.location
  {
    var row, col := d.location.value.row, d.location.value.column;
    var rest := " " + d.message.name + " " + d.message.body;
    assert Display(d)[|d.filename| + 2..] == Decimal(row) + [':'] + Decimal(col) + [']'] + rest;
    ReadsRowAndColumn(row, col, rest);
  }

  /** Two rendered diagnostics of the same file are equal only if their rows and columns are. */
  lemma DisplayDeterminesLocation(d: Diagnostic, e: Diagnostic)
    requires d.location.Some? && e.location.Some?
    requires d.filename == e.filename && Display(d) == Display(e)
    ensures d.location == e.location
  {
    DisplayReadsBack(d);
    DisplayReadsBack(e);
  }
}
