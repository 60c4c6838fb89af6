/**
  Rust `str` values as Dafny strings.

  Dafny's `char` is a Unicode scalar value, which is exactly the element type
  of a Rust `str`. Rust measures a `str` in UTF-8 bytes, so byte offsets and
  byte lengths are computed here from the UTF-8 length of each scalar value.
*/
module Unicode {
  import opened Wrappers

  /** Number of bytes UTF-8 uses for `c` (Rust `char::len_utf8`). */
  function Utf8Len(c: char): (n: nat)
    ensures 1 <= n <= 4
    ensures n == 1 <==> c as int < 0x80
  {
    if c as int < 0x80 then 1
    else if c as int < 0x800 then 2
    else if c as int < 0x1_0000 then 3
    else 4
  }

  /** Number of UTF-16 code units for `c` (Rust `char::len_utf16`). */
  function Utf16Len(c: char): (n: nat)
    ensures n == 1 || n == 2
    ensures n == 2 <==> c as int >= 0x1_0000
  {
    if c as int < 0x1_0000 then 1 else 2
  }

  /** Byte length of `s` in UTF-8 (Rust `str::len`). */
  function ByteLen(s: string): nat
  {
    if s == [] then 0 else Utf8Len(s[0]) + ByteLen(s[1..])
  }

  /** Number of UTF-16 code units of `s`: the sum of `len_utf16` over its chars. */
  function Utf16Units(s: string): nat
  {
    if s == [] then 0 else Utf16Len(s[0]) + Utf16Units(s[1..])
  }

  lemma {:induction false} ByteLenAppend(a: string, b: string)
    ensures ByteLen(a + b) == ByteLen(a) + ByteLen(b)
  {
    if a != [] {
      assert (a + b)[1..] == a[1..] + b;
      ByteLenAppend(a[1..], b);
    } else {
      assert a + b == b;
    }
  }

  lemma {:induction false} Utf16UnitsAppend(a: string, b: string)
    ensures Utf16Units(a + b) == Utf16Units(a) + Utf16Units(b)
  {
    if a != [] {
      assert (a + b)[1..] == a[1..] + b;
      Utf16UnitsAppend(a[1..], b);
    } else {
      assert a + b == b;
    }
  }

  /** A string is never shorter in bytes than in chars. */
  lemma {:induction false} ByteLenAtLeastLength(s: string)
    ensures |s| <= ByteLen(s)
  {
    if s != [] { ByteLenAtLeastLength(s[1..]); }
  }

  /** Longer prefixes have strictly more bytes: byte offsets of chars increase. */
  lemma ByteLenPrefixStrict(s: string, j: nat, k: nat)
    requires j < k <= |s|
    ensures ByteLen(s[..j]) < ByteLen(s[..k])
  {
    assert s[..k] == s[..j] + s[j..k];
    ByteLenAppend(s[..j], s[j..k]);
    ByteLenAtLeastLength(s[j..k]);
  }

  /** For an ASCII string the byte length equals the length in chars. */
  lemma {:induction false} AsciiByteLen(s: string)
    requires forall i :: 0 <= i < |s| ==> s[i] as int < 0x80
    ensures ByteLen(s) == |s|
  {
    if s != [] { AsciiByteLen(s[1..]); }
  }

  /** For a string in the Basic Multilingual Plane each char is one UTF-16 unit. */
  lemma {:induction false} BmpUtf16Units(s: string)
    requires forall i :: 0 <= i < |s| ==> s[i] as int < 0x1_0000
    ensures Utf16Units(s) == |s|
  {
    if s != [] { BmpUtf16Units(s[1..]); }
  }

  /**
    The number of chars `k` whose prefix `s[..k]` is exactly `b` bytes long,
    that is, the char index at byte offset `b`; `None` when `b` is not on a
    char boundary of `s` (where Rust's `&s[..b]` panics).
  */
  function CharIndex(s: string, b: nat): (r: Option<nat>)
    ensures r.Some? ==> r.value <= |s|
  {
    if b == 0 then Some(0)
    else if s == [] || b < Utf8Len(s[0]) then None
    else
      match CharIndex(s[1..], b - Utf8Len(s[0]))
      case Some(k) => Some(k + 1)
      case None => None
  }

  /** The prefix up to the char index found for `b` is exactly `b` bytes long. */
  lemma {:induction false} CharIndexBytes(s: string, b: nat)
    requires CharIndex(s, b).Some?
    ensures ByteLen(s[..CharIndex(s, b).value]) == b
    decreases |s|
  {
    if b == 0 {
      assert s[..0] == [];
    } else {
      var k := CharIndex(s[1..], b - Utf8Len(s[0])).value;
      CharIndexBytes(s[1..], b - Utf8Len(s[0]));
      assert s[..k + 1] == [s[0]] + s[1..][..k];
      assert s[..k + 1][1..] == s[1..][..k];
    }
  }

  /** `CharIndex` misses only offsets that no prefix of `s` is long enough in bytes to reach exactly. */
  lemma {:induction false} CharIndexNone(s: string, b: nat, k: nat)
    requires CharIndex(s, b).None?
    requires k <= |s|
    ensures ByteLen(s[..k]) != b
    decreases |s|
  {
    if k > 0 {
      assert s[..k] == [s[0]] + s[1..][..k - 1];
      if b >= Utf8Len(s[0]) {
        CharIndexNone(s[1..], b - Utf8Len(s[0]), k - 1);
      }
    }
  }

  /** `b` is on a char boundary of `s` (Rust `str::is_char_boundary`). */
  predicate IsCharBoundary(s: string, b: nat)
  {
    CharIndex(s, b).Some?
  }

  /** The char index of a boundary is the one that produced it. */
  lemma CharIndexOfPrefix(s: string, k: nat)
    requires k <= |s|
    ensures CharIndex(s, ByteLen(s[..k])) == Some(k)
  {
    var r := CharIndex(s, ByteLen(s[..k]));
    if r.None? {
      CharIndexNone(s, ByteLen(s[..k]), k);
      assert false;
    }
    CharIndexBytes(s, ByteLen(s[..k]));
    if r.value < k { ByteLenPrefixStrict(s, r.value, k); }
    if r.value > k { ByteLenPrefixStrict(s, k, r.value); }
  }

  /** Rust `char::is_whitespace`: the Unicode White_Space property. */
  predicate IsWhitespace(c: char)
  {
    var n := c as int;
    (0x09 <= n <= 0x0D) || n == 0x20 || n == 0x85 || n == 0xA0 || n == 0x1680
    || (0x2000 <= n <= 0x200A) || n == 0x2028 || n == 0x2029 || n == 0x202F
    || n == 0x205F || n == 0x3000
  }

  function TrimStart(s: string): (r: string)
    ensures |r| <= |s| && r == s[|s| - |r|..]
    ensures r == [] || !IsWhitespace(r[0])
    ensures forall i :: 0 <= i < |s| - |r| ==> IsWhitespace(s[i])
  {
    if s != [] && IsWhitespace(s[0]) then TrimStart(s[1..]) else s
  }

  function TrimEnd(s: string): (r: string)
    ensures |r| <= |s| && r == s[..|r|]
    ensures r == [] || !IsWhitespace(r[|r| - 1])
    ensures forall i :: |r| <= i < |s| ==> IsWhitespace(s[i])
  {
    if s != [] && IsWhitespace(s[|s| - 1]) then TrimEnd(s[..|s| - 1]) else s
  }

  /**
    Rust `str::trim`: `s` without its leading and trailing whitespace. The
    result is a contiguous piece of `s` that starts and ends with a
    non-whitespace char, and everything cut off is whitespace.
  */
  function Trim(s: string): (r: string)
    ensures exists i, j :: 0 <= i <= j <= |s| && r == s[i..j]
                           && (forall k :: 0 <= k < i ==> IsWhitespace(s[k]))
                           && (forall k :: j <= k < |s| ==> IsWhitespace(s[k]))
    ensures r == [] || (!IsWhitespace(r[0]) && !IsWhitespace(r[|r| - 1]))
  {
    var t := TrimStart(s);
    var r := TrimEnd(t);
    var i := |s| - |t|;
    assert r == s[i..i + |r|];
    r
  }
}
