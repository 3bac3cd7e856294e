/**
 * JavaScript string facts the two decision procedures depend on.
 *
 * A Dafny `char` is a Unicode scalar value; a JavaScript string is a sequence
 * of UTF-16 code units, and `.length` counts code units. A scalar value above
 * U+FFFF is stored as a surrogate pair and so counts twice.
 */
module JsText {

  /** A UTF-16 code unit. */
  type CodeUnit = u: int | 0 <= u < 0x1_0000

  /** First unit of a surrogate pair. */
  predicate IsHighSurrogate(u: CodeUnit) {
    0xD800 <= u < 0xDC00
  }

  /** Second unit of a surrogate pair. */
  predicate IsLowSurrogate(u: CodeUnit) {
    0xDC00 <= u < 0xE000
  }

  /**
   * The UTF-16 encoding of one scalar value: itself below U+10000, otherwise
   * a high surrogate carrying the upper ten bits of `c - 0x10000` followed by
   * a low surrogate carrying the lower ten.
   */
  function Utf16Encode(c: char): (units: seq<CodeUnit>)
    ensures c as int < 0x1_0000 ==> units == [c as int]
    ensures c as int >= 0x1_0000 ==>
              |units| == 2 && IsHighSurrogate(units[0]) && IsLowSurrogate(units[1])
  {
    var v := c as int;
    if v < 0x1_0000 then [v]
    else [0xD800 + (v - 0x1_0000) / 0x400, 0xDC00 + (v - 0x1_0000) % 0x400]
  }

  /** The scalar value a surrogate pair stands for. */
  function DecodePair(hi: CodeUnit, lo: CodeUnit): int
    requires IsHighSurrogate(hi) && IsLowSurrogate(lo)
  {
    0x1_0000 + (hi - 0xD800) * 0x400 + (lo - 0xDC00)
  }

  /** Decoding the pair `Utf16Encode` produces gives back the character. */
  lemma Utf16PairRoundTrip(c: char)
    requires c as int >= 0x1_0000
    ensures DecodePair(Utf16Encode(c)[0], Utf16Encode(c)[1]) == c as int
  {
    var v := c as int - 0x1_0000;
    assert v == (v / 0x400) * 0x400 + v % 0x400;
  }

  /** The UTF-16 encoding of a whole string: the code units JavaScript stores. */
  function Utf16EncodeAll(s: string): seq<CodeUnit> {
    if s == [] then [] else Utf16Encode(s[0]) + Utf16EncodeAll(s[1..])
  }

  /** Number of UTF-16 code units that encode `c`. */
  function Utf16Units(c: char): nat {
    if c as int < 0x1_0000 then 1 else 2
  }

  /** True when `c` lies in the Basic Multilingual Plane (one code unit). */
  predicate InBmp(c: char) {
    c as int < 0x1_0000
  }

  /** JavaScript's `s.length` for the string whose scalar values are `s`. */
  function Utf16Length(s: string): (n: nat)
    ensures |s| <= n <= 2 * |s|
    ensures n == |s| <==> forall i :: 0 <= i < |s| ==> InBmp(s[i])
  {
    if s == [] then 0
    else
      var n := Utf16Units(s[0]) + Utf16Length(s[1..]);
      assert forall i :: 1 <= i < |s| ==> s[i] == s[1..][i - 1];
      n
  }

  /** `Utf16Length` is exactly the number of code units in the string's UTF-16 encoding. */
  lemma {:induction false} Utf16LengthCountsCodeUnits(s: string)
    ensures Utf16Length(s) == |Utf16EncodeAll(s)|
  {
    if s != [] {
      Utf16LengthCountsCodeUnits(s[1..]);
    }
  }

  /** `t` is a prefix of `s` (JavaScript `s.startsWith(t)`). */
  predicate StartsWith(s: string, t: string) {
    |t| <= |s| && s[..|t|] == t
  }

  /** `t` is a suffix of `s` (JavaScript `s.endsWith(t)`). */
  predicate EndsWith(s: string, t: string) {
    |t| <= |s| && s[|s| - |t|..] == t
  }
}
