/**
 Lengths of .NET strings.

 A .NET `string` is a sequence of UTF-16 code units and `String.Length`
 counts code units, not characters. Dafny's `char` is a Unicode scalar
 value, so a character outside the Basic Multilingual Plane (U+1F600, say)
 is one `char` here but a surrogate pair, two code units, in .NET. Most
 emoji lie outside that plane; some, such as U+2705, lie inside it and take
 one code unit.
 */
module Text {

  /** The number of UTF-16 code units needed to encode one scalar value. */
  function CodeUnits(c: char): (n: nat)
    ensures 1 <= n <= 2
    ensures n == 1 <==> IsBmp(c)
  {
    if c as int < 0x1_0000 then 1 else 2
  }

  /** True iff `c` lies in the Basic Multilingual Plane (one code unit). */
  predicate IsBmp(c: char) {
    c as int < 0x1_0000
  }

  /** True iff every character of `s` is encoded by a single code unit. */
  predicate AllBmp(s: string) {
    forall i :: 0 <= i < |s| ==> IsBmp(s[i])
  }

  /** What .NET's `String.Length` reports for the text `s`. */
  function Utf16Length(s: string): (n: nat)
    ensures |s| <= n <= 2 * |s|
    ensures n == |s| <==> AllBmp(s)
  {
    if |s| == 0 then 0 else CodeUnits(s[0]) + Utf16Length(s[1..])
  }

  /** A UTF-16 code unit, the element of a .NET string. */
  type CodeUnit = x: int | 0 <= x < 0x1_0000

  /** The UTF-16 encoding of one scalar value (section 2.1 of RFC 2781): itself when it is in the
      Basic Multilingual Plane, otherwise a high surrogate followed by a low surrogate. */
  function EncodeChar(c: char): (units: seq<CodeUnit>)
    ensures |units| == CodeUnits(c)
    ensures IsBmp(c) ==> units == [c as int]
    ensures !IsBmp(c) ==>
              && 0xD800 <= units[0] < 0xDC00 && 0xDC00 <= units[1] < 0xE000
              && c as int == 0x1_0000 + (units[0] as int - 0xD800) * 0x400 + (units[1] as int - 0xDC00)
  {
    if c as int < 0x1_0000 then [c as int]
    else
      var v := c as int - 0x1_0000;
      [0xD800 + v / 0x400, 0xDC00 + v % 0x400]
  }

  /** The code units .NET stores for the text `s`. */
  function Utf16Encode(s: string): (units: seq<CodeUnit>) {
    if |s| == 0 then [] else EncodeChar(s[0]) + Utf16Encode(s[1..])
  }

  /** `Utf16Length` is the number of code units of the encoded text, which is what `String.Length` counts. */
  lemma {:induction false} Utf16LengthIsEncodedLength(s: string)
    ensures Utf16Length(s) == |Utf16Encode(s)|
  {
    if |s| > 0 {
      Utf16LengthIsEncodedLength(s[1..]);
    }
  }

  /** Code-unit length is additive over concatenation. */
  lemma {:induction false} Utf16LengthAppend(a: string, b: string)
    ensures Utf16Length(a + b) == Utf16Length(a) + Utf16Length(b)
  {
    if |a| == 0 {
      assert a + b == b;
    } else {
      assert (a + b)[1..] == a[1..] + b;
      Utf16LengthAppend(a[1..], b);
    }
  }

  /** A text made only of characters outside the Basic Multilingual Plane
      takes exactly two code units per character. */
  lemma {:induction false} Utf16LengthAstral(s: string)
    requires forall i :: 0 <= i < |s| ==> !IsBmp(s[i])
    ensures Utf16Length(s) == 2 * |s|
  {
    if |s| > 0 {
      assert forall i :: 0 <= i < |s[1..]| ==> !IsBmp(s[1..][i]) by {
        forall i | 0 <= i < |s[1..]| ensures !IsBmp(s[1..][i]) {
          assert s[1..][i] == s[i + 1];
        }
      }
      Utf16LengthAstral(s[1..]);
    }
  }
}
