/**
 * Percent-escape decoding as `urllib.parse.unquote` performs it (the
 * escapes of section 2.1 of RFC 3986): a '%' followed by two hexadecimal
 * digits, in either case, stands for one byte; a '%' not followed by two
 * hexadecimal digits is kept literally.
 *
 * The result is a sequence of units rather than a string: a decoded byte
 * below 0x80 is the ASCII character it encodes, a higher byte is kept as a
 * raw byte, since the UTF-8 decoding that would turn those bytes into
 * characters is not part of this model.
 */
module Percent {

  datatype Unit = Ch(c: char) | Byte(b: nat)

  type Units = seq<Unit>

  predicate IsHex(c: char) {
    ('0' <= c <= '9') || ('A' <= c <= 'F') || ('a' <= c <= 'f')
  }

  function HexValue(c: char): (v: nat)
    requires IsHex(c)
    ensures v < 16
  {
    if '0' <= c <= '9' then c as int - '0' as int
    else if 'A' <= c <= 'F' then c as int - 'A' as int + 10
    else c as int - 'a' as int + 10
  }

  /** The upper-case hexadecimal digit for `v`. */
  function HexDigit(v: nat): (c: char)
    requires v < 16
    ensures IsHex(c) && HexValue(c) == v
  {
    if v < 10 then ('0' as int + v) as char else ('A' as int + v - 10) as char
  }

  /** The unit a decoded byte contributes. */
  function Decoded(v: nat): Unit
    requires v < 256
  {
    if v < 128 then Ch(v as char) else Byte(v)
  }

  /** Whether `s` starts with a well-formed escape. */
  predicate EscapeAt(s: string) {
    |s| >= 3 && s[0] == '%' && IsHex(s[1]) && IsHex(s[2])
  }

  /** `urllib.parse.unquote(s)`, with the final UTF-8 step left out. */
  function Unquote(s: string): (r: Units)
    ensures |r| <= |s| <= 3 * |r|
    ensures |s| > 0 && !EscapeAt(s) ==> |r| > 0 && r[0] == Ch(s[0])
    decreases |s|
  {
    if |s| == 0 then []
    else if EscapeAt(s) then [Decoded(HexValue(s[1]) * 16 + HexValue(s[2]))] + Unquote(s[3..])
    else [Ch(s[0])] + Unquote(s[1..])
  }

  /** The units of a string taken literally. */
  function Plain(s: string): (r: Units)
    ensures |r| == |s|
    ensures forall i :: 0 <= i < |s| ==> r[i] == Ch(s[i])
  {
    seq(|s|, i requires 0 <= i < |s| => Ch(s[i]))
  }

  /** A string with no '%' decodes to itself: `unquote` returns such a string unchanged. */
  lemma {:induction false} UnquoteNoPercent(s: string)
    requires forall i :: 0 <= i < |s| ==> s[i] != '%'
    ensures Unquote(s) == Plain(s)
    decreases |s|
  {
    if |s| > 0 {
      UnquoteNoPercent(s[1..]);
      assert Plain(s) == [Ch(s[0])] + Plain(s[1..]);
    }
  }

  /** Encoding every byte as "%XX" (upper-case digits). */
  function PercentEncode(bytes: seq<nat>): (s: string)
    requires forall i :: 0 <= i < |bytes| ==> bytes[i] < 256
    ensures |s| == 3 * |bytes|
  {
    if bytes == [] then ""
    else ['%', HexDigit(bytes[0] / 16), HexDigit(bytes[0] % 16)] + PercentEncode(bytes[1..])
  }

  /** Decoding undoes encoding: every escape yields the byte it names. */
  lemma {:induction false} UnquoteEncode(bytes: seq<nat>)
    requires forall i :: 0 <= i < |bytes| ==> bytes[i] < 256
    ensures |Unquote(PercentEncode(bytes))| == |bytes|
    ensures forall i :: 0 <= i < |bytes| ==> Unquote(PercentEncode(bytes))[i] == Decoded(bytes[i])
  {
    if bytes != [] {
      var s := PercentEncode(bytes);
      var b := bytes[0];
      assert EscapeAt(s);
      assert HexValue(s[1]) * 16 + HexValue(s[2]) == b;
      assert s[3..] == PercentEncode(bytes[1..]);
      UnquoteEncode(bytes[1..]);
    }
  }
}
