/** Hexadecimal text: Go's encoding/hex and Python's bytes.hex / bytes.fromhex. */
module Hex {
  import opened Common

  predicate IsHexDigit(c: char) {
    '0' <= c <= '9' || 'a' <= c <= 'f' || 'A' <= c <= 'F'
  }

  // The ASCII white space that bytes.fromhex skips between pairs of digits.
  predicate IsSpace(c: char) {
    c == ' ' || c == '\t' || c == '\n' || c == '\r' || c == '\U{000B}' || c == '\U{000C}'
  }

  function DigitValue(c: char): (v: int)
    requires IsHexDigit(c)
    ensures 0 <= v < 16
  {
    if c <= '9' then c as int - '0' as int
    else if c <= 'F' then c as int - 'A' as int + 10
    else c as int - 'a' as int + 10
  }

  function DigitChar(v: int): (c: char)
    requires 0 <= v < 16
    ensures IsHexDigit(c) && DigitValue(c) == v
  {
    if v < 10 then ('0' as int + v) as char else ('a' as int + (v - 10)) as char
  }

  /** hex.EncodeToString and bytes.hex: two lower-case digits a byte. */
  function Encode(bytes: Bytes): string {
    if bytes == [] then ""
    else [DigitChar(bytes[0] / 16), DigitChar(bytes[0] % 16)] + Encode(bytes[1..])
  }

  /** hex.DecodeString: digits of either case, no white space. */
  function GoDecode(text: string): Option<Bytes> {
    if text == "" then Some([])
    else if |text| < 2 || !IsHexDigit(text[0]) || !IsHexDigit(text[1]) then None
    else
      Push(DigitValue(text[0]) * 16 + DigitValue(text[1]), GoDecode(text[2..]))
  }

  /** bytes.fromhex: as GoDecode, skipping white space between the pairs. */
  function PyDecode(text: string): Option<Bytes> {
    if text == "" then Some([])
    else if IsSpace(text[0]) then PyDecode(text[1..])
    else if |text| < 2 || !IsHexDigit(text[0]) || !IsHexDigit(text[1]) then None
    else
      Push(DigitValue(text[0]) * 16 + DigitValue(text[1]), PyDecode(text[2..]))
  }

  predicate AllHex(text: string) {
    forall i :: 0 <= i < |text| ==> IsHexDigit(text[i])
  }

  // One step of either decoder.
  lemma UnfoldGo(c: char, d: char, rest: string)
    requires IsHexDigit(c) && IsHexDigit(d)
    ensures GoDecode([c, d] + rest) == Push(DigitValue(c) * 16 + DigitValue(d), GoDecode(rest))
  {
  }

  lemma UnfoldPair(c: char, d: char, rest: string)
    requires IsHexDigit(c) && IsHexDigit(d)
    ensures PyDecode([c, d] + rest) == Push(DigitValue(c) * 16 + DigitValue(d), PyDecode(rest))
  {
  }

  /** Both decoders invert the encoder, on every byte string. */
  lemma {:induction false} GoRoundTrip(bytes: Bytes)
    ensures GoDecode(Encode(bytes)) == Some(bytes)
  {
    if bytes == [] {
    } else {
      GoRoundTrip(bytes[1..]);
      GoByte(bytes[0], Encode(bytes[1..]), bytes[1..]);
      assert [bytes[0]] + bytes[1..] == bytes;
    }
  }

  lemma GoByte(b: byte, rest: string, bytes: Bytes)
    requires GoDecode(rest) == Some(bytes)
    ensures GoDecode([DigitChar(b / 16), DigitChar(b % 16)] + rest) == Some([b] + bytes)
  {
    UnfoldGo(DigitChar(b / 16), DigitChar(b % 16), rest);
  }

  lemma {:induction false} PyRoundTrip(bytes: Bytes)
    ensures PyDecode(Encode(bytes)) == Some(bytes)
  {
    if bytes == [] {
    } else {
      PyRoundTrip(bytes[1..]);
      PyByte(bytes[0], Encode(bytes[1..]), bytes[1..]);
      assert [bytes[0]] + bytes[1..] == bytes;
    }
  }

  lemma PyByte(b: byte, rest: string, bytes: Bytes)
    requires PyDecode(rest) == Some(bytes)
    ensures PyDecode([DigitChar(b / 16), DigitChar(b % 16)] + rest) == Some([b] + bytes)
  {
  }

  /** Distinct byte strings have distinct hexadecimal forms. */
  lemma EncodeInjective(a: Bytes, b: Bytes)
    requires Encode(a) == Encode(b)
    ensures a == b
  {
    GoRoundTrip(a);
    GoRoundTrip(b);
  }

  /** hex.DecodeString accepts exactly the even-length strings of digits, in either case. */
  lemma {:induction false} GoDecodeExact(text: string)
    ensures GoDecode(text).Some? <==> |text| % 2 == 0 && AllHex(text)
    ensures GoDecode(text).Some? ==> |text| == 2 * |GoDecode(text).value|
  {
    if |text| >= 2 {
      var rest := text[2..];
      GoDecodeExact(rest);
      AllHexSplits(text);
      assert text == [text[0], text[1]] + rest;
      if IsHexDigit(text[0]) && IsHexDigit(text[1]) {
        UnfoldGo(text[0], text[1], rest);
      }
    }
  }

  lemma AllHexSplits(text: string)
    requires |text| >= 2
    ensures AllHex(text) <==> IsHexDigit(text[0]) && IsHexDigit(text[1]) && AllHex(text[2..])
  {
    assert text == [text[0], text[1]] + text[2..];
  }

  /** It reads two digits a byte, the high one first. */
  lemma {:induction false} GoDigitsAt(text: string, i: nat)
    requires GoDecode(text).Some? && i < |GoDecode(text).value|
    ensures 2 * i + 1 < |text| && GoDecode(text).value[i] == Digit(text[2 * i]) * 16 + Digit(text[2 * i + 1])
  {
    if i > 0 {
      GoDigitsAt(text[2..], i - 1);
      assert text[2..][2 * (i - 1)] == text[2 * i] && text[2..][2 * (i - 1) + 1] == text[2 * i + 1];
    }
  }

  const DIGITS := "0123456789abcdef"

  // The value of a digit by its place among the small ones, or the capital ones.
  function Digit(c: char): int {
    if 'A' <= c <= 'F' then c as int - 'A' as int + 10
    else if 'a' <= c <= 'f' then c as int - 'a' as int + 10
    else c as int - '0' as int
  }

  /** Every byte is written as two small digits, the high one first. */
  lemma {:induction false} EncodedDigits(bytes: Bytes)
    ensures |Encode(bytes)| == 2 * |bytes|
    ensures forall i :: 0 <= i < |bytes| ==>
              Encode(bytes)[2 * i] == DIGITS[bytes[i] / 16] && Encode(bytes)[2 * i + 1] == DIGITS[bytes[i] % 16]
  {
    if bytes == [] {
    } else {
      EncodedDigits(bytes[1..]);
      DigitsInOrder(bytes[0] / 16);
      DigitsInOrder(bytes[0] % 16);
      assert Encode(bytes)[2..] == Encode(bytes[1..]);
      forall i | 0 < i < |bytes|
        ensures Encode(bytes)[2 * i] == DIGITS[bytes[i] / 16] && Encode(bytes)[2 * i + 1] == DIGITS[bytes[i] % 16]
      {
        assert bytes[1..][i - 1] == bytes[i];
        assert Encode(bytes)[2 * i] == Encode(bytes[1..])[2 * (i - 1)];
        assert Encode(bytes)[2 * i + 1] == Encode(bytes[1..])[2 * (i - 1) + 1];
      }
    }
  }

  lemma DigitsInOrder(v: int)
    requires 0 <= v < 16
    ensures DigitChar(v) == DIGITS[v]
  {
  }

  /** On text without white space bytes.fromhex accepts exactly the even-length strings of digits. */
  lemma {:induction false} PyDecodeExact(text: string)
    requires forall i :: 0 <= i < |text| ==> !IsSpace(text[i])
    ensures PyDecode(text).Some? <==> |text| % 2 == 0 && AllHex(text)
    ensures PyDecode(text).Some? ==> |text| == 2 * |PyDecode(text).value|
  {
    if |text| < 2 {
    } else {
      PyDecodeExact(text[2..]);
      AllHexSplits(text);
    }
  }
  /** White space is the six characters of ASCII that bytes.fromhex knows. */
  lemma SpacesExactly(c: char)
    ensures IsSpace(c) <==> c as int in {9, 10, 11, 12, 13, 32}
  {
  }

  /** White space is skipped between two pairs of digits. */
  lemma {:induction false} SpaceBetweenPairs(digits: string, c: char, after: string)
    requires AllHex(digits) && IsSpace(c) && |digits| % 2 == 0
    ensures PyDecode(digits + ([c] + after)) == PyDecode(digits + after)
    decreases |digits|
  {
    if digits == "" {
      assert digits + ([c] + after) == [c] + after && digits + after == after;
      assert ([c] + after)[1..] == after;
    } else {
      var rest := digits[2..];
      assert digits + ([c] + after) == [digits[0], digits[1]] + (rest + ([c] + after));
      assert digits + after == [digits[0], digits[1]] + (rest + after);
      UnfoldPair(digits[0], digits[1], rest + ([c] + after));
      UnfoldPair(digits[0], digits[1], rest + after);
      AllHexSplits(digits);
      SpaceBetweenPairs(rest, c, after);
    }
  }

  /** Inside a pair it is an error. */
  lemma {:induction false} SpaceInPair(digits: string, c: char, after: string)
    requires AllHex(digits) && IsSpace(c) && |digits| % 2 == 1
    ensures PyDecode(digits + ([c] + after)) == None
    decreases |digits|
  {
    if |digits| == 1 {
      assert digits + ([c] + after) == [digits[0], c] + after;
    } else {
      var rest := digits[2..];
      assert digits + ([c] + after) == [digits[0], digits[1]] + (rest + ([c] + after));
      UnfoldPair(digits[0], digits[1], rest + ([c] + after));
      AllHexSplits(digits);
      SpaceInPair(rest, c, after);
    }
  }
}
