/**
 Standard base64 (section 4 of RFC 4648): Go's StdEncoding on the bridge and
 Python's base64.b64decode, which discards characters outside the alphabet, on
 the server; and the server's "hexadecimal first, base64 next" reading of a
 signature.
 */
module Base64 {
  import opened Common
  import Hex

  function Char(v: int): (c: char)
    requires 0 <= v < 64
  {
    if v < 26 then ('A' as int + v) as char
    else if v < 52 then ('a' as int + (v - 26)) as char
    else if v < 62 then ('0' as int + (v - 52)) as char
    else if v == 62 then '+' else '/'
  }

  function Value(c: char): (v: Option<int>)
    ensures v.Some? ==> 0 <= v.value < 64
  {
    if 'A' <= c <= 'Z' then Some(c as int - 'A' as int)
    else if 'a' <= c <= 'z' then Some(c as int - 'a' as int + 26)
    else if '0' <= c <= '9' then Some(c as int - '0' as int + 52)
    else if c == '+' then Some(62)
    else if c == '/' then Some(63)
    else None
  }

  // The four six-bit groups of three bytes.
  function Sextets(a: byte, b: byte, c: byte): (q: seq<int>)
    ensures |q| == 4 && 0 <= q[0] < 64 && 0 <= q[1] < 64 && 0 <= q[2] < 64 && 0 <= q[3] < 64
  {
    [a / 4, (a % 4) * 16 + b / 16, (b % 16) * 4 + c / 64, c % 64]
  }

  function Quad(a: byte, b: byte, c: byte): (q: string)
    ensures |q| == 4
  {
    var s := Sextets(a, b, c);
    [Char(s[0]), Char(s[1]), Char(s[2]), Char(s[3])]
  }

  /** base64.StdEncoding.EncodeToString */
  function Encode(bytes: Bytes): string {
    if |bytes| == 0 then ""
    else if |bytes| == 1 then Quad(bytes[0], 0, 0)[..2] + "=="
    else if |bytes| == 2 then Quad(bytes[0], bytes[1], 0)[..3] + "="
    else Quad(bytes[0], bytes[1], bytes[2]) + Encode(bytes[3..])
  }

  /**
   Where base64.b64decode stands in the current group of four characters, the bits
   carried over, and the padding characters seen since the last data character.
   */
  datatype Place = Place(quad: int, left: int, pads: nat) {
    predicate Valid() {
      0 <= quad < 4 && 0 <= left &&
      (quad == 1 ==> left < 64) && (quad == 2 ==> left < 16) && (quad == 3 ==> left < 4)
    }
  }

  const START := Place(0, 0, 0)

  datatype Reading = Stop | Skip(next: Place) | Take(b: byte, next: Place)

  /**
   One character: padding ends the input once it completes a group and is skipped
   elsewhere; a character outside the alphabet is skipped.
   */
  function Read(c: char, p: Place): (r: Reading)
    requires p.Valid()
    ensures !r.Stop? ==> r.next.Valid()
  {
    if c == '=' then
      if p.quad < 2 then Skip(p)
      else if p.quad + p.pads + 1 >= 4 then Stop
      else Skip(p.(pads := p.pads + 1))
    else
      match Value(c)
      case None => Skip(p)
      case Some(v) =>
        if p.quad == 0 then Skip(Place(1, v, 0))
        else if p.quad == 1 then Take(p.left * 4 + v / 16, Place(2, v % 16, 0))
        else if p.quad == 2 then Take(p.left * 16 + v / 4, Place(3, v % 4, 0))
        else Take(p.left * 64 + v, START)
  }

  /** base64.b64decode without validation; an input ending inside a group is an error. */
  function DecodeFrom(text: string, p: Place): Option<Bytes>
    requires p.Valid()
    decreases |text|, 0
  {
    if text == "" then (if p.quad == 0 then Some([]) else None)
    else After(Read(text[0], p), text[1..])
  }

  function After(r: Reading, rest: string): Option<Bytes>
    requires !r.Stop? ==> r.next.Valid()
    decreases |rest|, 1
  {
    match r
    case Stop => Some([])
    case Skip(next) => DecodeFrom(rest, next)
    case Take(b, next) => Push(b, DecodeFrom(rest, next))
  }

  predicate Ascii(text: string) {
    forall i :: 0 <= i < |text| ==> text[i] as int < 128
  }

  /** base64.b64decode on a str, which raises an error for any character beyond ASCII. */
  function PyDecode(text: string): Option<Bytes> {
    if Ascii(text) then DecodeFrom(text, START) else None
  }

  function Decode(text: string): Option<Bytes> {
    DecodeFrom(text, START)
  }

  lemma ValueOfChar(v: int)
    requires 0 <= v < 64
    ensures Value(Char(v)) == Some(v) && Char(v) != '=' && !Hex.IsSpace(Char(v))
    ensures Hex.IsHexDigit(Char(v)) <==> IsHexSextet(v)
  {
  }

  const CAPITALS := "ABCDEFGHIJKLMNOPQRSTUVWXYZ"
  const SMALL := "abcdefghijklmnopqrstuvwxyz"
  const NUMERALS := "0123456789+/"

  /** The alphabet is that of table 1 of RFC 4648. */
  lemma StandardAlphabet(v: int)
    requires 0 <= v < 64
    ensures Char(v) == if v < 26 then CAPITALS[v] else if v < 52 then SMALL[v - 26] else NUMERALS[v - 52]
  {
  }

  /** The four values of a group spell its three bytes, most significant bits first. */
  lemma SextetsSpell(a: byte, b: byte, c: byte)
    ensures var q := Sextets(a, b, c); ((q[0] * 64 + q[1]) * 64 + q[2]) * 64 + q[3] == (a * 256 + b) * 256 + c
  {
  }

  // One step of the decoder.
  lemma Unfold(c: char, rest: string, p: Place)
    requires p.Valid()
    ensures DecodeFrom([c] + rest, p) == After(Read(c, p), rest)
  {
  }

  // A data character at each of the four places of a group.
  lemma AtFirst(v: int, rest: string)
    requires 0 <= v < 64
    ensures DecodeFrom([Char(v)] + rest, START) == DecodeFrom(rest, Place(1, v, 0))
  {
    Unfold(Char(v), rest, START);
    ValueOfChar(v);
  }

  lemma AtSecond(v: int, left: int, rest: string)
    requires 0 <= v < 64 && 0 <= left < 64
    ensures DecodeFrom([Char(v)] + rest, Place(1, left, 0)) ==
            Push(left * 4 + v / 16, DecodeFrom(rest, Place(2, v % 16, 0)))
  {
    Unfold(Char(v), rest, Place(1, left, 0));
    ValueOfChar(v);
  }

  lemma AtThird(v: int, left: int, rest: string)
    requires 0 <= v < 64 && 0 <= left < 16
    ensures DecodeFrom([Char(v)] + rest, Place(2, left, 0)) ==
            Push(left * 16 + v / 4, DecodeFrom(rest, Place(3, v % 4, 0)))
  {
    Unfold(Char(v), rest, Place(2, left, 0));
    ValueOfChar(v);
  }

  lemma AtFourth(v: int, left: int, rest: string)
    requires 0 <= v < 64 && 0 <= left < 4
    ensures DecodeFrom([Char(v)] + rest, Place(3, left, 0)) == Push(left * 64 + v, Decode(rest))
  {
    Unfold(Char(v), rest, Place(3, left, 0));
    ValueOfChar(v);
  }

  // The first and the second half of a group.
  lemma DecodeFirst(v0: int, v1: int, rest: string)
    requires 0 <= v0 < 64 && 0 <= v1 < 64
    ensures Decode([Char(v0)] + ([Char(v1)] + rest)) == Push(v0 * 4 + v1 / 16, DecodeFrom(rest, Place(2, v1 % 16, 0)))
  {
    AtFirst(v0, [Char(v1)] + rest);
    AtSecond(v1, v0, rest);
  }

  lemma DecodeSecond(v2: int, v3: int, left: int, rest: string)
    requires 0 <= v2 < 64 && 0 <= v3 < 64 && 0 <= left < 16
    ensures DecodeFrom([Char(v2)] + ([Char(v3)] + rest), Place(2, left, 0)) ==
            Push(left * 16 + v2 / 4, Push(v2 % 4 * 64 + v3, Decode(rest)))
  {
    AtThird(v2, left, [Char(v3)] + rest);
    AtFourth(v3, v2 % 4, rest);
  }

  lemma DecodeFour(v0: int, v1: int, v2: int, v3: int, rest: string)
    requires 0 <= v0 < 64 && 0 <= v1 < 64 && 0 <= v2 < 64 && 0 <= v3 < 64
    ensures Decode([Char(v0)] + ([Char(v1)] + ([Char(v2)] + ([Char(v3)] + rest)))) ==
            Push(v0 * 4 + v1 / 16, Push(v1 % 16 * 16 + v2 / 4, Push(v2 % 4 * 64 + v3, Decode(rest))))
  {
    DecodeFirst(v0, v1, [Char(v2)] + ([Char(v3)] + rest));
    DecodeSecond(v2, v3, v1 % 16, rest);
  }

  lemma DecodeQuad(a: byte, b: byte, c: byte, rest: string)
    ensures Decode(Quad(a, b, c) + rest) == Push(a, Push(b, Push(c, Decode(rest))))
  {
    var s := Sextets(a, b, c);
    DecodeFour(s[0], s[1], s[2], s[3], rest);
    QuadAppend(Char(s[0]), Char(s[1]), Char(s[2]), Char(s[3]), rest);
    assert s[0] * 4 + s[1] / 16 == a;
    assert s[1] % 16 * 16 + s[2] / 4 == b;
    assert s[2] % 4 * 64 + s[3] == c;
  }

  lemma QuadAppend(p: char, q: char, r: char, s: char, rest: string)
    ensures [p, q, r, s] + rest == [p] + ([q] + ([r] + ([s] + rest)))
  {
  }

  // Two data characters and two pads yield one byte; three and one yield two.
  lemma DecodeTwo(v0: int, v1: int)
    requires 0 <= v0 < 64 && 0 <= v1 < 64
    ensures Decode([Char(v0)] + ([Char(v1)] + (['='] + (['='] + [])))) == Push(v0 * 4 + v1 / 16, Some([]))
  {
    DecodeFirst(v0, v1, ['='] + (['='] + []));
    Unfold('=', ['='] + [], Place(2, v1 % 16, 0));
    Unfold('=', [], Place(2, v1 % 16, 1));
  }

  lemma DecodeThree(v0: int, v1: int, v2: int)
    requires 0 <= v0 < 64 && 0 <= v1 < 64 && 0 <= v2 < 64
    ensures Decode([Char(v0)] + ([Char(v1)] + ([Char(v2)] + (['='] + [])))) ==
            Push(v0 * 4 + v1 / 16, Push(v1 % 16 * 16 + v2 / 4, Some([])))
  {
    DecodeFirst(v0, v1, [Char(v2)] + (['='] + []));
    AtThird(v2, v1 % 16, ['='] + []);
    Unfold('=', [], Place(3, v2 % 4, 0));
  }

  lemma TailShape(p: char, q: char, r: char, s: char)
    ensures [p, q, r, s][..2] + "==" == [p] + ([q] + (['='] + (['='] + [])))
    ensures [p, q, r, s][..3] + "=" == [p] + ([q] + ([r] + (['='] + [])))
  {
  }

  lemma DecodeOne(a: byte)
    ensures Decode(Encode([a])) == Some([a])
  {
    var s := Sextets(a, 0, 0);
    TailShape(Char(s[0]), Char(s[1]), Char(s[2]), Char(s[3]));
    DecodeTwo(s[0], s[1]);
    assert [a] + [] == [a];
  }

  lemma PairBits(a: byte, b: byte)
    ensures var s := Sextets(a, b, 0); s[0] * 4 + s[1] / 16 == a && s[1] % 16 * 16 + s[2] / 4 == b
  {
  }

  lemma EncodePair(a: byte, b: byte)
    ensures Encode([a, b]) == Quad(a, b, 0)[..3] + "="
  {
  }

  lemma DecodePair(a: byte, b: byte)
    ensures Decode(Encode([a, b])) == Some([a, b])
  {
    var s := Sextets(a, b, 0);
    EncodePair(a, b);
    PairBits(a, b);
    TailShape(Char(s[0]), Char(s[1]), Char(s[2]), Char(s[3]));
    DecodeThree(s[0], s[1], s[2]);
    assert [b] + [] == [b] && [a] + [b] == [a, b];
  }

  lemma {:induction false} DecodeInverts(bytes: Bytes)
    ensures Decode(Encode(bytes)) == Some(bytes)
  {
    if |bytes| == 0 {
    } else if |bytes| == 1 {
      DecodeOne(bytes[0]);
      assert bytes == [bytes[0]];
    } else if |bytes| == 2 {
      DecodePair(bytes[0], bytes[1]);
      assert bytes == [bytes[0], bytes[1]];
    } else {
      DecodeQuad(bytes[0], bytes[1], bytes[2], Encode(bytes[3..]));
      DecodeInverts(bytes[3..]);
      assert bytes == [bytes[0]] + ([bytes[1]] + ([bytes[2]] + bytes[3..]));
    }
  }

  lemma AsciiAppend(a: string, b: string)
    requires Ascii(a) && Ascii(b)
    ensures Ascii(a + b)
  {
  }

  lemma {:induction false} EncodedAscii(bytes: Bytes)
    ensures Ascii(Encode(bytes))
  {
    if |bytes| == 0 {
    } else if |bytes| == 1 {
      AsciiAppend(Quad(bytes[0], 0, 0)[..2], "==");
    } else if |bytes| == 2 {
      AsciiAppend(Quad(bytes[0], bytes[1], 0)[..3], "=");
    } else {
      EncodedAscii(bytes[3..]);
      AsciiAppend(Quad(bytes[0], bytes[1], bytes[2]), Encode(bytes[3..]));
    }
  }

  /** The server's lenient decoder inverts the bridge's encoder on every byte string. */
  lemma {:induction false} RoundTrip(bytes: Bytes)
    ensures PyDecode(Encode(bytes)) == Some(bytes)
  {
    DecodeInverts(bytes);
    EncodedAscii(bytes);
  }

  // --- Reading a signature: hexadecimal if it parses, base64 otherwise ---

  /** How finalize_direct_sign reads its signature argument; None is a raised error. */
  function DecodeSignature(text: string): Option<Bytes> {
    FirstReading(Hex.PyDecode(text), PyDecode(text))
  }

  function FirstReading(hex: Option<Bytes>, base64: Option<Bytes>): Option<Bytes> {
    if hex.Some? then hex else base64
  }

  lemma {:induction false} HexIsAscii(text: string)
    ensures Hex.PyDecode(text).Some? ==> Ascii(text)
    decreases |text|
  {
    if text == "" {
    } else if Hex.IsSpace(text[0]) {
      HexIsAscii(text[1..]);
      assert text == [text[0]] + text[1..];
    } else if |text| >= 2 && Hex.IsHexDigit(text[0]) && Hex.IsHexDigit(text[1]) {
      HexIsAscii(text[2..]);
      assert text == [text[0], text[1]] + text[2..];
    }
  }

  /** Text with a character beyond ASCII is an error in both readings. */
  lemma {:induction false} BeyondAsciiRefused(text: string)
    requires !Ascii(text)
    ensures DecodeSignature(text) == None
  {
    HexIsAscii(text);
  }

  // The six-bit values whose base64 character is a hexadecimal digit.
  predicate IsHexSextet(v: int) {
    0 <= v < 6 || 26 <= v < 32 || 52 <= v < 62
  }

  predicate HexGroup(a: byte, b: byte, c: byte) {
    var s := Sextets(a, b, c);
    IsHexSextet(s[0]) && IsHexSextet(s[1]) && IsHexSextet(s[2]) && IsHexSextet(s[3])
  }

  /**
   The byte strings whose base64 text is also hexadecimal text: whole groups of
   three bytes, every six-bit value of which prints as a hexadecimal digit.
   */
  predicate LooksLikeHex(bytes: Bytes) {
    bytes == [] ||
    (|bytes| >= 3 &&
     HexGroup(bytes[0], bytes[1], bytes[2]) &&
     LooksLikeHex(bytes[3..]))
  }

  // What the two readers of a signature can tell about one character of text.
  predicate Plain(text: string, hex: bool) {
    (forall i :: 0 <= i < |text| ==> !Hex.IsSpace(text[i])) && (Hex.AllHex(text) <==> hex)
  }

  lemma PlainAppend(a: string, hexA: bool, b: string, hexB: bool)
    requires Plain(a, hexA) && Plain(b, hexB)
    ensures Plain(a + b, hexA && hexB)
  {
    var text := a + b;
    assert forall i :: 0 <= i < |a| ==> a[i] == text[i];
    assert forall i :: 0 <= i < |b| ==> b[i] == text[|a| + i];
  }

  lemma QuadPlain(a: byte, b: byte, c: byte)
    ensures Plain(Quad(a, b, c), HexGroup(a, b, c))
  {
    var s, q := Sextets(a, b, c), Quad(a, b, c);
    forall i | 0 <= i < 4
      ensures !Hex.IsSpace(q[i]) && (Hex.IsHexDigit(q[i]) <==> IsHexSextet(s[i]))
    {
      ValueOfChar(s[i]);
    }
  }

  lemma PaddedPlain(text: string, keep: nat, pad: string)
    requires keep <= |text| && Plain(text, Hex.AllHex(text))
    requires pad == "=" || pad == "=="
    ensures Plain(text[..keep] + pad, false)
  {
    assert (text[..keep] + pad)[keep] == '=';
  }

  lemma GroupShape(a: byte, b: byte, c: byte, rest: string, hexRest: bool)
    requires Plain(rest, hexRest)
    ensures Plain(Quad(a, b, c) + rest, HexGroup(a, b, c) && hexRest)
  {
    QuadPlain(a, b, c);
    PlainAppend(Quad(a, b, c), HexGroup(a, b, c), rest, hexRest);
  }

  // How many groups of four characters encode `n` bytes.
  function Groups(n: nat): nat {
    if n == 0 then 0 else if n <= 3 then 1 else 1 + Groups(n - 3)
  }

  lemma {:induction false} EncodedLength(bytes: Bytes)
    ensures |Encode(bytes)| == 4 * Groups(|bytes|)
  {
    if |bytes| < 3 {
    } else {
      EncodedLength(bytes[3..]);
      assert |Encode(bytes)| == 4 + |Encode(bytes[3..])|;
    }
  }

  /**
   The text of a signature is hexadecimal text exactly for whole groups of hexadecimal
   sextets, and holds no white space.
   */
  lemma {:induction false} EncodedShape(bytes: Bytes)
    ensures Plain(Encode(bytes), LooksLikeHex(bytes))
  {
    if |bytes| == 1 {
      QuadPlain(bytes[0], 0, 0);
      PaddedPlain(Quad(bytes[0], 0, 0), 2, "==");
    } else if |bytes| == 2 {
      QuadPlain(bytes[0], bytes[1], 0);
      PaddedPlain(Quad(bytes[0], bytes[1], 0), 3, "=");
    } else if |bytes| >= 3 {
      EncodedShape(bytes[3..]);
      GroupShape(bytes[0], bytes[1], bytes[2], Encode(bytes[3..]), LooksLikeHex(bytes[3..]));
    }
  }

  lemma HexTail(bytes: Bytes)
    requires LooksLikeHex(bytes) && bytes != []
    ensures |bytes| >= 3 && LooksLikeHex(bytes[3..])
  {
  }

  lemma GroupsStep(n: nat)
    requires n >= 3
    ensures Groups(n) == 1 + Groups(n - 3)
  {
  }

  lemma {:induction false} WholeGroups(bytes: Bytes)
    ensures LooksLikeHex(bytes) ==> |bytes| == 3 * Groups(|bytes|)
  {
    if bytes != [] && LooksLikeHex(bytes) {
      HexTail(bytes);
      WholeGroups(bytes[3..]);
      GroupsStep(|bytes|);
    }
  }

  // Hexadecimal text of that length holds too few bytes: two, not three, for each group.
  lemma ReadingExact(hex: Option<Bytes>, base64: Option<Bytes>, groups: nat, signature: Bytes, hexText: bool)
    requires (hex.Some? <==> hexText) && (hex.Some? ==> |hex.value| == 2 * groups)
    requires base64 == Some(signature) && (hexText ==> |signature| == 3 * groups)
    ensures FirstReading(hex, base64) == Some(signature) <==> signature == [] || !hexText
  {
  }

  // What bytes.fromhex makes of such text.
  lemma {:induction false} HexReading(text: string, hexText: bool, groups: nat)
    requires Plain(text, hexText) && |text| == 4 * groups
    ensures Hex.PyDecode(text).Some? <==> hexText
    ensures hexText ==> |Hex.PyDecode(text).value| == 2 * groups
  {
    EvenLength(groups);
    Hex.PyDecodeExact(text);
    TwoForEach(Hex.PyDecode(text), |text|, groups);
  }

  lemma EvenLength(groups: nat)
    ensures 4 * groups % 2 == 0
  {
  }

  lemma TwoForEach(hex: Option<Bytes>, length: nat, groups: nat)
    requires length == 4 * groups
    ensures hex.Some? && length == 2 * |hex.value| ==> |hex.value| == 2 * groups
  {
  }

  /**
   A signature survives the trip from the bridge to the server exactly when it is
   empty or its base64 text cannot be read as hexadecimal. A caller can decide the
   condition on the signature's bytes.
   */
  lemma {:induction false} SignatureTransportExact(signature: Bytes)
    ensures DecodeSignature(Encode(signature)) == Some(signature) <==> signature == [] || !LooksLikeHex(signature)
  {
    var text, hexText, groups := Encode(signature), LooksLikeHex(signature), Groups(|signature|);
    EncodedLength(signature);
    EncodedShape(signature);
    RoundTrip(signature);
    WholeGroups(signature);
    HexReading(text, hexText, groups);
    ReadingExact(Hex.PyDecode(text), PyDecode(text), groups, signature, hexText);
  }

  lemma NeverWhole(hexText: bool, n: nat, groups: nat)
    requires n % 3 != 0 && (hexText ==> n == 3 * groups)
    ensures !hexText
  {
  }

  /**
   Lengths that are not a multiple of 3 (64, 256 and 512 bytes among them) are always
   safe: the padding is no hexadecimal digit.
   */
  lemma {:induction false} PaddedSignatureTransport(signature: Bytes)
    requires |signature| % 3 != 0
    ensures DecodeSignature(Encode(signature)) == Some(signature)
  {
    WholeGroups(signature);
    NeverWhole(LooksLikeHex(signature), |signature|, Groups(|signature|));
    SignatureTransportExact(signature);
  }

  /**
   Three bytes that print as four hexadecimal digits are read back as the two bytes
   those digits spell: three zero bytes travel as "AAAA" and arrive as AA AA.
   */
  lemma HexGroupMisread(a: byte, b: byte, c: byte)
    requires HexGroup(a, b, c)
    ensures var q := Quad(a, b, c);
      Hex.AllHex(q) &&
      DecodeSignature(Encode([a, b, c])) ==
      Some([Hex.DigitValue(q[0]) * 16 + Hex.DigitValue(q[1]), Hex.DigitValue(q[2]) * 16 + Hex.DigitValue(q[3])])
  {
    var q := Quad(a, b, c);
    QuadPlain(a, b, c);
    EncodeGroup(a, b, c);
    FourDigits(q[0], q[1], q[2], q[3]);
    assert q == [q[0], q[1]] + [q[2], q[3]];
  }

  lemma FourDigits(p: char, q: char, r: char, s: char)
    requires Hex.IsHexDigit(p) && Hex.IsHexDigit(q) && Hex.IsHexDigit(r) && Hex.IsHexDigit(s)
    ensures Hex.PyDecode([p, q] + [r, s]) ==
            Some([Hex.DigitValue(p) * 16 + Hex.DigitValue(q), Hex.DigitValue(r) * 16 + Hex.DigitValue(s)])
  {
    Hex.UnfoldPair(p, q, [r, s]);
    Hex.UnfoldPair(r, s, []);
    assert [r, s] + [] == [r, s];
    var hi, lo := Hex.DigitValue(p) * 16 + Hex.DigitValue(q), Hex.DigitValue(r) * 16 + Hex.DigitValue(s);
    assert Hex.PyDecode([r, s]) == Some([lo] + []);
    assert [hi] + ([lo] + []) == [hi, lo];
  }

  lemma EncodeGroup(a: byte, b: byte, c: byte)
    ensures Encode([a, b, c]) == Quad(a, b, c)
  {
  }
  // --- What the lenient decoder skips ---

  /** A character outside the alphabet, padding apart, changes nothing wherever it stands. */
  lemma {:induction false} ForeignIsSkipped(before: string, c: char, after: string, p: Place)
    requires p.Valid() && Value(c).None? && c != '='
    ensures DecodeFrom(before + [c] + after, p) == DecodeFrom(before + after, p)
    decreases |before|
  {
    if before == "" {
      assert before + [c] + after == [c] + after && before + after == after;
      Unfold(c, after, p);
    } else {
      var rest, r := before[1..], Read(before[0], p);
      assert before + [c] + after == [before[0]] + (rest + [c] + after);
      assert before + after == [before[0]] + (rest + after);
      Unfold(before[0], rest + [c] + after, p);
      Unfold(before[0], rest + after, p);
      if !r.Stop? {
        ForeignIsSkipped(rest, c, after, r.next);
      }
    }
  }

  /** Text of the alphabet alone decodes exactly when it consists of whole groups of four. */
  lemma {:induction false} UnpaddedExact(text: string, p: Place)
    requires p.Valid() && Data(text)
    ensures DecodeFrom(text, p).Some? <==> (p.quad + |text|) % 4 == 0
    decreases |text|
  {
    if text == "" {
    } else {
      DataTurns(text[0], p);
      UnpaddedExact(text[1..], Read(text[0], p).next);
      TurnsAdd(p.quad, |text|);
    }
  }
  predicate Data(text: string) {
    forall i :: 0 <= i < |text| ==> Value(text[i]).Some? && text[i] != '='
  }

  // Where data characters leave the decoder.
  function Behind(data: string, p: Place): (q: Place)
    requires p.Valid() && p.pads == 0 && Data(data)
    ensures q.Valid() && q.pads == 0
  {
    if data == "" then p else Behind(data[1..], Read(data[0], p).next)
  }

  lemma {:induction false} BehindQuad(data: string, p: Place)
    requires p.Valid() && p.pads == 0 && Data(data)
    ensures Behind(data, p).quad == (p.quad + |data|) % 4
    decreases |data|
  {
    if data == "" {
    } else {
      DataTurns(data[0], p);
      BehindQuad(data[1..], Read(data[0], p).next);
      TurnsAdd(p.quad, |data|);
    }
  }

  lemma DataTurns(c: char, p: Place)
    requires p.Valid() && c != '=' && Value(c).Some?
    ensures Read(c, p).next.quad == (p.quad + 1) % 4
  {
  }

  lemma TurnsAdd(quad: int, n: nat)
    requires 0 <= quad < 4 && n > 0
    ensures ((quad + 1) % 4 + (n - 1)) % 4 == (quad + n) % 4
  {
  }

  // What follows data is read from there.
  lemma {:induction false} BehindData(data: string, p: Place, after: string, other: string)
    requires p.Valid() && p.pads == 0 && Data(data)
    requires DecodeFrom(after, Behind(data, p)) == DecodeFrom(other, Behind(data, p))
    ensures DecodeFrom(data + after, p) == DecodeFrom(data + other, p)
    decreases |data|
  {
    if data == "" {
      assert data + after == after && data + other == other;
    } else {
      var rest, r := data[1..], Read(data[0], p);
      HeadOff(data, after);
      HeadOff(data, other);
      BehindData(rest, r.next, after, other);
      SameAfter(r, rest + after, rest + other);
      Unfold(data[0], rest + after, p);
      Unfold(data[0], rest + other, p);
    }
  }

  lemma HeadOff(text: string, after: string)
    requires text != ""
    ensures text + after == [text[0]] + (text[1..] + after)
  {
  }

  lemma SameAfter(r: Reading, a: string, b: string)
    requires !r.Stop? ==> r.next.Valid() && DecodeFrom(a, r.next) == DecodeFrom(b, r.next)
    ensures After(r, a) == After(r, b)
  {
  }

  /**
   Padding: before the third character of a group it is skipped; behind the third it
   ends the input, whatever follows; behind the second it takes two to end it, and one
   alone is skipped before more data.
   */
  lemma PaddingExact(data: string, after: string, c: char)
    requires Data(data) && Data([c])
    ensures |data| % 4 < 2 ==> Decode(data + ("=" + after)) == Decode(data + after)
    ensures |data| % 4 == 3 ==> Decode(data + ("=" + after)) == Decode(data + "=")
    ensures |data| % 4 == 2 ==> Decode(data + ("==" + after)) == Decode(data + "==")
    ensures |data| % 4 == 2 ==> Decode(data + ("=" + ([c] + after))) == Decode(data + ([c] + after))
  {
    PaddingHere(Behind(data, START), after, c);
    BehindQuad(data, START);
    if |data| % 4 < 2 {
      BehindData(data, START, "=" + after, after);
    } else if |data| % 4 == 3 {
      BehindData(data, START, "=" + after, "=");
    } else {
      BehindData(data, START, "==" + after, "==");
      BehindData(data, START, "=" + ([c] + after), [c] + after);
    }
  }

  lemma PaddingHere(q: Place, after: string, c: char)
    requires q.Valid() && q.pads == 0 && Data([c])
    ensures q.quad < 2 ==> DecodeFrom("=" + after, q) == DecodeFrom(after, q)
    ensures q.quad == 3 ==> DecodeFrom("=" + after, q) == DecodeFrom("=", q) == Some([])
    ensures q.quad == 2 ==> DecodeFrom("==" + after, q) == DecodeFrom("==", q) == Some([])
    ensures q.quad == 2 ==> DecodeFrom("=" + ([c] + after), q) == DecodeFrom([c] + after, q)
  {
    Unfold('=', after, q);
    Unfold('=', [], q);
    if q.quad == 2 {
      TwoPadsEnd(q, after);
      assert [c][0] == c;
      OnePadIsSkipped(q, after, c);
    }
  }

  lemma TwoPadsEnd(q: Place, after: string)
    requires q.Valid() && q.pads == 0 && q.quad == 2
    ensures DecodeFrom("==" + after, q) == DecodeFrom("==", q) == Some([])
  {
    assert "==" + after == ['='] + (['='] + after) && "==" == ['='] + (['='] + []);
    Unfold('=', ['='] + after, q);
    Unfold('=', ['='] + [], q);
    Unfold('=', after, q.(pads := 1));
    Unfold('=', [], q.(pads := 1));
  }

  lemma OnePadIsSkipped(q: Place, after: string, c: char)
    requires q.Valid() && q.pads == 0 && q.quad == 2 && c != '=' && Value(c).Some?
    ensures DecodeFrom("=" + ([c] + after), q) == DecodeFrom([c] + after, q)
  {
    Unfold('=', [c] + after, q);
    Unfold(c, after, q);
    Unfold(c, after, q.(pads := 1));
  }
}
