/**
 The bridge's hand-written DER encoder, and an independent strict DER decoder
 (X.690, sections 8.1.3, 8.3 and 10.1) that serves as its specification.
 */
module Der {
  import opened Common

  // --- The encoder ---

  /** Header of a value of `n` bytes, as asn1Wrap writes it: each byte(...) conversion keeps eight bits. */
  function Header(tag: byte, n: nat): Bytes {
    if n < 128 then [tag, n]
    else if n < 256 then [tag, 0x81, n]
    else [tag, 0x82, n / 256 % 256, n % 256]
  }

  function WrapBody(tag: byte, body: Bytes): Bytes {
    Header(tag, |body|) + body
  }

  function Wrap(tag: byte, contents: seq<Bytes>): Bytes {
    WrapBody(tag, Flatten(contents))
  }

  /** asn1Wrap */
  method Asn1Wrap(tag: byte, contents: seq<Bytes>) returns (out: Bytes)
    ensures out == Wrap(tag, contents)
    ensures Read(out) == Some(Tlv(tag, Flatten(contents), [])) <==>
            tag % 32 != 31 && |Flatten(contents)| < MAX_BODY
  {
    var body: Bytes := [];
    for i := 0 to |contents|
      invariant body == Flatten(contents[..i])
    {
      FlattenSnoc(contents[..i], contents[i]);
      assert contents[..i] + [contents[i]] == contents[..i + 1];
      body := body + contents[i];
    }
    assert contents[..|contents|] == contents;
    var length := |body|;
    var header: Bytes;
    if length < 128 {
      header := [tag, length];
    } else if length < 256 {
      header := [tag, 0x81, length];
    } else {
      header := [tag, 0x82, length / 256 % 256, length % 256];
    }
    WrapReadsBackExact(tag, body, []);
    assert WrapBody(tag, body) + [] == WrapBody(tag, body);
    return header + body;
  }

  // --- The decoder ---

  datatype Tlv = Tlv(tag: byte, body: Bytes, rest: Bytes)

  // The number a big-endian byte string spells.
  function BigEndian(s: Bytes): nat {
    if s == [] then 0 else BigEndian(s[..|s| - 1]) * 256 + s[|s| - 1]
  }

  /** Length octets at the front of `s`: definite, shortest form; the length and the octets used. */
  function ReadLength(s: Bytes): (r: Option<(nat, nat)>)
    ensures r.Some? ==> 1 <= r.value.1 <= |s|
  {
    if s == [] then None
    else if s[0] < 128 then Some((s[0], 1))
    else
      var k := s[0] - 128;
      if k == 0 || k == 127 || |s| < 1 + k then None
      else
        var n := BigEndian(s[1..1 + k]);
        if s[1] == 0 || n < 128 then None else Some((n, 1 + k))
  }

  /** One value with a single-octet tag at the front of `s`. */
  function Read(s: Bytes): Option<Tlv> {
    if s == [] || s[0] % 32 == 31 then None
    else
      match ReadLength(s[1..])
      case None => None
      case Some((n, used)) =>
        if |s| < 1 + used + n then None
        else Some(Tlv(s[0], s[1 + used..1 + used + n], s[1 + used + n..]))
  }

  // Bodies longer than this do not fit the encoder's longest header.
  const MAX_BODY := 65536

  lemma BigEndian1(a: byte)
    ensures BigEndian([a]) == a
  {
  }

  lemma BigEndian2(a: byte, b: byte)
    ensures BigEndian([a, b]) == a * 256 + b
  {
    assert [a, b][..1] == [a];
    BigEndian1(a);
  }

  lemma ReadShort(n: byte, rest: Bytes)
    requires n < 128
    ensures ReadLength([n] + rest) == Some((n, 1))
  {
  }

  lemma ReadLong1(n: byte, rest: Bytes)
    requires n >= 128
    ensures ReadLength([0x81, n] + rest) == Some((n, 2))
  {
    var s := [0x81, n] + rest;
    assert s[1..2] == [n];
    BigEndian1(n);
  }

  lemma ReadLong2(hi: byte, lo: byte, rest: Bytes)
    ensures ReadLength([0x82, hi, lo] + rest) ==
            if hi == 0 then None else Some((hi * 256 + lo, 3))
  {
    var s := [0x82, hi, lo] + rest;
    assert s[1..3] == [hi, lo];
    BigEndian2(hi, lo);
  }

  // The length the decoder finds behind the tag of an encoded value.
  lemma LengthReadsBack(tag: byte, n: nat, rest: Bytes)
    ensures ReadLength((Header(tag, n) + rest)[1..]) ==
            if n < MAX_BODY then Some((n, |Header(tag, n)| - 1))
            else if n / 256 % 256 == 0 then None
            else Some((n % MAX_BODY, 3))
  {
    if n < 128 {
      assert ([tag, n] + rest)[1..] == [n] + rest;
      ReadShort(n, rest);
    } else if n < 256 {
      assert ([tag, 0x81, n] + rest)[1..] == [0x81, n] + rest;
      ReadLong1(n, rest);
    } else {
      TwoOctets(tag, n / 256 % 256, n % 256, rest);
    }
  }

  lemma TwoOctets(tag: byte, hi: byte, lo: byte, rest: Bytes)
    ensures ReadLength(([tag, 0x82, hi, lo] + rest)[1..]) == if hi == 0 then None else Some((hi * 256 + lo, 3))
  {
    assert ([tag, 0x82, hi, lo] + rest)[1..] == [0x82, hi, lo] + rest;
    ReadLong2(hi, lo, rest);
  }

  lemma ReadAt(tag: byte, h: Bytes, body: Bytes, rest: Bytes)
    requires |h| >= 2 && h[0] == tag && tag % 32 != 31
    requires ReadLength((h + (body + rest))[1..]) == Some((|body|, |h| - 1))
    ensures Read(h + body + rest) == Some(Tlv(tag, body, rest))
  {
    var s := h + (body + rest);
    assert s == h + body + rest;
    assert s[|h|..|h| + |body|] == body && s[|h| + |body|..] == rest;
  }

  /** Decoding an encoded value gives back tag, body and whatever follows. */
  lemma WrapReadsBack(tag: byte, body: Bytes, rest: Bytes)
    requires tag % 32 != 31 && |body| < MAX_BODY
    ensures Read(WrapBody(tag, body) + rest) == Some(Tlv(tag, body, rest))
  {
    LengthReadsBack(tag, |body|, body + rest);
    ReadAt(tag, Header(tag, |body|), body, rest);
  }

  // From 65536 bytes on the header holds the length modulo 65536.
  lemma TooLongReadsBack(tag: byte, body: Bytes, rest: Bytes)
    requires |body| >= MAX_BODY
    ensures var r := Read(WrapBody(tag, body) + rest); r.None? || (|r.value.body| < |body| && r.value.rest != [])
  {
    var h := Header(tag, |body|);
    var s := h + (body + rest);
    assert WrapBody(tag, body) + rest == s;
    LengthReadsBack(tag, |body|, body + rest);
  }

  lemma WrapReadsBackExact(tag: byte, body: Bytes, rest: Bytes)
    ensures Read(WrapBody(tag, body) + rest) == Some(Tlv(tag, body, rest)) <==> tag % 32 != 31 && |body| < MAX_BODY
  {
    if |body| >= MAX_BODY {
      TooLongReadsBack(tag, body, rest);
    } else if tag % 32 != 31 {
      WrapReadsBack(tag, body, rest);
    } else {
      assert (WrapBody(tag, body) + rest)[0] == tag;
    }
  }

  /**
   asn1Wrap inverts under the decoder, at every position of a stream, exactly for
   single-octet tags and bodies under 65536 bytes.
   */
  lemma EncoderInvertsExactly(tag: byte, contents: seq<Bytes>, rest: Bytes)
    ensures Read(Wrap(tag, contents) + rest) == Some(Tlv(tag, Flatten(contents), rest)) <==>
            tag % 32 != 31 && |Flatten(contents)| < MAX_BODY
  {
    WrapReadsBackExact(tag, Flatten(contents), rest);
  }

  lemma {:induction false} LongLength(t: Bytes)
    requires |t| >= 3 && t[0] != 0
    ensures BigEndian(t) >= MAX_BODY
  {
    var front := t[..|t| - 1];
    if |t| == 3 {
      assert front == [t[0], t[1]];
      BigEndian2(t[0], t[1]);
    } else {
      LongLength(front);
    }
  }

  /**
   The encoding is the only one: whatever the strict decoder accepts with a body
   under 65536 bytes is what asn1Wrap writes for that tag and body, so the length is
   in its shortest form.
   */
  lemma EncodingUnique(s: Bytes)
    ensures Read(s).Some? && |Read(s).value.body| < MAX_BODY ==>
              s == WrapBody(Read(s).value.tag, Read(s).value.body) + Read(s).value.rest
  {
    if Read(s).Some? && |Read(s).value.body| < MAX_BODY {
      var t := Read(s).value;
      var (n, used) := ReadLength(s[1..]).value;
      assert s[1..][0] == s[1];
      HeaderUnique(s[0], s[1..]);
      assert s == [s[0]] + s[1..1 + used] + (t.body + t.rest);
      assert s[1..][..used] == s[1..1 + used];
    }
  }

  lemma HeaderUnique(tag: byte, s: Bytes)
    requires ReadLength(s).Some? && ReadLength(s).value.0 < MAX_BODY
    ensures [tag] + s[..ReadLength(s).value.1] == Header(tag, ReadLength(s).value.0)
  {
    if s[0] >= 128 {
      var octets := s[1..s[0] - 127];
      if |octets| >= 3 {
        LongLength(octets);
      } else if |octets| == 2 {
        assert octets == [s[1], s[2]];
        BigEndian2(s[1], s[2]);
      } else {
        assert octets == [s[1]];
        BigEndian1(s[1]);
      }
    }
  }

  // --- Sequences of values ---

  datatype Item = Item(tag: byte, body: Bytes)

  predicate Encodable(i: Item) {
    i.tag % 32 != 31 && |i.body| < MAX_BODY
  }

  function WrapAll(items: seq<Item>): Bytes {
    if items == [] then [] else WrapBody(items[0].tag, items[0].body) + WrapAll(items[1..])
  }

  /** All of `s` as consecutive values, with nothing left over. */
  function ReadAll(s: Bytes): Option<seq<Item>>
    decreases |s|
  {
    if s == [] then Some([])
    else
      match Read(s)
      case None => None
      case Some(t) => Cons(Item(t.tag, t.body), ReadAll(t.rest))
  }

  function Cons(i: Item, rest: Option<seq<Item>>): Option<seq<Item>> {
    if rest.Some? then Some([i] + rest.value) else None
  }

  lemma ReadAllStep(i: Item, rest: Bytes)
    requires Encodable(i)
    ensures ReadAll(WrapBody(i.tag, i.body) + rest) == Cons(i, ReadAll(rest))
  {
    WrapReadsBack(i.tag, i.body, rest);
  }

  /** A stream of encoded values splits back into those values. */
  lemma {:induction false} WrapAllReadsBack(items: seq<Item>)
    requires forall i :: i in items ==> Encodable(i)
    ensures ReadAll(WrapAll(items)) == Some(items)
  {
    if items == [] {
    } else {
      assert Encodable(items[0]);
      assert forall i :: i in items[1..] ==> i in items;
      WrapAllReadsBack(items[1..]);
      ReadAllStep(items[0], WrapAll(items[1..]));
      assert items == [items[0]] + items[1..];
    }
  }

  /** Two lists of values with the same encoding are the same list. */
  lemma SplitUnique(a: seq<Item>, b: seq<Item>)
    requires forall i :: i in a ==> Encodable(i)
    requires forall i :: i in b ==> Encodable(i)
    requires WrapAll(a) == WrapAll(b)
    ensures a == b
  {
    WrapAllReadsBack(a);
    WrapAllReadsBack(b);
  }

  // --- Integers ---

  /** big.Int.Bytes: the magnitude, big-endian, without leading zeros. */
  function MinBytes(n: nat): Bytes {
    if n == 0 then [] else MinBytes(n / 256) + [n % 256]
  }

  function Magnitude(serial: int): nat {
    if serial < 0 then -serial else serial
  }

  // The contents asn1Integer wraps: a zero byte in front when the high bit is set.
  function IntegerBody(data: Bytes): Bytes {
    if data != [] && data[0] >= 128 then [0] + data else data
  }

  /** asn1Integer */
  function Asn1Integer(data: Bytes): Bytes {
    WrapBody(0x02, IntegerBody(data))
  }

  function Pow256(k: nat): nat {
    if k == 0 then 1 else 256 * Pow256(k - 1)
  }

  /** Minimal two's complement: at least one octet, and the first nine bits not all equal. */
  function ReadInteger(body: Bytes): Option<int> {
    if body == [] then None
    else if |body| > 1 && body[0] == 0 && body[1] < 128 then None
    else if |body| > 1 && body[0] == 255 && body[1] >= 128 then None
    else Some(BigEndian(body) - (if body[0] >= 128 then Pow256(|body|) else 0))
  }

  lemma {:induction false} MinBytesValue(n: nat)
    ensures BigEndian(MinBytes(n)) == n
    ensures n > 0 ==> MinBytes(n) != [] && MinBytes(n)[0] != 0
  {
    if n == 0 {
    } else {
      MinBytesValue(n / 256);
      var head := MinBytes(n / 256);
      assert (head + [n % 256])[..|head|] == head;
    }
  }

  lemma {:induction false} LeadingZero(data: Bytes)
    ensures BigEndian([0] + data) == BigEndian(data)
  {
    if data == [] {
      BigEndian1(0);
      assert [0] + data == [0];
    } else {
      var front := data[..|data| - 1];
      LeadingZero(front);
      assert ([0] + data)[..|data|] == [0] + front;
    }
  }

  /**
   The contents octets of a serial number are the minimal two's complement of that
   number exactly when it is positive: zero has no octets at all, and a negative
   serial loses its sign.
   */
  lemma IntegerExact(serial: int)
    ensures ReadInteger(IntegerBody(MinBytes(Magnitude(serial)))) == Some(serial) <==> serial > 0
    ensures serial < 0 ==> ReadInteger(IntegerBody(MinBytes(Magnitude(serial)))) == Some(-serial)
    ensures serial == 0 ==> IntegerBody(MinBytes(Magnitude(serial))) == []
  {
    var data := MinBytes(Magnitude(serial));
    MinBytesValue(Magnitude(serial));
    LeadingZero(data);
  }

  lemma {:induction false} BigEndianPositive(data: Bytes)
    requires data != [] && data[0] != 0
    ensures BigEndian(data) > 0
  {
    if |data| <= 1 {
    } else {
      BigEndianPositive(data[..|data| - 1]);
    }
  }

  lemma {:induction false} MinBytesUnique(data: Bytes)
    requires data != [] ==> data[0] != 0
    ensures MinBytes(BigEndian(data)) == data
  {
    if data == [] {
    } else {
      var front, last := data[..|data| - 1], data[|data| - 1];
      MinBytesUnique(front);
      BigEndianPositive(data);
      MinBytesStep(BigEndian(front), last);
      assert data == front + [last];
    }
  }

  lemma MinBytesStep(high: nat, low: byte)
    requires high * 256 + low > 0
    ensures MinBytes(high * 256 + low) == MinBytes(high) + [low]
  {
  }

  /** The contents octets are the only minimal two's complement of a positive serial. */
  lemma IntegerUnique(body: Bytes)
    requires ReadInteger(body).Some? && body[0] < 128 && body != [0]
    ensures ReadInteger(body).value > 0 && body == IntegerBody(MinBytes(ReadInteger(body).value))
  {
    if body[0] == 0 {
      var data := body[1..];
      assert body == [0] + data;
      LeadingZero(data);
      MinBytesUnique(data);
      BigEndianPositive(data);
    } else {
      MinBytesUnique(body);
      BigEndianPositive(body);
    }
  }

  /** Whatever the serial's length, its encoding reads back as one INTEGER holding it. */
  lemma {:induction false} Asn1IntegerReadsBack(serial: int, rest: Bytes)
    requires serial > 0 && |IntegerBody(MinBytes(serial))| < MAX_BODY
    ensures var r := Read(Asn1Integer(MinBytes(serial)) + rest);
      r.Some? && r.value.tag == 0x02 && ReadInteger(r.value.body) == Some(serial) && r.value.rest == rest
  {
    IntegerExact(serial);
    WrapReadsBack(0x02, IntegerBody(MinBytes(serial)), rest);
  }
}
