/**
 The message authentication code on a sign request: the payload the server signs,
 the payload the bridge rebuilds, the 60-second window, and their comparison.
 */
module Mac {
  import opened Common
  import Hex

  datatype Fields = Fields(session: string, hash: string, algorithm: string, timestamp: int, nonce: string)

  // --- Decimal text of an integer: strconv.FormatInt and Python's str ---

  function DigitChar(v: int): (c: char)
    requires 0 <= v < 10
    ensures '0' <= c <= '9' && c as int - '0' as int == v
  {
    ('0' as int + v) as char
  }

  function DecimalNat(n: nat): (s: string)
    ensures |s| > 0 && '0' <= s[0] <= '9'
  {
    if n < 10 then [DigitChar(n)] else DecimalNat(n / 10) + [DigitChar(n % 10)]
  }

  function Decimal(n: int): string {
    if n < 0 then ['-'] + DecimalNat(-n) else DecimalNat(n)
  }

  function ParseNat(s: string): int {
    if s == "" then 0 else ParseNat(s[..|s| - 1]) * 10 + (s[|s| - 1] as int - '0' as int)
  }

  lemma {:induction false} DecimalNatParses(n: nat)
    ensures ParseNat(DecimalNat(n)) == n && Pipes(DecimalNat(n)) == 0
  {
    if n < 10 {
    } else {
      DecimalNatParses(n / 10);
      var head, last := DecimalNat(n / 10), [DigitChar(n % 10)];
      assert (head + last)[..|head|] == head;
      PipesAppend(head, last);
    }
  }

  lemma DecimalInjective(m: int, n: int)
    requires Decimal(m) == Decimal(n)
    ensures m == n
  {
    DecimalNatParses(if m < 0 then -m else m);
    DecimalNatParses(if n < 0 then -n else n);
    if m < 0 && n < 0 {
      assert Decimal(m)[1..] == DecimalNat(-m) && Decimal(n)[1..] == DecimalNat(-n);
    }
  }

  lemma DecimalPipes(n: int)
    ensures Pipes(Decimal(n)) == 0
  {
    DecimalNatParses(if n < 0 then -n else n);
    if n < 0 {
      PipesAppend(['-'], DecimalNat(-n));
    }
  }

  // --- The payload ---

  // How many separators a text holds.
  function Pipes(s: string): nat {
    if s == "" then 0 else (if s[0] == '|' then 1 else 0) + Pipes(s[1..])
  }

  /** The server's formatted string. */
  function ServerPayload(f: Fields): string {
    f.session + "|" + f.hash + "|" + f.algorithm + "|" + Decimal(f.timestamp) + "|" + f.nonce
  }

  /** strings.Join */
  function Join(parts: seq<string>, separator: string): string {
    if |parts| == 0 then ""
    else if |parts| == 1 then parts[0]
    else parts[0] + separator + Join(parts[1..], separator)
  }

  /** The bridge's joined list. */
  function BridgePayload(f: Fields): string {
    Join([f.session, f.hash, f.algorithm, Decimal(f.timestamp), f.nonce], "|")
  }

  /** One payload, written out. */
  lemma PayloadExample()
    ensures ServerPayload(Fields("id", "00ff", "sha256", 10, "n")) == "id|00ff|sha256|10|n"
  {
    assert DecimalNat(1) == "1" && DigitChar(0) == '0';
    assert DecimalNat(10) == "10";
  }

  // Both payloads nested to the right, one field at a time.
  function Nested(f: Fields): string {
    Front(f.session, Front(f.hash, Front(f.algorithm, Front(Decimal(f.timestamp), f.nonce))))
  }

  function Front(field: string, rest: string): string {
    field + "|" + rest
  }

  lemma JoinFive(a: string, b: string, c: string, d: string, e: string)
    ensures Join([a, b, c, d, e], "|") == Front(a, Front(b, Front(c, Front(d, e))))
  {
    assert [a, b, c, d, e][1..] == [b, c, d, e] && [b, c, d, e][1..] == [c, d, e];
    assert [c, d, e][1..] == [d, e] && [d, e][1..] == [e];
    assert Join([e], "|") == e;
    assert Join([d, e], "|") == Front(d, e);
    assert Join([c, d, e], "|") == Front(c, Front(d, e));
    assert Join([b, c, d, e], "|") == Front(b, Front(c, Front(d, e)));
  }

  lemma AppendFive(a: string, b: string, c: string, d: string, e: string)
    ensures a + "|" + b + "|" + c + "|" + d + "|" + e == Front(a, Front(b, Front(c, Front(d, e))))
  {
  }

  /** The server's format string and the bridge's join build the same payload from the same fields. */
  lemma PayloadsAgree(f: Fields)
    ensures ServerPayload(f) == BridgePayload(f) == Nested(f)
  {
    JoinFive(f.session, f.hash, f.algorithm, Decimal(f.timestamp), f.nonce);
    AppendFive(f.session, f.hash, f.algorithm, Decimal(f.timestamp), f.nonce);
  }

  lemma {:induction false} PipesAppend(a: string, b: string)
    ensures Pipes(a + b) == Pipes(a) + Pipes(b)
  {
    if a == "" {
      assert a + b == b;
    } else {
      assert (a + b)[1..] == a[1..] + b;
      PipesAppend(a[1..], b);
    }
  }

  lemma PipesFront(field: string, rest: string)
    ensures Pipes(Front(field, rest)) == Pipes(field) + 1 + Pipes(rest)
  {
    PipesAppend(field + "|", rest);
    PipesAppend(field, "|");
  }

  lemma PipesNested(f: Fields)
    ensures Pipes(Nested(f)) == Pipes(f.session) + Pipes(f.hash) + Pipes(f.algorithm) + Pipes(f.nonce) + 4
  {
    var d := Decimal(f.timestamp);
    DecimalPipes(f.timestamp);
    PipesFront(d, f.nonce);
    PipesFront(f.algorithm, Front(d, f.nonce));
    PipesFront(f.hash, Front(f.algorithm, Front(d, f.nonce)));
    PipesFront(f.session, Front(f.hash, Front(f.algorithm, Front(d, f.nonce))));
  }

  // The first separator ends the first field when neither field holds one.
  lemma {:induction false} FrontInjective(a: string, r: string, b: string, s: string)
    requires Pipes(a) == 0 && Pipes(b) == 0 && Front(a, r) == Front(b, s)
    ensures a == b && r == s
  {
    var t := Front(a, r);
    if a == "" || b == "" {
      assert t[0] == '|';
      assert a == b == "";
      assert t[1..] == r && t[1..] == s;
    } else {
      assert t[0] == a[0] == b[0];
      assert t[1..] == Front(a[1..], r) && t[1..] == Front(b[1..], s);
      FrontInjective(a[1..], r, b[1..], s);
      assert a == [a[0]] + a[1..] && b == [b[0]] + b[1..];
    }
  }

  /** Fields as the server issues them hold no separator: hexadecimal texts and a constant. */
  predicate PipeFree(f: Fields) {
    Pipes(f.session) == 0 && Pipes(f.hash) == 0 && Pipes(f.algorithm) == 0 && Pipes(f.nonce) == 0
  }

  lemma NestedInjective(f: Fields, g: Fields)
    requires Pipes(f.session) == 0 && Pipes(f.hash) == 0 && Pipes(f.algorithm) == 0
    requires Pipes(g.session) == 0 && Pipes(g.hash) == 0 && Pipes(g.algorithm) == 0
    requires Nested(f) == Nested(g)
    ensures f == g
  {
    var df, dg := Decimal(f.timestamp), Decimal(g.timestamp);
    DecimalPipes(f.timestamp);
    DecimalPipes(g.timestamp);
    FrontInjective(f.session, Front(f.hash, Front(f.algorithm, Front(df, f.nonce))),
                   g.session, Front(g.hash, Front(g.algorithm, Front(dg, g.nonce))));
    FrontInjective(f.hash, Front(f.algorithm, Front(df, f.nonce)), g.hash, Front(g.algorithm, Front(dg, g.nonce)));
    FrontInjective(f.algorithm, Front(df, f.nonce), g.algorithm, Front(dg, g.nonce));
    FrontInjective(df, f.nonce, dg, g.nonce);
    DecimalInjective(f.timestamp, g.timestamp);
  }

  /**
   The payload of separator-free fields determines all five fields, against every
   other request whatever separators that one holds: the separators are counted.
   */
  lemma PayloadBinding(f: Fields, g: Fields)
    requires PipeFree(f)
    ensures BridgePayload(g) == ServerPayload(f) <==> g == f
  {
    PayloadsAgree(f);
    PayloadsAgree(g);
    PipesNested(f);
    PipesNested(g);
    if BridgePayload(g) == ServerPayload(f) {
      NestedInjective(f, g);
    }
  }

  /** With a separator inside a field the payload no longer tells where the field ends. */
  lemma PipesShiftFields(a: string, b: string, c: string, d: string, t: int, n: string)
    ensures ServerPayload(Fields(a + "|" + b, c, d, t, n)) == ServerPayload(Fields(a, b + "|" + c, d, t, n))
  {
  }

  lemma {:induction false} HexHasNoPipes(bytes: Bytes)
    ensures Pipes(Hex.Encode(bytes)) == 0
  {
    if bytes == [] {
    } else {
      HexHasNoPipes(bytes[1..]);
      TwoCharsNoPipes(Hex.DigitChar(bytes[0] / 16), Hex.DigitChar(bytes[0] % 16), Hex.Encode(bytes[1..]));
    }
  }

  lemma TwoCharsNoPipes(c: char, d: char, rest: string)
    requires c != '|' && d != '|' && Pipes(rest) == 0
    ensures Pipes([c, d] + rest) == 0
  {
  }

  // --- The time window, in 64-bit arithmetic ---

  const TWO63: int := 0x8000_0000_0000_0000
  const TWO64: int := 0x1_0000_0000_0000_0000
  const WINDOW_SECONDS := 60

  predicate Int64(x: int) {
    -TWO63 <= x < TWO63
  }

  // The value int64 arithmetic keeps of an integer.
  function Wrap64(x: int): (r: int)
    ensures Int64(r) && (Int64(x) ==> r == x)
  {
    (x + TWO63) % TWO64 - TWO63
  }

  function Skew(now: int, timestamp: int): int {
    var d := Wrap64(now - timestamp);
    if d < 0 then Wrap64(-d) else d
  }

  function Distance(x: int, y: int): nat {
    if x < y then y - x else x - y
  }

  /**
   The wrapping computation answers "at most 60 seconds apart" correctly for every
   positive timestamp, except on clocks so far before 1970 that it overflows.
   */
  lemma SkewExact(now: int, timestamp: int)
    requires Int64(now) && Int64(timestamp) && timestamp > 0
    ensures (Skew(now, timestamp) <= WINDOW_SECONDS <==> Distance(now, timestamp) <= WINDOW_SECONDS) <==>
            !(now - timestamp == -TWO63 || now - timestamp <= WINDOW_SECONDS - TWO64)
    ensures now >= 0 ==> Skew(now, timestamp) == Distance(now, timestamp)
  {
  }

  // --- The check ---

  /** What the bridge demands of a tag. */
  predicate Accepts(mac: (string, string) -> Bytes, secret: string, f: Fields, tag: string, now: int) {
    f.timestamp > 0 &&
    Skew(now, f.timestamp) <= WINDOW_SECONDS &&
    tag == Hex.Encode(mac(secret, BridgePayload(f)))
  }

  /** verifyHMAC, with the clock read `now` as a parameter. */
  method VerifyHMAC(mac: (string, string) -> Bytes, secret: string, f: Fields, tag: string, now: int) returns (ok: bool)
    requires Int64(now) && Int64(f.timestamp)
    ensures ok <==> Accepts(mac, secret, f, tag, now)
    ensures now >= 0 ==> (ok <==> 0 < f.timestamp && Distance(now, f.timestamp) <= 60 &&
                                  tag == Hex.Encode(mac(secret, ServerPayload(f))))
  {
    if f.timestamp > 0 {
      SkewExact(now, f.timestamp);
    }
    PayloadsAgree(f);
    if f.timestamp <= 0 {
      return false;
    }
    var skew := Wrap64(now - f.timestamp);
    if skew < 0 {
      skew := Wrap64(-skew);
    }
    if skew > 60 {
      return false;
    }
    var payload := Join([f.session, f.hash, f.algorithm, Decimal(f.timestamp), f.nonce], "|");
    var expected := Hex.Encode(mac(secret, payload));
    if expected != tag {
      return false;
    }
    return true;
  }

  /** An ideal code: under one secret, different payloads never share a code. */
  ghost predicate Ideal(mac: (string, string) -> Bytes) {
    forall k, p, q :: mac(k, p) == mac(k, q) ==> p == q
  }

  /** The tag the server issues for separator-free fields. */
  function ServerTag(mac: (string, string) -> Bytes, secret: string, f: Fields): string {
    Hex.Encode(mac(secret, ServerPayload(f)))
  }

  /**
   A bridge holding the server's secret accepts the server's tag on exactly one set
   of fields, the server's own, and only within the window.
   */
  lemma AuthenticExactly(mac: (string, string) -> Bytes, secret: string, f: Fields, g: Fields, now: int)
    requires Ideal(mac) && PipeFree(f)
    requires Int64(now) && now >= 0 && Int64(f.timestamp) && Int64(g.timestamp)
    ensures Accepts(mac, secret, g, ServerTag(mac, secret, f), now) <==>
            g == f && 0 < f.timestamp && Distance(now, f.timestamp) <= 60
  {
    PayloadBinding(f, g);
    if g.timestamp > 0 {
      SkewExact(now, g.timestamp);
    }
    if ServerTag(mac, secret, f) == Hex.Encode(mac(secret, BridgePayload(g))) {
      Hex.EncodeInjective(mac(secret, ServerPayload(f)), mac(secret, BridgePayload(g)));
      assert ServerPayload(f) == BridgePayload(g);
    }
  }
}
