/** The OCSP request of section 4.1.1 of RFC 6960 as the bridge builds it, and a reader for it. */
module Ocsp {
  import opened Common
  import opened Der

  const SEQUENCE: byte := 0x30
  const OCTET_STRING: byte := 0x04
  const INTEGER: byte := 0x02

  // 1.3.14.3.2.26, SHA-1, as a complete OBJECT IDENTIFIER, and NULL.
  function Sha1Oid(): Bytes { [0x06, 0x05, 0x2b, 0x0e, 0x03, 0x02, 0x1a] }
  function Asn1Null(): Bytes { [0x05, 0x00] }

  function Asn1Sequence(items: seq<Bytes>): Bytes { Wrap(SEQUENCE, items) }
  function Asn1OctetString(data: Bytes): Bytes { Wrap(OCTET_STRING, [data]) }

  function CertId(nameHash: Bytes, keyHash: Bytes, serial: int): Bytes {
    Asn1Sequence([Asn1Sequence([Sha1Oid(), Asn1Null()]), Asn1OctetString(nameHash),
                  Asn1OctetString(keyHash), Asn1Integer(MinBytes(Magnitude(serial)))])
  }

  /** buildOCSPRequest, from the two hashes and the certificate's serial number. */
  function BuildRequest(nameHash: Bytes, keyHash: Bytes, serial: int): Bytes {
    var request := Asn1Sequence([CertId(nameHash, keyHash, serial)]);
    var tbsRequest := Asn1Sequence([Asn1Sequence([request])]);
    Asn1Sequence([tbsRequest])
  }

  datatype Query = Query(nameHash: Bytes, keyHash: Bytes, serial: int)

  /** The body of `s` if it is exactly one value of that tag. */
  function Only(tag: byte, s: Bytes): Option<Bytes> {
    match Read(s)
    case None => None
    case Some(t) => if t.tag == tag && t.rest == [] then Some(t.body) else None
  }

  function Inside(tag: byte, s: Option<Bytes>): Option<Bytes> {
    if s.Some? then Only(tag, s.value) else None
  }

  function ReadCertId(body: Bytes): Option<Query> {
    match ReadAll(body)
    case None => None
    case Some(items) =>
      if |items| == 4 && items[0].tag == 0x30 && items[1].tag == 0x04 &&
         items[2].tag == 0x04 && items[3].tag == 0x02 &&
         ReadAll(items[0].body) == Some([Item(0x06, [0x2b, 0x0e, 0x03, 0x02, 0x1a]), Item(0x05, [])]) &&
         ReadInteger(items[3].body).Some?
      then Some(Query(items[1].body, items[2].body, ReadInteger(items[3].body).value))
      else None
  }

  /**
   OCSPRequest > TBSRequest > requestList > one Request > CertID over SHA-1, nothing
   trailing at any level, and no optional field anywhere.
   */
  function ReadRequest(s: Bytes): Option<Query> {
    match Inside(0x30, Inside(0x30, Inside(0x30, Inside(0x30, Only(0x30, s)))))
    case None => None
    case Some(certId) => ReadCertId(certId)
  }

  // --- The five levels ---

  // What the CertID holds, as decoded values.
  function CertIdItems(nameHash: Bytes, keyHash: Bytes, serial: int): seq<Item> {
    [Item(SEQUENCE, AlgorithmBody()), Item(OCTET_STRING, nameHash), Item(OCTET_STRING, keyHash),
     Item(INTEGER, IntegerBody(MinBytes(Magnitude(serial))))]
  }

  function AlgorithmBody(): Bytes { Sha1Oid() + Asn1Null() }

  function CertIdBody(nameHash: Bytes, keyHash: Bytes, serial: int): Bytes {
    WrapAll(CertIdItems(nameHash, keyHash, serial))
  }

  // The same bytes wrapped `levels` times in a SEQUENCE.
  function Nest(levels: nat, body: Bytes): Bytes {
    if levels == 0 then body else WrapBody(SEQUENCE, Nest(levels - 1, body))
  }

  /** The request fits when the outermost body does; every inner one is shorter. */
  predicate Fits(nameHash: Bytes, keyHash: Bytes, serial: int) {
    |Nest(4, CertIdBody(nameHash, keyHash, serial))| < MAX_BODY
  }

  lemma FlattenOne(a: Bytes)
    ensures Flatten([a]) == a
  {
  }

  lemma FlattenTwo(a: Bytes, b: Bytes)
    ensures Flatten([a, b]) == a + b
  {
    assert [a, b][1..] == [b];
    FlattenOne(b);
  }

  lemma FlattenFour(a: Bytes, b: Bytes, c: Bytes, d: Bytes)
    ensures Flatten([a, b, c, d]) == a + (b + (c + d))
  {
    assert [a, b, c, d][1..] == [b, c, d] && [b, c, d][1..] == [c, d];
    FlattenTwo(c, d);
  }

  lemma WrapAllTwo(i: Item, j: Item)
    ensures WrapAll([i, j]) == WrapBody(i.tag, i.body) + WrapBody(j.tag, j.body)
  {
    assert [i, j][1..] == [j] && [j][1..] == [];
    assert WrapAll([]) == [];
    assert WrapAll([j]) == WrapBody(j.tag, j.body) + [];
  }

  lemma WrapAllFour(i: Item, j: Item, k: Item, l: Item)
    ensures WrapAll([i, j, k, l]) ==
            WrapBody(i.tag, i.body) + (WrapBody(j.tag, j.body) + (WrapBody(k.tag, k.body) + WrapBody(l.tag, l.body)))
  {
    assert [i, j, k, l][1..] == [j, k, l] && [j, k, l][1..] == [k, l];
    WrapAllTwo(k, l);
    assert WrapAll([j, k, l]) == WrapBody(j.tag, j.body) + WrapAll([k, l]);
  }

  lemma CertIdShape(nameHash: Bytes, keyHash: Bytes, serial: int)
    ensures CertId(nameHash, keyHash, serial) == WrapBody(SEQUENCE, CertIdBody(nameHash, keyHash, serial))
  {
    var integer := Asn1Integer(MinBytes(Magnitude(serial)));
    FlattenTwo(Sha1Oid(), Asn1Null());
    FlattenOne(nameHash);
    FlattenOne(keyHash);
    FlattenFour(Asn1Sequence([Sha1Oid(), Asn1Null()]), Asn1OctetString(nameHash), Asn1OctetString(keyHash), integer);
    WrapAllFour(Item(SEQUENCE, AlgorithmBody()), Item(OCTET_STRING, nameHash), Item(OCTET_STRING, keyHash),
                Item(INTEGER, IntegerBody(MinBytes(Magnitude(serial)))));
  }

  lemma RequestShape(nameHash: Bytes, keyHash: Bytes, serial: int)
    ensures BuildRequest(nameHash, keyHash, serial) == Nest(5, CertIdBody(nameHash, keyHash, serial))
  {
    var b := CertIdBody(nameHash, keyHash, serial);
    CertIdShape(nameHash, keyHash, serial);
    FlattenOne(Nest(1, b));
    FlattenOne(Nest(2, b));
    FlattenOne(Nest(3, b));
    FlattenOne(Nest(4, b));
    assert Nest(5, b) == WrapBody(SEQUENCE, Nest(4, b));
    assert Nest(4, b) == WrapBody(SEQUENCE, Nest(3, b));
    assert Nest(3, b) == WrapBody(SEQUENCE, Nest(2, b));
    assert Nest(2, b) == WrapBody(SEQUENCE, Nest(1, b));
    assert Nest(1, b) == WrapBody(SEQUENCE, b);
  }

  lemma OnlyWrapped(tag: byte, body: Bytes)
    requires tag % 32 != 31
    ensures |body| < MAX_BODY ==> Only(tag, WrapBody(tag, body)) == Some(body)
    ensures |body| >= MAX_BODY ==> Only(tag, WrapBody(tag, body)) == None
  {
    assert WrapBody(tag, body) + [] == WrapBody(tag, body);
    if |body| < MAX_BODY {
      WrapReadsBack(tag, body, []);
    } else {
      TooLongReadsBack(tag, body, []);
    }
  }

  lemma NestLength(b: Bytes)
    ensures |b| < |Nest(1, b)| < |Nest(2, b)| < |Nest(3, b)| < |Nest(4, b)|
  {
  }

  lemma UnnestReadsBack(b: Bytes)
    ensures ReadRequest(Nest(5, b)) == if |Nest(4, b)| < MAX_BODY then ReadCertId(b) else None
  {
    NestLength(b);
    OnlyWrapped(SEQUENCE, Nest(4, b));
    if |Nest(4, b)| < MAX_BODY {
      OnlyWrapped(SEQUENCE, Nest(3, b));
      OnlyWrapped(SEQUENCE, Nest(2, b));
      OnlyWrapped(SEQUENCE, Nest(1, b));
      OnlyWrapped(SEQUENCE, b);
    }
  }

  lemma AlgorithmReadsBack()
    ensures ReadAll(AlgorithmBody()) == Some([Item(0x06, [0x2b, 0x0e, 0x03, 0x02, 0x1a]), Item(0x05, [])])
  {
    var i, j := Item(0x06, [0x2b, 0x0e, 0x03, 0x02, 0x1a]), Item(0x05, []);
    WrapAllTwo(i, j);
    assert WrapBody(j.tag, j.body) == Asn1Null();
    assert WrapBody(i.tag, i.body) == Sha1Oid();
    WrapAllReadsBack([i, j]);
  }

  lemma {:induction false} ItemFits(items: seq<Item>, k: nat)
    requires k < |items|
    ensures |items[k].body| < |WrapAll(items)|
  {
    if k == 0 {
    } else {
      ItemFits(items[1..], k - 1);
    }
  }

  lemma CertIdReadsBack(nameHash: Bytes, keyHash: Bytes, serial: int)
    requires |CertIdBody(nameHash, keyHash, serial)| < MAX_BODY
    ensures ReadCertId(CertIdBody(nameHash, keyHash, serial)) ==
            var n := ReadInteger(IntegerBody(MinBytes(Magnitude(serial))));
            if n.Some? then Some(Query(nameHash, keyHash, n.value)) else None
  {
    var items := CertIdItems(nameHash, keyHash, serial);
    forall i | i in items ensures Encodable(i) {
      var k :| 0 <= k < |items| && items[k] == i;
      ItemFits(items, k);
    }
    WrapAllReadsBack(items);
    AlgorithmReadsBack();
  }

  /**
   Read by the independent decoder, the request is exactly one CertID with the given
   hashes and serial, at every size across both length thresholds, if and only if the
   serial is positive and the request fits the two-octet length.
   */
  lemma RequestReadsBackExact(nameHash: Bytes, keyHash: Bytes, serial: int)
    ensures ReadRequest(BuildRequest(nameHash, keyHash, serial)) == Some(Query(nameHash, keyHash, serial)) <==>
            serial > 0 && Fits(nameHash, keyHash, serial)
  {
    var b := CertIdBody(nameHash, keyHash, serial);
    RequestShape(nameHash, keyHash, serial);
    UnnestReadsBack(b);
    NestLength(b);
    IntegerExact(serial);
    if |Nest(4, b)| < MAX_BODY {
      CertIdReadsBack(nameHash, keyHash, serial);
    }
  }

  /** No two queries share a request. */
  lemma RequestInjective(p: Query, q: Query)
    requires p.serial > 0 && q.serial > 0
    requires Fits(p.nameHash, p.keyHash, p.serial) && Fits(q.nameHash, q.keyHash, q.serial)
    requires BuildRequest(p.nameHash, p.keyHash, p.serial) == BuildRequest(q.nameHash, q.keyHash, q.serial)
    ensures p == q
  {
    RequestReadsBackExact(p.nameHash, p.keyHash, p.serial);
    RequestReadsBackExact(q.nameHash, q.keyHash, q.serial);
  }

  lemma {:induction false} MinBytesLength(n: nat, k: nat)
    requires n < Pow256(k)
    ensures |MinBytes(n)| <= k
  {
    if n == 0 {
    } else {
      assert k > 0;
      MinBytesLength(n / 256, k - 1);
    }
  }

  lemma WrapLength(tag: byte, body: Bytes)
    ensures |WrapBody(tag, body)| <= |body| + 4
  {
  }

  /** With SHA-1 hashes every positive serial of up to 65000 octets fits. */
  lemma Sha1RequestsFit(nameHash: Bytes, keyHash: Bytes, serial: int)
    requires |nameHash| == 20 && |keyHash| == 20 && 0 < serial < Pow256(65000)
    ensures Fits(nameHash, keyHash, serial)
  {
    var b := CertIdBody(nameHash, keyHash, serial);
    var data := MinBytes(serial);
    MinBytesLength(serial, 65000);
    var items := CertIdItems(nameHash, keyHash, serial);
    WrapAllFour(items[0], items[1], items[2], items[3]);
    WrapLength(SEQUENCE, AlgorithmBody());
    WrapLength(OCTET_STRING, nameHash);
    WrapLength(OCTET_STRING, keyHash);
    WrapLength(INTEGER, IntegerBody(data));
    WrapLength(SEQUENCE, b);
    WrapLength(SEQUENCE, Nest(1, b));
    WrapLength(SEQUENCE, Nest(2, b));
    WrapLength(SEQUENCE, Nest(3, b));
    assert Nest(1, b) == WrapBody(SEQUENCE, b);
    assert Nest(2, b) == WrapBody(SEQUENCE, Nest(1, b));
    assert Nest(3, b) == WrapBody(SEQUENCE, Nest(2, b));
    assert Nest(4, b) == WrapBody(SEQUENCE, Nest(3, b));
  }
}
