/** Two-phase document signing on the server: prepare and hand out a hash, then embed the signature. On values. */
module DirectSpec {
  import opened Common
  import Base64
  import Hex
  import Mac

  const SESSION_TTL_SECONDS := 600

  /**
   The libraries: HMAC and SHA-256, the DER form of the signed attributes for a
   document digest, the CMS container around them, and pyHanko's insertion of a
   container into the prepared file, which may fail.
   */
  datatype Libs = Libs(
    mac: (string, string) -> Bytes,
    sha256: Bytes -> Bytes,
    attributes: Bytes -> Bytes,
    container: (Bytes, Bytes, Bytes) -> Bytes,
    finish: (Bytes, Bytes, nat, nat, Bytes) -> Option<Bytes>)

  datatype Document = Document(doctype: string, docname: string, printFormat: string)

  /** What initiate caches for a session. */
  datatype Prepared = Prepared(
    certB64: string, document: Document, digestHex: string, regionStart: nat, regionEnd: nat, createdAt: nat)

  /** What pyHanko makes of the printed document: the file with a hole, and the digest around it. */
  datatype Preparation = Preparation(pdf: Bytes, digest: Bytes, regionStart: nat, regionEnd: nat)

  datatype Attachment = Attachment(fileName: string, doctype: string, docname: string, content: Bytes)

  /** For the record: a session as it was started, and as it was completed. */
  datatype Started = Started(prepared: Prepared, preparation: Preparation, hash: string)
  datatype Completed = Completed(session: string, at: nat, attributes: Bytes, signature: Bytes, attachment: Attachment)

  datatype Desk = Desk(
    cache: map<string, Prepared>, tmpFiles: map<string, Bytes>, files: seq<Attachment>,
    started: map<string, Started>, completed: seq<Completed>)

  const EMPTY_DESK := Desk(map[], map[], [], map[], [])

  /** What the browser carries to the bridge. */
  datatype Ticket = Ticket(fields: Mac.Fields, tag: string)

  /** initiate_direct_sign; `session` and `nonce` are the random draws. None is an error. */
  function Initiate(libs: Libs, d: Desk, now: nat, secret: string, document: Document, certB64: string,
                    p: Preparation, session: string, nonce: string): (Desk, Option<Ticket>)
  {
    if secret == "" || Base64.PyDecode(certB64).None? then (d, None)
    else
      var hash := Hex.Encode(libs.sha256(libs.attributes(p.digest)));
      var fields := Mac.Fields(session, hash, "sha256", now, nonce);
      var prepared := Prepared(certB64, document, Hex.Encode(p.digest), p.regionStart, p.regionEnd, now);
      (d.(cache := d.cache[session := prepared], tmpFiles := d.tmpFiles[session := p.pdf],
          started := d.started[session := Started(prepared, p, hash)]),
       Some(Ticket(fields, Mac.ServerTag(libs.mac, secret, fields))))
  }

  // The cache still answers for the session.
  predicate Open(d: Desk, session: string, now: nat) {
    session in d.cache && now < d.cache[session].createdAt + SESSION_TTL_SECONDS
  }

  // The file finalize makes from a cached session and a signature.
  function SignedFile(libs: Libs, p: Prepared, pdf: Bytes, digest: Bytes, cert: Bytes,
    signature: Bytes): Option<Bytes> {
    libs.finish(pdf, digest, p.regionStart, p.regionEnd, libs.container(cert, libs.attributes(digest), signature))
  }

  /** finalize_direct_sign; the document is the cached one, whatever the caller names. None is an error. */
  function Finalize(libs: Libs, d: Desk, now: nat, session: string, text: string): (Desk, Option<Attachment>) {
    if !Open(d, session, now) || session !in d.tmpFiles then (d, None)
    else
      var p := d.cache[session];
      var signature := Base64.DecodeSignature(text);
      var cert := Base64.PyDecode(p.certB64);
      var digest := Hex.PyDecode(p.digestHex);
      if signature.None? || cert.None? || digest.None? then (d, None)
      else
        var content := SignedFile(libs, p, d.tmpFiles[session], digest.value, cert.value, signature.value);
        if content.None? then (d, None)
        else
          var name := p.document.docname + "_DSC_Signed.pdf";
          var file := Attachment(name, p.document.doctype, p.document.docname, content.value);
          (d.(cache := d.cache - {session}, files := d.files + [file],
              completed := d.completed +
                           [Completed(session, now, libs.attributes(digest.value), signature.value, file)]),
           Some(file))
  }
}
