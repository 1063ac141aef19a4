/** Two-phase document signing as it runs, over the cache, the temporary files and the attachments. */
module Direct {
  import opened Common
  import opened DirectSpec
  import Base64
  import Hex
  import Mac
  import DirectProofs

  class SigningDesk {
    const libs: Libs
    var cache: map<string, Prepared>
    var tmpFiles: map<string, Bytes>
    var files: seq<Attachment>
    ghost var started: map<string, Started>
    ghost var completed: seq<Completed>

    ghost function Now(): Desk
      reads this
    {
      Desk(cache, tmpFiles, files, started, completed)
    }

    /** What the desk keeps: its cache is faithful to what was started, and so is everything completed. */
    ghost predicate Sound()
      reads this
    {
      DirectProofs.Faithful(libs, Now()) && DirectProofs.CompletionsSound(libs, Now())
    }

    constructor (libs: Libs)
      ensures this.libs == libs && Now() == EMPTY_DESK && Sound()
    {
      this.libs := libs;
      cache, tmpFiles, files, started, completed := map[], map[], [], map[], [];
    }

    method InitiateDirectSign(now: nat, secret: string, document: Document, certB64: string, p: Preparation,
                              session: string, nonce: string) returns (ticket: Option<Ticket>)
      modifies this
      ensures (Now(), ticket) == Initiate(libs, old(Now()), now, secret, document, certB64, p, session, nonce)
      ensures old(Sound() && session !in started) ==> Sound()
    {
      if Sound() && session !in started {
        DirectProofs.InitiateKeepsFaithful(libs, Now(), now, secret, document, certB64, p, session, nonce);
        DirectProofs.InitiateKeepsCompletions(libs, Now(), now, secret, document, certB64, p, session, nonce);
      }
      if secret == "" {
        return None;
      }
      var cert := Base64.PyDecode(certB64);
      if cert.None? {
        return None;
      }
      var hashToSign := Hex.Encode(libs.sha256(libs.attributes(p.digest)));
      var fields := Mac.Fields(session, hashToSign, "sha256", now, nonce);
      var tag := Hex.Encode(libs.mac(secret, Mac.ServerPayload(fields)));
      tmpFiles := tmpFiles[session := p.pdf];
      var prepared := Prepared(certB64, document, Hex.Encode(p.digest), p.regionStart, p.regionEnd, now);
      cache := cache[session := prepared];
      started := started[session := Started(prepared, p, hashToSign)];
      return Some(Ticket(fields, tag));
    }

    method FinalizeDirectSign(now: nat, session: string, text: string) returns (file: Option<Attachment>)
      modifies this
      ensures (Now(), file) == Finalize(libs, old(Now()), now, session, text)
      ensures old(Sound()) ==> Sound()
    {
      ghost var before := Now();
      if DirectProofs.Faithful(libs, before) && DirectProofs.CompletionsSound(libs, before) {
        DirectProofs.FinalizeKeeps(libs, before, now, session, text);
      }
      if session !in cache || now >= cache[session].createdAt + SESSION_TTL_SECONDS || session !in tmpFiles {
        return None;
      }
      var cached := cache[session];
      var signature := Hex.PyDecode(text);
      if signature.None? {
        signature := Base64.PyDecode(text);
      }
      var cert := Base64.PyDecode(cached.certB64);
      var digest := Hex.PyDecode(cached.digestHex);
      if signature.None? || cert.None? || digest.None? {
        return None;
      }
      var attributes := libs.attributes(digest.value);
      var cms := libs.container(cert.value, attributes, signature.value);
      var output := libs.finish(tmpFiles[session], digest.value, cached.regionStart, cached.regionEnd, cms);
      if output.None? {
        return None;
      }
      var document := cached.document;
      var name := document.docname + "_DSC_Signed.pdf";
      var attachment := Attachment(name, document.doctype, document.docname, output.value);
      files := files + [attachment];
      cache := cache - {session};
      completed := completed + [Completed(session, now, attributes, signature.value, attachment)];
      return Some(attachment);
    }
  }
}
