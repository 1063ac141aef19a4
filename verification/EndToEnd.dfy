/**
 One document through the whole system: the server prepares it and hands out a
 ticket, the bridge has the token sign, the server embeds the signature.
 */
module EndToEnd {
  import opened Common
  import opened KeystoreSpec
  import opened PinCaches
  import opened BridgeSpec
  import opened DirectSpec
  import Base64
  import BridgeProofs
  import DirectProofs
  import Hex
  import Mac
  import Pkcs11
  import System
  import SystemLink
  import SystemResults

  /** What the server prepares for one signature; `session` and `nonce` are the random bytes it draws. */
  datatype Job = Job(now: nat, document: Document, certB64: string, preparation: Preparation, session: Bytes,
    nonce: Bytes)

  function SessionId(j: Job): string {
    Hex.Encode(j.session)
  }

  function Begin(libs: Libs, d: Desk, secret: string, j: Job): (Desk, Option<Ticket>) {
    Initiate(libs, d, j.now, secret, j.document, j.certB64, j.preparation, SessionId(j), Hex.Encode(j.nonce))
  }

  /** The hash that is to be signed. */
  function HashOf(libs: Libs, j: Job): Bytes {
    libs.sha256(libs.attributes(j.preparation.digest))
  }

  // --- From the ticket to the token ---

  /** A sign request posted from the site's page, with its token if any, for a certificate and a PIN at hand. */
  predicate FromPage(a: Agent, r: Request, w: World, site: string) {
    r.path.SignPath? && r.verb.POST? && r.sign.Some? && r.origin == site && site != "" &&
    (r.siteToken == "" || Token(a.store, w.io.keychainUp, site) == Some(r.siteToken)) &&
    Pkcs11.FindCert(a.device, r.sign.value.expectedFingerprint).Some? &&
    (r.sign.value.pin != "" || r.sign.value.expectedFingerprint in a.pins)
  }

  // Clocks and timestamps fit 64 bits, and the bridge's clock is past 1970.
  predicate Clocks(r: Request, w: World, j: Job) {
    Mac.Int64(w.now) && w.now >= 0 && Mac.Int64(j.now) && r.sign.Some? && Mac.Int64(r.sign.value.fields.timestamp)
  }

  /**
   A ticket of the server makes the token sign exactly one thing: the hash of the
   prepared document's attributes, for the unmodified ticket, within 60 seconds.
   */
  lemma TicketReachesTokenExactly(cfg: Config, libs: Libs, d: Desk, a: Agent, r: Request, w: World, site: string,
                                  j: Job, secret: string)
    requires Mac.Ideal(cfg.mac) && libs.mac == cfg.mac && Proper(a.pins)
    requires site in a.store.sites && secret != "" && HMACSecret(a.store, w.io.keychainUp, site) == Some(secret)
    requires Begin(libs, d, secret, j).1.Some? && j.now > 0 && |j.nonce| > 0
    requires Clocks(r, w, j) && FromPage(a, r, w, site)
    requires r.sign.value.hmac == Begin(libs, d, secret, j).1.value.tag != ""
    ensures var call := Serve(cfg, a, r, w).call;
      (call.Some? <==> r.sign.value.fields == Begin(libs, d, secret, j).1.value.fields &&
                       Mac.Distance(w.now, j.now) <= 60) &&
      (call.Some? ==> call.value.hash == HashOf(libs, j))
  {
    var t := Begin(libs, d, secret, j).1.value;
    DirectProofs.TicketPipeFree(libs, d, j.now, secret, j.document, j.certB64, j.preparation, j.session, j.nonce);
    Mac.AuthenticExactly(cfg.mac, secret, t.fields, r.sign.value.fields, w.now);
    BridgeProofs.TokenReachedExactly(cfg, a, r, w);
    Hex.GoRoundTrip(HashOf(libs, j));
  }

  /**
   With the right PIN on an unlocked token whose signing succeeds, the bridge answers
   with that signature under the ticket's session, and what the key signed carries the
   hash.
   */
  lemma TokenSigns(cfg: Config, a: Agent, r: Request, w: World)
    requires Serve(cfg, a, r, w).call.Some?
    ensures var reply := Serve(cfg, a, r, w).reply;
      var token := a.device.tokens[Serve(cfg, a, r, w).call.value.token];
      (reply.Signed? <==>
       w.token.ReachesPin() && token.retries > 0 && Serve(cfg, a, r, w).call.value.pin == token.pin &&
       !token.key.OtherKey? && w.token.afterLogin.Ok?) &&
      (reply.Signed? ==>
       reply.session == r.sign.value.fields.session &&
       reply.signatureB64 == Base64.Encode(w.token.afterLogin.signature.bytes) &&
       reply.certB64 == Base64.Encode(w.token.afterLogin.signature.certDER) && reply.agentFP == cfg.agentFP &&
       KeySigned(a, Serve(cfg, a, r, w).call.value, Serve(cfg, a, r, w).call.value.hash))
  {
    var call := Serve(cfg, a, r, w).call.value;
    Pkcs11.SignedDataExact(a.device, call.token, call.hash, call.pin, w.token);
  }

  /** The key behind the call was given the hash: as it is, or in a DigestInfo. */
  predicate KeySigned(a: Agent, call: SignCall, hash: Bytes) {
    call.token in a.device.tokens && call.data.Some? &&
    Pkcs11.Carries(a.device.tokens[call.token].key, call.data.value, hash)
  }

  /**
   The bridge keeps no record of nonces: presented again, the same ticket reaches the
   token again exactly while the bridge's clock is still within 60 seconds of it, and
   with the same hash.
   */
  lemma ReplayExactly(cfg: Config, libs: Libs, d: Desk, a: Agent, r: Request, w: World, again: World, site: string,
                      j: Job, secret: string)
    requires Mac.Ideal(cfg.mac) && libs.mac == cfg.mac && Proper(a.pins)
    requires site in a.store.sites && secret != "" && HMACSecret(a.store, w.io.keychainUp, site) == Some(secret)
    requires Begin(libs, d, secret, j).1.Some? && j.now > 0 && |j.nonce| > 0
    requires Clocks(r, w, j) && FromPage(a, r, w, site)
    requires r.sign.value.hmac == Begin(libs, d, secret, j).1.value.tag != "" && Serve(cfg, a, r, w).call.Some?
    requires var a' := Serve(cfg, a, r, w).agent;
      Clocks(r, again, j) && FromPage(a', r, again, site) && again.io.keychainUp == w.io.keychainUp
    ensures var first := Serve(cfg, a, r, w);
      var second := Serve(cfg, first.agent, r, again);
      (second.call.Some? <==> Mac.Distance(again.now, j.now) <= 60) &&
      (second.call.Some? ==> second.call.value.hash == first.call.value.hash)
  {
    SigningKeeps(cfg, a, r, w);
    TicketReachesTokenExactly(cfg, libs, d, a, r, w, site, j, secret);
    TicketReachesTokenExactly(cfg, libs, d, Serve(cfg, a, r, w).agent, r, again, site, j, secret);
  }

  lemma SigningKeeps(cfg: Config, a: Agent, r: Request, w: World)
    requires Proper(a.pins) && r.path.SignPath?
    ensures Proper(Serve(cfg, a, r, w).agent.pins) && Serve(cfg, a, r, w).agent.store == a.store
  {
  }

  // --- From the token to the attachment ---

  // A session still holds what initiate recorded of its job, whatever happened since.
  lemma BegunHolds(libs: Libs, d: Desk, secret: string, j: Job)
    requires DirectProofs.Faithful(libs, d) && DirectProofs.CompletionsSound(libs, d) && SessionId(j) !in d.started
    requires Begin(libs, d, secret, j).1.Some?
    ensures var d1 := Begin(libs, d, secret, j).0;
      DirectProofs.Faithful(libs, d1) && DirectProofs.CompletionsSound(libs, d1) &&
      Lookup(d1.started, SessionId(j)) == Some(Record(libs, j))
  {
    var id, nonce, p := SessionId(j), Hex.Encode(j.nonce), j.preparation;
    DirectProofs.InitiateKeepsFaithful(libs, d, j.now, secret, j.document, j.certB64, p, id, nonce);
    DirectProofs.InitiateKeepsCompletions(libs, d, j.now, secret, j.document, j.certB64, p, id, nonce);
  }

  lemma StartedHolds(libs: Libs, d: Desk, j: Job, between: seq<DirectProofs.Event>)
    requires DirectProofs.Faithful(libs, d) && DirectProofs.CompletionsSound(libs, d)
    requires Lookup(d.started, SessionId(j)) == Some(Record(libs, j))
    ensures Holds(libs, DirectProofs.Run(libs, d, between), j)
  {
    DirectProofs.RunKeeps(libs, d, between);
    DirectProofs.StartedStays(libs, d, between, SessionId(j));
  }

  // The desk after a run, a job's beginning, and another run.
  function DeskAfter(libs: Libs, before: seq<DirectProofs.Event>, secret: string, j: Job,
    between: seq<DirectProofs.Event>): Desk {
    DirectProofs.Run(libs, Begin(libs, DirectProofs.Run(libs, EMPTY_DESK, before), secret, j).0, between)
  }

  lemma JobHolds(libs: Libs, before: seq<DirectProofs.Event>, secret: string, j: Job, between: seq<DirectProofs.Event>)
    requires var d := DirectProofs.Run(libs, EMPTY_DESK, before);
      SessionId(j) !in d.started && Begin(libs, d, secret, j).1.Some?
    ensures Holds(libs, DeskAfter(libs, before, secret, j, between), j)
  {
    var d := DirectProofs.Run(libs, EMPTY_DESK, before);
    DirectProofs.RunKeeps(libs, EMPTY_DESK, before);
    BegunHolds(libs, d, secret, j);
    StartedHolds(libs, Begin(libs, d, secret, j).0, j, between);
  }

  /**
   Whatever finalize attaches for this session and text, while later events may have
   touched the desk: the file names the prepared document, comes in time, and is the
   prepared file with a container in its hole; that container is over the attributes of
   the prepared digest, whose SHA-256 is `hash`, and holds the token's own signature
   exactly when its base64 text is not hexadecimal text.
   */
  ghost predicate Attaches(libs: Libs, d: Desk, j: Job, later: nat, session: string, text: string, hash: Bytes,
    signature: Bytes) {
    var (d', file) := Finalize(libs, d, later, session, text);
    var p := j.preparation;
    file.Some? ==>
    |d'.completed| > 0 && d'.files == d.files + [file.value] &&
    var c := d'.completed[|d'.completed| - 1];
    c.session == SessionId(j) && c.attachment == file.value &&
    file.value.doctype == j.document.doctype && file.value.docname == j.document.docname &&
    later < j.now + 600 && Base64.PyDecode(j.certB64).Some? &&
    c.attributes == libs.attributes(j.preparation.digest) && libs.sha256(c.attributes) == hash &&
    libs.finish(p.pdf, p.digest, p.regionStart, p.regionEnd,
                libs.container(Base64.PyDecode(j.certB64).value, c.attributes, c.signature)) ==
    Some(file.value.content) &&
    (c.signature == signature <==> signature == [] || !Base64.LooksLikeHex(signature))
  }

  // What initiate records of a job.
  function Record(libs: Libs, j: Job): Started {
    var p := j.preparation;
    var prepared := Prepared(j.certB64, j.document, Hex.Encode(p.digest), p.regionStart, p.regionEnd, j.now);
    Started(prepared, p, Hex.Encode(HashOf(libs, j)))
  }

  // The desk holds the job's session as it was prepared, or no longer.
  ghost predicate Holds(libs: Libs, d: Desk, j: Job) {
    (SessionId(j) in d.cache ==> d.cache[SessionId(j)] == Record(libs, j).prepared) &&
    (SessionId(j) in d.tmpFiles ==> d.tmpFiles[SessionId(j)] == j.preparation.pdf)
  }

  lemma FinalizeExact(libs: Libs, d: Desk, j: Job, later: nat, signature: Bytes)
    requires Holds(libs, d, j)
    ensures Attaches(libs, d, j, later, SessionId(j), Base64.Encode(signature), HashOf(libs, j), signature)
  {
    Hex.PyRoundTrip(j.preparation.digest);
    Base64.SignatureTransportExact(signature);
  }

  /**
   It does attach one, for such a signature and within the session's time, exactly when
   pyHanko accepts the finished file.
   */
  lemma FinalizeSucceeds(libs: Libs, d: Desk, j: Job, later: nat, signature: Bytes)
    requires SessionId(j) in d.cache && SessionId(j) in d.tmpFiles && Holds(libs, d, j)
    requires Base64.PyDecode(j.certB64).Some?
    requires signature == [] || !Base64.LooksLikeHex(signature)
    ensures Finalize(libs, d, later, SessionId(j), Base64.Encode(signature)).1.Some? <==>
            later < j.now + 600 &&
            SignedFile(libs, Record(libs, j).prepared, j.preparation.pdf, j.preparation.digest,
                       Base64.PyDecode(j.certB64).value, signature).Some?
  {
    Hex.PyRoundTrip(j.preparation.digest);
    Base64.SignatureTransportExact(signature);
  }

  // --- The whole way ---

  /**
   In a reachable state, server and bridge share the secret of a linked site while the
   administrator leaves it alone.
   */
  lemma SharedSecret(setup: System.Setup, events: seq<System.Event>, site: string)
    ensures var m := System.Run(setup, System.START, events);
      site in m.linked && site in setup.ours && System.SecretUnchanged(m, site) ==>
      site in m.store.sites && m.server.secret != "" &&
      HMACSecret(m.store, setup.keychainUp, site) == Some(m.server.secret)
  {
    SystemResults.LinkedSecretIsCurrent(setup, events, site);
  }

  /**
   When the bridge answers a request carrying the server's ticket with a signature, the
   key was given the ticket's hash, in a DigestInfo if it is an RSA key; and whatever
   happens at the desk in between, the file that finalize may attach for that answer is
   the prepared document's.
   */
  lemma AnswerIsAttached(cfg: Config, libs: Libs, before: seq<DirectProofs.Event>, secret: string, j: Job, site: string,
                         a: Agent, r: Request, w: World, between: seq<DirectProofs.Event>, later: nat)
    requires Mac.Ideal(cfg.mac) && libs.mac == cfg.mac && Proper(a.pins)
    requires site in a.store.sites && secret != "" && HMACSecret(a.store, w.io.keychainUp, site) == Some(secret)
    requires Clocks(r, w, j) && FromPage(a, r, w, site) && j.now > 0 && |j.nonce| > 0
    requires var d := DirectProofs.Run(libs, EMPTY_DESK, before);
      SessionId(j) !in d.started && Begin(libs, d, secret, j).1.Some? &&
      r.sign.value.hmac == Begin(libs, d, secret, j).1.value.tag != ""
    requires Serve(cfg, a, r, w).reply.Signed?
    ensures var o := Serve(cfg, a, r, w);
      o.call.Some? && KeySigned(a, o.call.value, HashOf(libs, j)) && w.token.afterLogin.Ok? &&
      Attaches(libs, DeskAfter(libs, before, secret, j, between), j, later, o.reply.session, o.reply.signatureB64,
               HashOf(libs, j), w.token.afterLogin.signature.bytes)
  {
    TicketReachesTokenExactly(cfg, libs, DirectProofs.Run(libs, EMPTY_DESK, before), a, r, w, site, j, secret);
    TokenSigns(cfg, a, r, w);
    JobHolds(libs, before, secret, j, between);
    FinalizeExact(libs, DeskAfter(libs, before, secret, j, between), j, later, w.token.afterLogin.signature.bytes);
  }

  /**
   The same from any reachable state of the two machines: a site the bridge was linked
   with in the run, under a secret the administrator has not changed since.
   */
  lemma SignedEndToEnd(setup: System.Setup, events: seq<System.Event>, site: string, secret: string,
                       libs: Libs, before: seq<DirectProofs.Event>, j: Job,
                       a: Agent, r: Request, w: World, between: seq<DirectProofs.Event>, later: nat)
    requires Mac.Ideal(setup.cfg.mac) && libs.mac == setup.cfg.mac && Proper(a.pins)
    requires var m := System.Run(setup, System.START, events);
      a.store == m.store && secret == m.server.secret && site in m.linked && site in setup.ours &&
      System.SecretUnchanged(m, site)
    requires w.io.keychainUp == setup.keychainUp
    requires Clocks(r, w, j) && FromPage(a, r, w, site) && j.now > 0 && |j.nonce| > 0
    requires var d := DirectProofs.Run(libs, EMPTY_DESK, before);
      SessionId(j) !in d.started && Begin(libs, d, secret, j).1.Some? &&
      r.sign.value.hmac == Begin(libs, d, secret, j).1.value.tag != ""
    ensures var o := Serve(setup.cfg, a, r, w);
      o.reply.Signed? ==>
      o.call.Some? && KeySigned(a, o.call.value, HashOf(libs, j)) && w.token.afterLogin.Ok? &&
      Attaches(libs, DeskAfter(libs, before, secret, j, between), j, later, o.reply.session, o.reply.signatureB64,
               HashOf(libs, j), w.token.afterLogin.signature.bytes)
  {
    SharedSecret(setup, events, site);
    if Serve(setup.cfg, a, r, w).reply.Signed? {
      AnswerIsAttached(setup.cfg, libs, before, secret, j, site, a, r, w, between, later);
    }
  }

  // --- And it does succeed ---

  /** The token behind the requested certificate answers, is unlocked, has an RSA or EC key, and gets its PIN. */
  predicate WillSign(a: Agent, q: SignRequest, w: World)
    requires Pkcs11.FindCert(a.device, q.expectedFingerprint).Some? && (q.pin != "" || q.expectedFingerprint in a.pins)
  {
    var token := a.device.tokens[Pkcs11.FindCert(a.device, q.expectedFingerprint).value];
    w.token.ReachesPin() && token.retries > 0 && !token.key.OtherKey? && w.token.afterLogin.Ok? &&
    token.pin == if q.pin != "" then q.pin else a.pins[q.expectedFingerprint]
  }

  lemma CalledTokenSigns(cfg: Config, a: Agent, r: Request, w: World, site: string)
    requires Proper(a.pins) && FromPage(a, r, w, site) && Serve(cfg, a, r, w).call.Some? && WillSign(a, r.sign.value, w)
    ensures var reply := Serve(cfg, a, r, w).reply;
      reply.Signed? && reply.session == r.sign.value.fields.session &&
      reply.signatureB64 == Base64.Encode(w.token.afterLogin.signature.bytes) &&
      KeySigned(a, Serve(cfg, a, r, w).call.value, Serve(cfg, a, r, w).call.value.hash)
  {
    TokenSigns(cfg, a, r, w);
  }

  /** What finalize needs beyond the signature: time, and a file pyHanko can finish with it. */
  predicate CanFinish(libs: Libs, j: Job, later: nat, signature: Bytes) {
    later < j.now + 600 && Base64.PyDecode(j.certB64).Some? &&
    (signature == [] || !Base64.LooksLikeHex(signature)) &&
    SignedFile(libs, Record(libs, j).prepared, j.preparation.pdf, j.preparation.digest,
               Base64.PyDecode(j.certB64).value, signature).Some?
  }

  lemma BegunFinishes(libs: Libs, d: Desk, secret: string, j: Job, later: nat, signature: Bytes)
    requires Begin(libs, d, secret, j).1.Some? && CanFinish(libs, j, later, signature)
    ensures Finalize(libs, Begin(libs, d, secret, j).0, later, SessionId(j), Base64.Encode(signature)).1.Some?
  {
    FinalizeSucceeds(libs, Begin(libs, d, secret, j).0, j, later, signature);
  }

  /**
   From any reachable state in which the site is linked, under a secret not changed since:
   a document prepared there, its ticket presented unmodified within 60 seconds to a token
   that will sign, and the answer taken back in time, ends with the file attached.
   */
  lemma SignedAndAttached(setup: System.Setup, events: seq<System.Event>, site: string, secret: string,
                          libs: Libs, d: Desk, j: Job, a: Agent, r: Request, w: World, later: nat)
    requires Mac.Ideal(setup.cfg.mac) && libs.mac == setup.cfg.mac && Proper(a.pins)
    requires var m := System.Run(setup, System.START, events);
      a.store == m.store && secret == m.server.secret && site in m.linked && site in setup.ours &&
      System.SecretUnchanged(m, site)
    requires w.io.keychainUp == setup.keychainUp
    requires Clocks(r, w, j) && FromPage(a, r, w, site) && j.now > 0 && |j.nonce| > 0
    requires var begun := Begin(libs, d, secret, j).1;
      begun.Some? && r.sign.value.fields == begun.value.fields && r.sign.value.hmac == begun.value.tag != ""
    requires Mac.Distance(w.now, j.now) <= 60
    requires WillSign(a, r.sign.value, w) && CanFinish(libs, j, later, w.token.afterLogin.signature.bytes)
    ensures var reply := Serve(setup.cfg, a, r, w).reply;
      reply.Signed? && Serve(setup.cfg, a, r, w).call.Some? &&
      KeySigned(a, Serve(setup.cfg, a, r, w).call.value, HashOf(libs, j)) &&
      Finalize(libs, Begin(libs, d, secret, j).0, later, reply.session, reply.signatureB64).1.Some?
  {
    SharedSecret(setup, events, site);
    TicketReachesTokenExactly(setup.cfg, libs, d, a, r, w, site, j, secret);
    CalledTokenSigns(setup.cfg, a, r, w, site);
    BegunFinishes(libs, d, secret, j, later, w.token.afterLogin.signature.bytes);
  }
  // --- Nothing of this is empty ---

  const TOKEN := Pkcs11.Token("pin", 3, 3, Pkcs11.Rsa)

  function DeviceFor(fingerprint: string): Pkcs11.Device {
    Pkcs11.Device(map[fingerprint := "token"], map["token" := TOKEN], {"token"})
  }

  function Present(site: string, t: Ticket, fingerprint: string): Request {
    Request(POST, SignPath, site, "", Some(SignRequest(t.fields, fingerprint, t.tag, "pin")), None)
  }

  // The token signs, and nothing fails.
  function Willing(up: bool, now: int, signature: Pkcs11.Signature): World {
    var oracle := Pkcs11.Oracle(None, None, Pkcs11.Incorrect, Pkcs11.Ok(signature));
    World(now, Io(up, Done, Done, Done), oracle, false, None, "")
  }

  /** Both sides use one ideal code, which is never empty. */
  ghost predicate Authenticates(cfg: Config, libs: Libs) {
    Mac.Ideal(cfg.mac) && libs.mac == cfg.mac && forall k, p :: cfg.mac(k, p) != []
  }

  lemma PresentedFits(up: bool, store: Store, site: string, t: Ticket, fingerprint: string, j: Job,
                      signature: Pkcs11.Signature)
    requires site != "" && fingerprint != "" && Mac.Int64(j.now) && t.fields.timestamp == j.now
    ensures var a := Agent(true, store, map[], DeviceFor(fingerprint));
      var r, w := Present(site, t, fingerprint), Willing(up, j.now, signature);
      Clocks(r, w, j) && FromPage(a, r, w, site) && WillSign(a, r.sign.value, w)
  {
  }

  /**
   Every site of the server that can be posted to can come to sign every document that
   can be finished: issuing a code, pairing, preparing the document and presenting its
   ticket ends with the file attached.
   */
  lemma EverySiteCanSign(setup: System.Setup, site: string, libs: Libs, j: Job, fingerprint: string,
                         signature: Pkcs11.Signature)
    requires Authenticates(setup.cfg, libs)
    requires System.Postable(site) && site in setup.ours
    requires j.now > 0 && Mac.Int64(j.now) && |j.nonce| > 0 && fingerprint != ""
    requires CanFinish(libs, j, j.now, signature.bytes)
    ensures var m := System.Run(setup, System.START, SystemLink.Link(site));
      var (d, ticket) := Begin(libs, EMPTY_DESK, m.server.secret, j);
      ticket.Some? &&
      var a := Agent(true, m.store, map[], DeviceFor(fingerprint));
      var r, w := Present(site, ticket.value, fingerprint), Willing(setup.keychainUp, j.now, signature);
      var reply := Serve(setup.cfg, a, r, w).reply;
      reply.Signed? && Finalize(libs, d, j.now, reply.session, reply.signatureB64).1.Some?
  {
    var events := SystemLink.Link(site);
    var m := System.Run(setup, System.START, events);
    SystemLink.LinkedSiteReachable(setup, site);
    SharedSecret(setup, events, site);
    var t := Begin(libs, EMPTY_DESK, m.server.secret, j).1.value;
    assert setup.cfg.mac(m.server.secret, Mac.ServerPayload(t.fields)) != [];
    SystemLink.PostableIsNotEmpty(site);
    PresentedFits(setup.keychainUp, m.store, site, t, fingerprint, j, signature);
    var a := Agent(true, m.store, map[], DeviceFor(fingerprint));
    var r, w := Present(site, t, fingerprint), Willing(setup.keychainUp, j.now, signature);
    SignedAndAttached(setup, events, site, m.server.secret, libs, EMPTY_DESK, j, a, r, w, j.now);
  }
}
