/** What the bridge answers: who is let in, why a request is refused, and what a pairing is told. */
module BridgeReplies {
  import opened Common
  import opened KeystoreSpec
  import opened PinCaches
  import opened BridgeSpec
  import opened BridgeProofs
  import opened Pkcs11
  import Base64
  import Hex
  import PinProofs

  // --- The gate ---

  /** What any page may ask: to be paired, and whether a bridge is there. */
  predicate Bootstrap(r: Request) {
    r.path.PairPath? || (r.verb.GET? && (r.path.StatusPath? || r.path.MacAddressPath?))
  }

  /**
   Preflights are answered on every path; a request to be paired reaches its handler, and
   status and MAC address are told, whatever the origin, the site token and the sites
   paired so far.
   */
  lemma BootstrapIsOpen(cfg: Config, a: Agent, r: Request, w: World)
    ensures r.verb.OPTIONS? ==> Serve(cfg, a, r, w) == Outcome(a, NoContent, None)
    ensures r.path.PairPath? && !r.verb.OPTIONS? ==>
              var (s, reply) := HandlePair(cfg, a.store, r, w);
              Serve(cfg, a, r, w) == Outcome(a.(store := s), reply, None)
    ensures r.verb.GET? && (r.path.StatusPath? || r.path.MacAddressPath?) ==>
              Serve(cfg, a, r, w) == Outcome(a, Info, None)
  {
  }

  /**
   Anything else is turned away exactly when it does not come from a paired site's page
   with the right token, if any; and what is let in outside pairing and signing gets
   information for a GET of a known path, and is refused otherwise.
   */
  lemma GateExactly(cfg: Config, a: Agent, r: Request, w: World)
    requires !r.verb.OPTIONS? && !Bootstrap(r)
    ensures var o, letIn := Serve(cfg, a, r, w), FromPairedPage(a.store, w.io.keychainUp, r);
      (!letIn ==> o == Outcome(a, Failed(Unauthorized, 403), None)) &&
      (letIn && r.path.SignPath? ==> o == HandleSign(cfg, a, r, w)) &&
      (letIn && !r.path.SignPath? ==>
       o == Outcome(a, if r.path.OtherPath? then Status(404) else if r.verb.GET? then Info else Status(405), None))
  {
  }

  // --- Sign requests that do not reach the token ---

  // Up to the body, up to the tag, up to the certificate, up to the hash.
  predicate Posted(a: Agent, r: Request, w: World) {
    r.verb.POST? && r.sign.Some? && FromPairedPage(a.store, w.io.keychainUp, r)
  }

  predicate Vetted(cfg: Config, a: Agent, r: Request, w: World) {
    Posted(a, r, w) && Supported(r.sign.value) && Authenticated(cfg, a.store, r.origin, r.sign.value, w)
  }

  /** The certificate's key pair is on a token that is plugged in. */
  predicate Inserted(d: Device, fingerprint: string) {
    exists t :: t in d.tokens && t in d.present && fingerprint in d.holder && d.holder[fingerprint] == t
  }

  predicate Located(cfg: Config, a: Agent, r: Request, w: World) {
    Vetted(cfg, a, r, w) && Inserted(a.device, r.sign.value.expectedFingerprint)
  }

  lemma FoundExactly(d: Device, fingerprint: string)
    ensures FindCert(d, fingerprint).Some? <==> Inserted(d, fingerprint)
  {
  }

  /**
   A sign request that does not reach the token is told the first condition it fails, in
   this order: a paired page, the method, the body, the algorithm, the tag, the
   certificate, the hash, the PIN. Each answer is given exactly then.
   */
  lemma RefusedExactly(cfg: Config, a: Agent, r: Request, w: World)
    requires r.path.SignPath? && !r.verb.OPTIONS? && Serve(cfg, a, r, w).call.None? && Proper(a.pins)
    ensures var reply, letIn := Serve(cfg, a, r, w).reply, FromPairedPage(a.store, w.io.keychainUp, r);
      (reply == Failed(Unauthorized, 403) <==>
       !letIn || (Posted(a, r, w) && Supported(r.sign.value) && !Vetted(cfg, a, r, w))) &&
      (reply == Status(405) <==> letIn && !r.verb.POST?) &&
      (reply == Failed(UnsupportedAlgorithm, 400) <==> Posted(a, r, w) && !Supported(r.sign.value)) &&
      (reply == Failed(TokenNotFound, 404) <==>
       Vetted(cfg, a, r, w) && !Located(cfg, a, r, w) && a.device.present == {}) &&
      (reply == Failed(CertNotFound, 404) <==>
       Vetted(cfg, a, r, w) && !Located(cfg, a, r, w) && a.device.present != {}) &&
      (reply == Failed(InternalError, 400) <==>
       (letIn && r.verb.POST? && r.sign.None?) ||
       (Located(cfg, a, r, w) && Hex.GoDecode(r.sign.value.fields.hash).None?)) &&
      (reply == Failed(PinRequired, 401) <==>
       Located(cfg, a, r, w) && Hex.GoDecode(r.sign.value.fields.hash).Some? && !PinAtHand(a.pins, r.sign.value))
  {
    if r.sign.Some? {
      FoundExactly(a.device, r.sign.value.expectedFingerprint);
    }
    TokenReachedExactly(cfg, a, r, w);
  }

  // --- Sign requests that do ---

  function Mapped(e: SignError): Reply {
    Failed(MapError(e).0, MapError(e).1)
  }

  /**
   Once the token is called: a fault of the device is passed on, a token without retries
   says PIN_LOCKED, a wrong PIN always says PIN_INCORRECT however the token words it, a
   key that is neither RSA nor EC is an internal error, and after that the token's own
   answer decides.
   */
  lemma CallAnswered(cfg: Config, a: Agent, r: Request, w: World)
    requires Serve(cfg, a, r, w).call.Some?
    ensures var o, c := Serve(cfg, a, r, w), Serve(cfg, a, r, w).call.value;
      c.token in a.device.tokens &&
      var t := a.device.tokens[c.token];
      o.reply ==
        if w.token.openFault.Some? then Mapped(w.token.openFault.value)
        else if w.token.loginFault.Some? then Mapped(w.token.loginFault.value)
        else if t.retries == 0 then Failed(PinLocked, 403)
        else if c.pin != t.pin then Failed(PinIncorrect, 401)
        else if t.key.OtherKey? then Failed(InternalError, 500)
        else if w.token.afterLogin.Err? then Mapped(w.token.afterLogin.error)
        else Signed(r.sign.value.fields.session, Base64.Encode(w.token.afterLogin.signature.bytes),
                    Base64.Encode(w.token.afterLogin.signature.certDER), cfg.agentFP)
  {
  }

  /**
   What the cache keeps of a call: the PIN after a signature, no PIN after an answer that
   condemns it, and otherwise what it held. The store stays as it is, and the device is
   what the token makes of it.
   */
  lemma CacheAfterCall(cfg: Config, a: Agent, r: Request, w: World)
    requires Serve(cfg, a, r, w).call.Some? && Proper(a.pins)
    ensures var o, c := Serve(cfg, a, r, w), Serve(cfg, a, r, w).call.value;
      o.agent.store == a.store && c.token in a.device.tokens &&
      (c.burned <==> w.token.ReachesPin() && a.device.tokens[c.token].retries > 0 &&
                     c.pin != a.device.tokens[c.token].pin) &&
      o.agent.device == SignHash(a.device, c.token, c.pin, w.token).0 &&
      (forall f :: f != c.fingerprint ==> Lookup(o.agent.pins, f) == Lookup(a.pins, f)) &&
      Lookup(o.agent.pins, c.fingerprint) ==
        if o.reply.Signed? && c.fingerprint != "" then Some(c.pin)
        else if o.reply.Failed? && o.reply.error in {PinIncorrect, PinLocked} then None
        else Lookup(a.pins, c.fingerprint)
  {
    TokenReachedExactly(cfg, a, r, w);
  }

  // --- Where cached PINs come from ---

  /** The PINs that requests have presented for a certificate since the last restart, and those given before. */
  function Given(given: set<(string, string)>, events: seq<Event>): set<(string, string)>
    decreases |events|
  {
    if events == [] then given else Given(GivenBy(given, events[0]), events[1..])
  }

  function GivenBy(given: set<(string, string)>, e: Event): set<(string, string)> {
    if e.Restart? then {}
    else if e.Http? && e.r.sign.Some? then given + {(e.r.sign.value.expectedFingerprint, e.r.sign.value.pin)}
    else given
  }

  ghost predicate Sourced(pins: Pins, given: set<(string, string)>) {
    forall f :: f in pins ==> (f, pins[f]) in given
  }

  lemma RequestSources(cfg: Config, a: Agent, r: Request, w: World, given: set<(string, string)>)
    requires Proper(a.pins) && Sourced(a.pins, given)
    ensures Sourced(Serve(cfg, a, r, w).agent.pins, GivenBy(given, Http(r, w)))
  {
    var o := Serve(cfg, a, r, w);
    if o.call.Some? {
      CacheAfterCall(cfg, a, r, w);
      TokenReachedExactly(cfg, a, r, w);
      forall f | f in o.agent.pins ensures (f, o.agent.pins[f]) in GivenBy(given, Http(r, w)) {
        assert Lookup(o.agent.pins, f) == Some(o.agent.pins[f]);
      }
    }
  }

  /** Over every run, a PIN in the cache was presented for its certificate after the last restart. */
  lemma {:induction false} CachedWasGiven(cfg: Config, a: Agent, events: seq<Event>, given: set<(string, string)>)
    requires Proper(a.pins) && Sourced(a.pins, given)
    ensures Sourced(PinProofs.Final(cfg, a, events).pins, Given(given, events))
    decreases |events|
  {
    if events == [] {
    } else {
      if events[0].Http? && a.running {
        RequestSources(cfg, a, events[0].r, events[0].w, given);
      }
      HappenKeepsProper(cfg, a, events[0]);
      CachedWasGiven(cfg, Happen(cfg, a, events[0]), events[1..], GivenBy(given, events[0]));
    }
  }

  // --- Numbers ---

  /** The return values behind each answer, by their numbers in the standard. */
  lemma MappedExactly(e: SignError)
    ensures var ckr := if e.Returned? then e.ckr else 0;
      (MapError(e) == (PinIncorrect, 401) <==> ckr in {0xA0, 0xA1, 0xA2}) &&
      (MapError(e) == (PinLocked, 403) <==> ckr == 0xA4) &&
      (MapError(e) == (PinCancelled, 400) <==> ckr == 0x50) &&
      (MapError(e) == (TokenNotFound, 404) <==> ckr in {0x32, 0xE0, 0xE1}) &&
      (MapError(e) == (UnsupportedAlgorithm, 400) <==> ckr in {0x70, 0x71}) &&
      (MapError(e) == (CertNotFound, 404) <==> ckr in {0x60, 0x82}) &&
      (MapError(e) == (InternalError, 500) <==>
       ckr !in {0x32, 0x50, 0x60, 0x70, 0x71, 0x82, 0xA0, 0xA1, 0xA2, 0xA4, 0xE0, 0xE1})
  {
  }

  // --- Pairing ---

  // The site and its token are stored: both writes reported success.
  predicate Stored(w: World) {
    (w.io.keychainUp || w.io.tokenWrite.Done?) && w.io.metaWrite.Done?
  }

  /**
   A request to be paired is told that it was exactly when it is a POST naming a code and
   a URL, the user agrees, the site answers with a token, and token and entry are
   stored; every other outcome has its own answer.
   */
  lemma PairAnsweredExactly(cfg: Config, a: Agent, r: Request, w: World)
    requires r.path.PairPath? && !r.verb.OPTIONS?
    ensures var reply := Serve(cfg, a, r, w).reply;
      var named := r.pair.Some? && r.pair.value.code != "" && r.pair.value.siteURL != "";
      var answered := w.pairing.Some? && w.pairing.value.siteToken != "";
      (reply == Status(405) <==> !r.verb.POST?) &&
      (reply == Failed(InternalError, 400) <==> r.verb.POST? && !named) &&
      (reply == Failed(Unauthorized, 403) <==> r.verb.POST? && named && !w.confirm) &&
      (reply == Failed(InvalidPairingCode, 403) <==> r.verb.POST? && named && w.confirm && !answered) &&
      (reply == Failed(InternalError, 500) <==> r.verb.POST? && named && w.confirm && answered && !Stored(w)) &&
      (reply == Paired(cfg.agentFP) <==> r.verb.POST? && named && w.confirm && answered && Stored(w))
  {
  }

  /**
   And then the entry, the token and, if its write landed, the secret are in the store and
   on the disk; a pairing that is not contacted or not answered changes nothing.
   */
  lemma PairedIsStored(cfg: Config, a: Agent, r: Request, w: World)
    requires r.path.PairPath? && Serve(cfg, a, r, w).reply.Paired?
    ensures var s, url, p := Serve(cfg, a, r, w).agent.store, r.pair.value.siteURL, w.pairing.value;
      url in s.sites && s.sites[url] == PairedSite(url, "", w.pairedOn, p.agentRegistration) &&
      Open(s.disk).Some? && Open(s.disk).value.sites == Serialised(s.sites) &&
      (w.io.keychainUp || !w.io.hmacWrite.CutShort? ==> SecretAt(s.disk, w.io.keychainUp, url) == Some(p.siteToken))
  {
    assert HmacKey(r.pair.value.siteURL) != r.pair.value.siteURL;
  }
}
