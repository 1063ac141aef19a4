/** The gate in front of the token, request by request and over runs. */
module BridgeProofs {
  import opened Common
  import opened KeystoreSpec
  import opened PinCaches
  import opened BridgeSpec
  import Hex
  import Mac
  import Pkcs11

  // --- When the token is reached ---

  /** The page is a paired site's, and the site token it shows, if any, is the stored one. */
  predicate FromPairedPage(s: Store, up: bool, r: Request) {
    r.origin != "" && r.origin in s.sites &&
    (r.siteToken != "" ==> SecretAt(s.disk, up, r.origin) == Some(r.siteToken))
  }

  predicate Supported(q: SignRequest) {
    q.fields.algorithm in {"", "sha256"}
  }

  /** If a secret is known for the origin, the request carries a tag made with it, in time. */
  predicate Authenticated(cfg: Config, s: Store, origin: string, q: SignRequest, w: World) {
    SecretKnown(s, w.io.keychainUp, origin) ==>
      q.hmac != "" && q.fields.nonce != "" &&
      Mac.Accepts(cfg.mac, HMACSecret(s, w.io.keychainUp, origin).value, q.fields, q.hmac, w.now)
  }

  predicate PinAtHand(pins: Pins, q: SignRequest) {
    q.pin != "" || q.expectedFingerprint in pins
  }

  /**
   A request the bridge may sign: a sign request from a paired origin, carrying the
   right site token if any, authenticated if a secret is known for the origin, for a
   certificate on a plugged-in token, over a hexadecimal hash, with a PIN at hand.
   */
  predicate MaySign(cfg: Config, a: Agent, r: Request, w: World) {
    r.path.SignPath? && r.verb.POST? && r.sign.Some? && FromPairedPage(a.store, w.io.keychainUp, r) &&
    Supported(r.sign.value) && Authenticated(cfg, a.store, r.origin, r.sign.value, w) &&
    Pkcs11.FindCert(a.device, r.sign.value.expectedFingerprint).Some? &&
    Hex.GoDecode(r.sign.value.fields.hash).Some? &&
    PinAtHand(a.pins, r.sign.value)
  }

  /**
   SignHash is reached exactly for such requests, with the request's hash and a non-
   empty PIN: the request's own, or the cached one.
   */
  lemma TokenReachedExactly(cfg: Config, a: Agent, r: Request, w: World)
    requires Proper(a.pins)
    ensures var o := Serve(cfg, a, r, w);
      (o.call.Some? <==> MaySign(cfg, a, r, w)) &&
      (o.call.Some? ==>
       o.call.value.pin != "" && o.call.value.token in a.device.present &&
       Some(o.call.value.hash) == Hex.GoDecode(r.sign.value.fields.hash) &&
       (o.call.value.cached <==> r.sign.value.pin == "") &&
       o.call.value.pin == if o.call.value.cached then a.pins[r.sign.value.expectedFingerprint] else r.sign.value.pin)
  {
  }

  /**
   The two middlewares agree: a page whose request is let through may read the reply,
   and beyond the bootstrap paths only a paired site's page may.
   */
  lemma GatesAgree(s: Store, up: bool, r: Request)
    ensures Admitted(s, up, r) && r.origin != "" ==> CorsOriginAllowed(s, r.origin, r.path)
    ensures CorsOriginAllowed(s, r.origin, r.path) <==>
            (r.path.SignPath? || r.path.CertsPath? || r.path.OtherPath? ==> r.origin in s.sites)
    ensures r.path.SignPath? || r.path.CertsPath? ==>
            (Admitted(s, up, r) <==>
             r.origin != "" && CorsOriginAllowed(s, r.origin, r.path) &&
             (r.siteToken == "" || SecretAt(s.disk, up, r.origin) == Some(r.siteToken)))
  {
  }

  /** A sign request that does not reach the token is answered with an error, or as a preflight, and changes nothing. */
  lemma RefusalsChangeNothing(cfg: Config, a: Agent, r: Request, w: World)
    requires r.path.SignPath? && Serve(cfg, a, r, w).call.None?
    ensures var o := Serve(cfg, a, r, w);
      o.agent == a && if r.verb.OPTIONS? then o.reply.NoContent? else
      (o.reply.Failed? && 400 <= o.reply.status < 500) || (o.reply.Status? && o.reply.code == 405)
  {
  }

  // --- Runs ---

  /**
   What happens to a bridge: requests, a token's PIN being changed, tokens coming and
   going, a restart. One that finds metadata it cannot read does not come up, and serves
   nothing.
   */
  datatype Event =
    | Http(r: Request, w: World)
    | ChangePin(token: string, pin: string)
    | Plug(token: string)
    | Unplug(token: string)
    | Restart

  function Happen(cfg: Config, a: Agent, e: Event): Agent {
    match e
    case Http(r, w) => if a.running then Serve(cfg, a, r, w).agent else a
    case ChangePin(token, pin) =>
      if token in a.device.tokens then
        var t := a.device.tokens[token];
        a.(device := a.device.(tokens := a.device.tokens[token := t.(pin := pin, retries := t.maxRetries)]))
      else a
    case Plug(token) => a.(device := a.device.(present := a.device.present + {token}))
    case Unplug(token) => a.(device := a.device.(present := a.device.present - {token}))
    case Restart =>
      if Open(a.store.disk).Some? then a.(running := true, pins := map[], store := Open(a.store.disk).value)
      else a.(running := false, pins := map[])
  }

  function CallIn(cfg: Config, a: Agent, e: Event): Option<SignCall> {
    if e.Http? && a.running then Serve(cfg, a, e.r, e.w).call else None
  }

  /** Every call in the run was made for a request the bridge may sign, with a non-empty PIN. */
  ghost predicate AllCallsGated(cfg: Config, a: Agent, events: seq<Event>)
    decreases |events|
  {
    events == [] ||
    ((CallIn(cfg, a, events[0]).Some? ==>
      MaySign(cfg, a, events[0].r, events[0].w) && CallIn(cfg, a, events[0]).value.pin != "") &&
     AllCallsGated(cfg, Happen(cfg, a, events[0]), events[1..]))
  }

  lemma HappenKeepsProper(cfg: Config, a: Agent, e: Event)
    requires Proper(a.pins)
    ensures Proper(Happen(cfg, a, e).pins)
  {
  }

  /** Over every run, starting with a proper cache such as the empty one, the token is only reached through the gate. */
  lemma {:induction false} RunIsGated(cfg: Config, a: Agent, events: seq<Event>)
    requires Proper(a.pins)
    ensures AllCallsGated(cfg, a, events)
    decreases |events|
  {
    if events == [] {
    } else {
      if events[0].Http? && a.running {
        TokenReachedExactly(cfg, a, events[0].r, events[0].w);
      }
      HappenKeepsProper(cfg, a, events[0]);
      RunIsGated(cfg, Happen(cfg, a, events[0]), events[1..]);
    }
  }
  /** A bridge that did not come up serves nothing until a restart finds metadata it can read. */
  lemma StoppedServesNothing(cfg: Config, a: Agent, e: Event)
    requires !a.running
    ensures CallIn(cfg, a, e).None?
    ensures var a' := Happen(cfg, a, e);
      (a'.running <==> e.Restart? && Open(a.store.disk).Some?) &&
      (!a'.running ==> a'.store == a.store && forall f :: f in a'.pins ==> f in a.pins && a'.pins[f] == a.pins[f])
  {
  }

  /** A token that is pulled out is not called, and one whose PIN is changed takes the new PIN with all its retries. */
  lemma TokenChangesShow(cfg: Config, a: Agent, r: Request, w: World, token: string, pin: string)
    requires Proper(a.pins)
    ensures var call := CallIn(cfg, Happen(cfg, a, Unplug(token)), Http(r, w)); call.Some? ==> call.value.token != token
    ensures token in a.device.tokens ==>
              var t := Happen(cfg, a, ChangePin(token, pin)).device.tokens[token];
              (t.maxRetries > 0 ==> Pkcs11.Login(t, pin, w.token.refusal).1 == None) &&
              t.retries == t.maxRetries == a.device.tokens[token].maxRetries
  {
    TokenReachedExactly(cfg, Happen(cfg, a, Unplug(token)), r, w);
  }
}
