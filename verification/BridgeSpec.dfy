/** What the bridge's HTTP service does with one request: middlewares, pairing, signing. On values. */
module BridgeSpec {
  import opened Common
  import opened KeystoreSpec
  import opened PinCaches
  import Base64
  import Hex
  import Mac
  import Pkcs11

  // --- Requests, the outside world, replies ---

  datatype Verb = GET | POST | OPTIONS | OtherVerb
  datatype Path = PairPath | StatusPath | MacAddressPath | CertsPath | SignPath | OtherPath

  datatype SignRequest = SignRequest(fields: Mac.Fields, expectedFingerprint: string, hmac: string, pin: string)
  datatype PairRequest = PairRequest(code: string, siteURL: string)

  /** A request, with its body as each handler decodes it; None is a body that does not decode. */
  datatype Request = Request(
    verb: Verb, path: Path, origin: string, siteToken: string,
    sign: Option<SignRequest>, pair: Option<PairRequest>)

  /** The site's answer to validate_pairing_code. */
  datatype PairingReply = PairingReply(siteToken: string, agentRegistration: string, hmacSecret: string)

  /** What the outside world answers one request: clock, storage, token, the user's consent, the site. */
  datatype World = World(
    now: int, io: Io, token: Pkcs11.Oracle, confirm: bool, pairing: Option<PairingReply>, pairedOn: string)

  datatype Config = Config(mac: (string, string) -> Bytes, agentFP: string)

  /** The bridge's state while it runs, or its last one, and the tokens in its machine. */
  datatype Agent = Agent(running: bool, store: Store, pins: Pins, device: Pkcs11.Device)

  datatype Reply =
    | NoContent
    | Status(code: nat)
    | Failed(error: Pkcs11.ErrorCode, status: nat)
    | Signed(session: string, signatureB64: string, certB64: string, agentFP: string)
    | Paired(agentFP: string)
    | Info

  /** One call of SignHash: `burned` says that the token took a retry for it, `data` what the key was given to sign. */
  datatype SignCall = SignCall(token: string, fingerprint: string, hash: Bytes, pin: string, cached: bool, burned: bool,
    data: Option<Bytes>)

  // --- The middlewares ---

  /** corsOriginAllowed */
  predicate CorsOriginAllowed(s: Store, origin: string, path: Path) {
    origin in s.sites || path.PairPath? || path.StatusPath? || path.MacAddressPath?
  }

  /** securityMiddleware: whether the request is passed on. */
  predicate Admitted(s: Store, up: bool, r: Request) {
    r.path.PairPath? ||
    ((r.path.StatusPath? || r.path.MacAddressPath?) && r.verb.GET?) ||
    (r.origin != "" &&
     (if r.siteToken != "" then Token(s, up, r.origin) == Some(r.siteToken) else r.origin in s.sites))
  }

  // --- Signing ---

  // A secret the bridge can find and use for the site.
  predicate SecretKnown(s: Store, up: bool, origin: string) {
    HMACSecret(s, up, origin).Some? && HMACSecret(s, up, origin).value != ""
  }

  /** The HMAC part of HandleSign: whether signing may go on. */
  predicate HmacPasses(cfg: Config, s: Store, up: bool, origin: string, q: SignRequest, now: int) {
    if q.hmac != "" && q.fields.timestamp != 0 && q.fields.nonce != "" then
      origin != "" &&
      (SecretKnown(s, up, origin) ==>
       Mac.Accepts(cfg.mac, HMACSecret(s, up, origin).value, q.fields, q.hmac, now))
    else
      origin == "" || !SecretKnown(s, up, origin)
  }

  function ResolvePin(pins: Pins, q: SignRequest): Option<string> {
    if q.pin != "" then Some(q.pin) else Cached(pins, q.expectedFingerprint)
  }

  /** The last part of HandleSign: sign on the token, and keep or drop the PIN. */
  function SignWith(cfg: Config, a: Agent, q: SignRequest, token: string, pin: string, w: World): (Agent, Reply)
    requires token in a.device.tokens
  {
    var (d, result) := Pkcs11.SignHash(a.device, token, pin, w.token);
    match result
    case Err(e) =>
      var pins := if Pkcs11.CondemnsPin(e) then Forget(a.pins, q.expectedFingerprint) else a.pins;
      (a.(device := d, pins := pins), Failed(Pkcs11.MapError(e).0, Pkcs11.MapError(e).1))
    case Ok(s) =>
      (a.(device := d, pins := Remember(a.pins, q.expectedFingerprint, pin)),
       Signed(q.fields.session, Base64.Encode(s.bytes), Base64.Encode(s.certDER), cfg.agentFP))
  }

  datatype Outcome = Outcome(agent: Agent, reply: Reply, call: Option<SignCall>)

  function HandleSign(cfg: Config, a: Agent, r: Request, w: World): Outcome {
    if !r.verb.POST? then Outcome(a, Status(405), None)
    else if r.sign.None? then Outcome(a, Failed(Pkcs11.InternalError, 400), None)
    else
      var q := r.sign.value;
      if q.fields.algorithm != "" && q.fields.algorithm != "sha256" then
        Outcome(a, Failed(Pkcs11.UnsupportedAlgorithm, 400), None)
      else if !HmacPasses(cfg, a.store, w.io.keychainUp, r.origin, q, w.now) then
        Outcome(a, Failed(Pkcs11.Unauthorized, 403), None)
      else
        var token := Pkcs11.FindCert(a.device, q.expectedFingerprint);
        if token.None? then
          Outcome(a, Failed(if a.device.present == {} then Pkcs11.TokenNotFound else Pkcs11.CertNotFound, 404), None)
        else
          var hash := Hex.GoDecode(q.fields.hash);
          if hash.None? then Outcome(a, Failed(Pkcs11.InternalError, 400), None)
          else
            var pin := ResolvePin(a.pins, q);
            if pin.None? then Outcome(a, Failed(Pkcs11.PinRequired, 401), None)
            else
              var (a', reply) := SignWith(cfg, a, q, token.value, pin.value, w);
              Outcome(a', reply, Some(CallOf(a, q, token.value, hash.value, pin.value, w)))
  }

  function CallOf(a: Agent, q: SignRequest, token: string, hash: Bytes, pin: string, w: World): SignCall
    requires token in a.device.tokens
  {
    var burned := Pkcs11.Burns(a.device.tokens[token], pin, w.token);
    var data := Pkcs11.DataGiven(a.device, token, hash, pin, w.token);
    SignCall(token, q.expectedFingerprint, hash, pin, q.pin == "", burned, data)
  }

  // --- Pairing ---

  /** The request reaches HandlePair, which gets as far as contacting the site. */
  predicate ContactsSite(r: Request, w: World) {
    r.path.PairPath? && r.verb.POST? && r.pair.Some? && w.confirm &&
    r.pair.value.code != "" && r.pair.value.siteURL != ""
  }

  /** HandlePair from the site's answer on. */
  function StorePairing(cfg: Config, s: Store, siteURL: string, w: World): (Store, Reply) {
    if w.pairing.None? || w.pairing.value.siteToken == "" then (s, Failed(Pkcs11.InvalidPairingCode, 403))
    else
      var p := w.pairing.value;
      var (s1, ok) := AddSite(s, PairedSite(siteURL, p.siteToken, w.pairedOn, p.agentRegistration), w.io);
      if !ok then (s1, Failed(Pkcs11.InternalError, 500))
      else (SetHMACSecret(s1, siteURL, p.hmacSecret, w.io).0, Paired(cfg.agentFP))
  }

  function HandlePair(cfg: Config, s: Store, r: Request, w: World): (Store, Reply) {
    if !r.verb.POST? then (s, Status(405))
    else if r.pair.None? || r.pair.value.code == "" || r.pair.value.siteURL == "" then
      (s, Failed(Pkcs11.InternalError, 400))
    else if !w.confirm then (s, Failed(Pkcs11.Unauthorized, 403))
    else StorePairing(cfg, s, r.pair.value.siteURL, w)
  }

  // --- The whole service ---

  /** corsMiddleware around securityMiddleware around the handlers. */
  function Serve(cfg: Config, a: Agent, r: Request, w: World): Outcome {
    if r.verb.OPTIONS? then Outcome(a, NoContent, None)
    else if !Admitted(a.store, w.io.keychainUp, r) then Outcome(a, Failed(Pkcs11.Unauthorized, 403), None)
    else
      match r.path
      case SignPath => HandleSign(cfg, a, r, w)
      case PairPath =>
        var (s, reply) := HandlePair(cfg, a.store, r, w);
        Outcome(a.(store := s), reply, None)
      case OtherPath => Outcome(a, Status(404), None)
      case _ => Outcome(a, if r.verb.GET? then Info else Status(405), None)
  }
}
