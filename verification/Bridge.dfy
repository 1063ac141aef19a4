/**
 The bridge's handlers and middlewares as they run: early exits, and updates of the
 keystore, the PIN cache and the token.
 */
module Bridge {
  import opened Common
  import opened KeystoreSpec
  import opened PinCaches
  import opened BridgeSpec
  import Spec = BridgeSpec
  import BridgeProofs
  import Keystores
  import Base64
  import Hex
  import Mac
  import Pkcs11
  import Pkcs11Handlers

  class Handlers {
    const cfg: Config
    const ks: Keystores.Keystore
    const pins: PINCache
    const pkcs11: Pkcs11Handlers.PKCS11Handler

    constructor (cfg: Config, ks: Keystores.Keystore, pins: PINCache, pkcs11: Pkcs11Handlers.PKCS11Handler)
      ensures this.cfg == cfg && this.ks == ks && this.pins == pins && this.pkcs11 == pkcs11
    {
      this.cfg, this.ks, this.pins, this.pkcs11 := cfg, ks, pins, pkcs11;
    }

    function Now(): Agent
      reads ks, pins, pkcs11
    {
      Agent(true, ks.Now(), pins.pins, pkcs11.device)
    }

    /** securityMiddleware's decision. */
    method Admit(r: Request, w: World) returns (ok: bool)
      ensures ok <==> Admitted(Now().store, w.io.keychainUp, r)
    {
      if r.path.PairPath? {
        return true;
      }
      if (r.path.StatusPath? || r.path.MacAddressPath?) && r.verb.GET? {
        return true;
      }
      if r.origin == "" {
        return false;
      }
      if r.siteToken != "" {
        ok := ks.ValidateToken(r.origin, r.siteToken, w.io.keychainUp);
      } else {
        ok := r.origin in ks.sites;
      }
    }

    /** The HMAC and replay checks at the start of HandleSign. */
    method CheckHMAC(q: SignRequest, origin: string, w: World) returns (ok: bool)
      requires Mac.Int64(w.now) && Mac.Int64(q.fields.timestamp)
      ensures ok <==> HmacPasses(cfg, Now().store, w.io.keychainUp, origin, q, w.now)
    {
      if q.hmac != "" && q.fields.timestamp != 0 && q.fields.nonce != "" {
        if origin == "" {
          return false;
        }
        var secret := ks.HMACSecret(origin, w.io.keychainUp);
        if secret.None? || secret.value == "" {
          return true;
        }
        ok := Mac.VerifyHMAC(cfg.mac, secret.value, q.fields, q.hmac, w.now);
      } else {
        if origin != "" {
          var secret := ks.HMACSecret(origin, w.io.keychainUp);
          if secret.Some? && secret.value != "" {
            return false;
          }
        }
        return true;
      }
    }

    method HandleSign(r: Request, w: World) returns (reply: Reply, call: Option<SignCall>)
      requires Mac.Int64(w.now) && (r.sign.Some? ==> Mac.Int64(r.sign.value.fields.timestamp))
      requires Proper(pins.pins)
      modifies pins, pkcs11
      ensures Outcome(Now(), reply, call) == Spec.HandleSign(cfg, old(Now()), r, w)
      ensures Proper(pins.pins)
    {
      call := None;
      if !r.verb.POST? {
        return Status(405), call;
      }
      if r.sign.None? {
        return Failed(Pkcs11.InternalError, 400), call;
      }
      var q := r.sign.value;
      if q.fields.algorithm != "" && q.fields.algorithm != "sha256" {
        return Failed(Pkcs11.UnsupportedAlgorithm, 400), call;
      }
      var authentic := CheckHMAC(q, r.origin, w);
      if !authentic {
        return Failed(Pkcs11.Unauthorized, 403), call;
      }
      var token := Pkcs11.FindCert(pkcs11.device, q.expectedFingerprint);
      if token.None? {
        var error := if pkcs11.device.present == {} then Pkcs11.TokenNotFound else Pkcs11.CertNotFound;
        return Failed(error, 404), call;
      }
      var hash := Hex.GoDecode(q.fields.hash);
      if hash.None? {
        return Failed(Pkcs11.InternalError, 400), call;
      }
      var pin := q.pin;
      if pin == "" {
        var cached := pins.Get(q.expectedFingerprint);
        if cached.None? {
          return Failed(Pkcs11.PinRequired, 401), call;
        }
        pin := cached.value;
      }
      var burned := Pkcs11.Burns(pkcs11.device.tokens[token.value], pin, w.token);
      var result, data := pkcs11.SignHash(token.value, hash.value, pin, w.token);
      call := Some(SignCall(token.value, q.expectedFingerprint, hash.value, pin, q.pin == "", burned, data));
      match result {
        case Err(e) =>
          var (code, status) := Pkcs11.MapError(e);
          if code == Pkcs11.PinIncorrect || code == Pkcs11.PinLocked {
            pins.Drop(q.expectedFingerprint);
          }
          reply := Failed(code, status);
        case Ok(s) =>
          pins.Set(q.expectedFingerprint, pin);
          reply := Signed(q.fields.session, Base64.Encode(s.bytes), Base64.Encode(s.certDER), cfg.agentFP);
      }
    }

    method HandlePair(r: Request, w: World) returns (reply: Reply)
      modifies ks
      ensures (Now().store, reply) == Spec.HandlePair(cfg, old(Now().store), r, w)
    {
      if !r.verb.POST? {
        return Status(405);
      }
      if r.pair.None? || r.pair.value.code == "" || r.pair.value.siteURL == "" {
        return Failed(Pkcs11.InternalError, 400);
      }
      var siteURL := r.pair.value.siteURL;
      if !w.confirm {
        return Failed(Pkcs11.Unauthorized, 403);
      }
      if w.pairing.None? || w.pairing.value.siteToken == "" {
        return Failed(Pkcs11.InvalidPairingCode, 403);
      }
      var p := w.pairing.value;
      var ok := ks.AddSite(PairedSite(siteURL, p.siteToken, w.pairedOn, p.agentRegistration), w.io);
      if !ok {
        return Failed(Pkcs11.InternalError, 500);
      }
      if p.hmacSecret != "" {
        var _ := ks.SetHMACSecret(siteURL, p.hmacSecret, w.io);
      }
      return Paired(cfg.agentFP);
    }

    /** The service: a request through both middlewares to its handler. */
    method ServeHTTP(r: Request, w: World) returns (reply: Reply, call: Option<SignCall>)
      requires Mac.Int64(w.now) && (r.sign.Some? ==> Mac.Int64(r.sign.value.fields.timestamp))
      requires Proper(pins.pins)
      modifies ks, pins, pkcs11
      ensures Outcome(Now(), reply, call) == Spec.Serve(cfg, old(Now()), r, w)
      ensures call.Some? <==> BridgeProofs.MaySign(cfg, old(Now()), r, w)
      ensures call.Some? ==> call.value.pin != ""
      ensures Proper(pins.pins)
    {
      BridgeProofs.TokenReachedExactly(cfg, Now(), r, w);
      call := None;
      if r.verb.OPTIONS? {
        return NoContent, call;
      }
      var admitted := Admit(r, w);
      if !admitted {
        return Failed(Pkcs11.Unauthorized, 403), call;
      }
      match r.path {
        case SignPath =>
          reply, call := HandleSign(r, w);
        case PairPath =>
          reply := HandlePair(r, w);
        case OtherPath =>
          reply := Status(404);
        case _ =>
          reply := if r.verb.GET? then Info else Status(405);
      }
    }
  }
}
