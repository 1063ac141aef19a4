/** The USB token behind PKCS#11: login with a retry counter, the data that is signed, and the error codes. */
module Pkcs11 {
  import opened Common
  import opened Der
  import Ocsp

  // --- Return values of PKCS#11 v2.40, appendix A ---

  const CKR_DEVICE_REMOVED := 0x32
  const CKR_FUNCTION_CANCELED := 0x50
  const CKR_KEY_HANDLE_INVALID := 0x60
  const CKR_MECHANISM_INVALID := 0x70
  const CKR_MECHANISM_PARAM_INVALID := 0x71
  const CKR_OBJECT_HANDLE_INVALID := 0x82
  const CKR_PIN_INCORRECT := 0xA0
  const CKR_PIN_INVALID := 0xA1
  const CKR_PIN_LEN_RANGE := 0xA2
  const CKR_PIN_LOCKED := 0xA4
  const CKR_TOKEN_NOT_PRESENT := 0xE0
  const CKR_TOKEN_NOT_RECOGNIZED := 0xE1

  datatype ErrorCode =
    | TokenNotFound | CertNotFound | PinCancelled | PinIncorrect | PinLocked | PinRequired
    | UnsupportedAlgorithm | InternalError | Unauthorized | InvalidPairingCode

  /** An error of SignHash: one that wraps a PKCS#11 return value, or another. */
  datatype SignError = Returned(ckr: nat) | Other

  /** mapPKCS11Error: the agent's error code and the HTTP status. */
  function MapError(e: SignError): (ErrorCode, nat) {
    match e
    case Other => (InternalError, 500)
    case Returned(ckr) =>
      if ckr == CKR_PIN_INCORRECT then (PinIncorrect, 401)
      else if ckr == CKR_PIN_LOCKED then (PinLocked, 403)
      else if ckr == CKR_PIN_INVALID || ckr == CKR_PIN_LEN_RANGE then (PinIncorrect, 401)
      else if ckr == CKR_FUNCTION_CANCELED then (PinCancelled, 400)
      else if ckr == CKR_TOKEN_NOT_PRESENT || ckr == CKR_TOKEN_NOT_RECOGNIZED || ckr == CKR_DEVICE_REMOVED then
        (TokenNotFound, 404)
      else if ckr == CKR_MECHANISM_INVALID || ckr == CKR_MECHANISM_PARAM_INVALID then (UnsupportedAlgorithm, 400)
      else if ckr == CKR_KEY_HANDLE_INVALID || ckr == CKR_OBJECT_HANDLE_INVALID then (CertNotFound, 404)
      else (InternalError, 500)
  }

  // The errors after which a cached PIN is dropped.
  predicate CondemnsPin(e: SignError) {
    MapError(e).0 == PinIncorrect || MapError(e).0 == PinLocked
  }

  /** A cached PIN is dropped for exactly these four return values: incorrect, invalid, of the wrong length, locked. */
  lemma CondemnsExactly(e: SignError)
    ensures CondemnsPin(e) <==>
            e.Returned? && e.ckr in {CKR_PIN_INCORRECT, CKR_PIN_INVALID, CKR_PIN_LEN_RANGE, CKR_PIN_LOCKED}
  {
  }

  // --- The device ---

  datatype KeyType = Rsa | Ec | OtherKey

  datatype Token = Token(pin: string, retries: nat, maxRetries: nat, key: KeyType)

  /** Which token holds each certificate's key pair, the tokens themselves, and those plugged in. */
  datatype Device = Device(holder: map<string, string>, tokens: map<string, Token>, present: set<string>)

  /** FindCertByFingerprint: the token whose certificate has the fingerprint. */
  function FindCert(d: Device, fingerprint: string): (token: Option<string>)
    ensures token.Some? ==>
              token.value in d.tokens && token.value in d.present &&
              fingerprint in d.holder && d.holder[fingerprint] == token.value
    ensures token.None? ==>
              forall t :: t in d.tokens && t in d.present ==> !(fingerprint in d.holder && d.holder[fingerprint] == t)
  {
    if fingerprint in d.holder && d.holder[fingerprint] in d.tokens && d.holder[fingerprint] in d.present
    then Some(d.holder[fingerprint]) else None
  }

  // How a token words its refusal of a wrong PIN.
  datatype Refusal = Incorrect | Invalid | LengthOutOfRange {
    function Ckr(): nat {
      match this
      case Incorrect => CKR_PIN_INCORRECT
      case Invalid => CKR_PIN_INVALID
      case LengthOutOfRange => CKR_PIN_LEN_RANGE
    }
  }

  datatype Signature = Signature(bytes: Bytes, certDER: Bytes)

  datatype Result = Ok(signature: Signature) | Err(error: SignError)

  /**
   What the outside world answers one signing attempt: a failure to open the session, a
   failure of C_Login before it looks at the PIN (the device fails, or a login is
   already in place), the wording of a refusal, and what happens after a successful login.
   */
  datatype Oracle = Oracle(openFault: Option<SignError>, loginFault: Option<SignError>, refusal: Refusal,
    afterLogin: Result) {
    // The PIN gets as far as being compared.
    predicate ReachesPin() {
      openFault.None? && loginFault.None?
    }
  }

  function Login(t: Token, pin: string, refusal: Refusal): (Token, Option<nat>) {
    if t.retries == 0 then (t, Some(CKR_PIN_LOCKED))
    else if pin == t.pin then (t.(retries := t.maxRetries), None)
    else (t.(retries := t.retries - 1), Some(refusal.Ckr()))
  }

  /** The login attempt costs the token a retry. */
  predicate Burns(t: Token, pin: string, oracle: Oracle) {
    oracle.ReachesPin() && t.retries > 0 && pin != t.pin
  }

  function SignHash(d: Device, token: string, pin: string, oracle: Oracle): (Device, Result)
    requires token in d.tokens
  {
    if oracle.openFault.Some? then (d, Err(oracle.openFault.value))
    else if oracle.loginFault.Some? then (d, Err(oracle.loginFault.value))
    else
      var (t, refused) := Login(d.tokens[token], pin, oracle.refusal);
      var d' := d.(tokens := d.tokens[token := t]);
      if refused.Some? then (d', Err(Returned(refused.value)))
      else if t.key.OtherKey? then (d', Err(Other))
      else (d', oracle.afterLogin)
  }

  /**
   What one signing attempt does to the device: only the addressed token changes, and
   only in its counter, which drops by one exactly on a wrong PIN and is refilled
   exactly by the right one; a signature needs the right PIN, and a wrong or locked
   PIN is always reported as an error that condemns it.
   */
  lemma SignHashEffect(d: Device, token: string, pin: string, oracle: Oracle)
    requires token in d.tokens
    ensures var (d', r) := SignHash(d, token, pin, oracle);
      d'.holder == d.holder && d'.present == d.present && d'.tokens.Keys == d.tokens.Keys &&
      (forall t :: t in d.tokens && t != token ==> d'.tokens[t] == d.tokens[t]) &&
      d'.tokens[token].pin == d.tokens[token].pin &&
      d'.tokens[token].retries ==
        (if Burns(d.tokens[token], pin, oracle) then d.tokens[token].retries - 1
         else if oracle.ReachesPin() && d.tokens[token].retries > 0 then d.tokens[token].maxRetries
         else d.tokens[token].retries) &&
      (r.Ok? ==> pin == d.tokens[token].pin && d.tokens[token].retries > 0) &&
      (oracle.ReachesPin() && (d.tokens[token].retries == 0 || pin != d.tokens[token].pin) ==>
       r.Err? && CondemnsPin(r.error))
  {
  }

  // --- The data that is signed ---

  /** sha256DigestInfoPrefix */
  function Sha256DigestInfoPrefix(): Bytes {
    [0x30, 0x31, 0x30, 0x0d, 0x06, 0x09, 0x60, 0x86,
     0x48, 0x01, 0x65, 0x03, 0x04, 0x02, 0x01, 0x05,
     0x00, 0x04, 0x20]
  }

  function DataToSign(key: KeyType, hash: Bytes): Option<Bytes> {
    match key
    case Rsa => Some(Sha256DigestInfoPrefix() + hash)
    case Ec => Some(hash)
    case OtherKey => None
  }

  /** What one signing attempt gives the key to sign; None if it ends before. */
  function DataGiven(d: Device, token: string, hash: Bytes, pin: string, oracle: Oracle): Option<Bytes>
    requires token in d.tokens
  {
    var t := d.tokens[token];
    if oracle.ReachesPin() && t.retries > 0 && pin == t.pin then DataToSign(t.key, hash) else None
  }

  // AlgorithmIdentifier of SHA-256 with NULL parameters.
  function Sha256Algorithm(): Bytes {
    [0x30, 0x0d, 0x06, 0x09, 0x60, 0x86, 0x48, 0x01, 0x65, 0x03, 0x04, 0x02, 0x01, 0x05, 0x00]
  }

  /** A DigestInfo (section 9.2 of RFC 8017) over SHA-256 read with nothing trailing; the digest in it. */
  function ReadDigestInfo(s: Bytes): Option<Bytes> {
    match Ocsp.Only(0x30, s)
    case None => None
    case Some(body) =>
      if |body| >= 15 && body[..15] == Sha256Algorithm() then Ocsp.Only(0x04, body[15..]) else None
  }

  lemma PrefixShape(hash: Bytes)
    ensures Sha256DigestInfoPrefix() + hash == [0x30, 0x31] + (Sha256Algorithm() + ([0x04, 0x20] + hash))
  {
  }

  lemma OuterLength(body: Bytes)
    ensures Read([0x30, 0x31] + body) == if |body| < 49 then None else Some(Tlv(0x30, body[..49], body[49..]))
  {
    var s := [0x30, 0x31] + body;
    assert s[1..][0] == 0x31;
    assert |body| >= 49 ==> s[2..51] == body[..49] && s[51..] == body[49..];
  }

  /**
   A hash behind the prefix is its DigestInfo exactly when it has SHA-256's 32 bytes,
   which the bridge does not check.
   */
  lemma DigestInfoExact(hash: Bytes)
    ensures ReadDigestInfo(Sha256DigestInfoPrefix() + hash) == Some(hash) <==> |hash| == 32
  {
    var inner := [0x04, 0x20] + hash;
    var body := Sha256Algorithm() + inner;
    PrefixShape(hash);
    OuterLength(body);
    if |hash| == 32 {
      assert body[..49] == body && body[49..] == [];
      assert body[..15] == Sha256Algorithm() && body[15..] == inner;
      assert inner == WrapBody(Ocsp.OCTET_STRING, hash);
      Ocsp.OnlyWrapped(Ocsp.OCTET_STRING, hash);
    }
  }
  /**
   What a key is asked to sign for a hash: an EC key the hash itself, an RSA key 19 bytes
   and the hash, which together are the hash's DigestInfo exactly if it has 32 bytes.
   */
  predicate Carries(key: KeyType, data: Bytes, hash: Bytes) {
    match key
    case Ec => data == hash
    case Rsa =>
      |data| == 19 + |hash| && data[19..] == hash && (ReadDigestInfo(data) == Some(hash) <==> |hash| == 32)
    case OtherKey => false
  }

  /**
   A key is given something exactly after a login with the right PIN at an RSA or EC key,
   and always before a signature; and what it is given carries the hash.
   */
  lemma SignedDataExact(d: Device, token: string, hash: Bytes, pin: string, oracle: Oracle)
    requires token in d.tokens
    ensures var t, data := d.tokens[token], DataGiven(d, token, hash, pin, oracle);
      (data.Some? <==> oracle.ReachesPin() && t.retries > 0 && pin == t.pin && !t.key.OtherKey?) &&
      (data.Some? ==> Carries(t.key, data.value, hash)) &&
      (SignHash(d, token, pin, oracle).1.Ok? ==> data.Some?)
  {
    DigestInfoExact(hash);
  }
}
