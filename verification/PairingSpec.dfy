/** The server side of pairing: one-time codes in a cache, registrations in the database, one HMAC secret. On values. */
module PairingSpec {
  import opened Common

  const PAIRING_TTL_SECONDS := 600

  datatype CodeEntry = CodeEntry(user: string, siteURL: string, createdAt: nat)

  datatype Registration = Registration(user: string, agentFP: string, tokenHash: string, active: bool, lastSeen: nat)

  /**
   For the record: what redeeming a code yielded, when, and which secret was handed out,
   if any, in which epoch of the secret.
   */
  datatype Redemption = Redemption(registration: string, at: nat, secret: string, epoch: nat)

  /**
   The server: its clock, the cache, the table of DSC Registrations, the stored secret
   ("" when unset); and the history that the properties speak of: codes ever issued,
   codes redeemed, codes used up by a failed insert, the token granted to each
   registration, and how often an administrator has changed the secret.
   */
  datatype Server = Server(
    now: nat, cache: map<string, CodeEntry>, registrations: map<string, Registration>, secret: string,
    issued: map<string, CodeEntry>, redeemed: map<string, Redemption>, lost: set<string>,
    granted: map<string, string>, epoch: nat)

  const NEW := Server(0, map[], map[], "", map[], map[], {}, map[], 0)

  /** What one validation draws at random, and the name the database gives the new document. */
  datatype Draw = Draw(token: string, name: string, secret: string)

  /** What validate_pairing_code returns to the agent. */
  datatype Grant = Grant(siteToken: string, agentRegistration: string, hmacSecret: string)

  // The cache still answers for the code.
  predicate Live(s: Server, code: string) {
    code in s.cache && s.now < s.cache[code].createdAt + PAIRING_TTL_SECONDS
  }

  /** generate_pairing_code */
  function Generate(s: Server, code: string, user: string, siteURL: string): Server {
    var e := CodeEntry(user, siteURL, s.now);
    s.(cache := s.cache[code := e], issued := s.issued[code := e])
  }

  /** get_or_create_hmac_secret */
  function SecretFor(s: Server, draw: string): string {
    if s.secret != "" then s.secret else draw
  }

  /**
   How the database fares in one validation: it refuses the new document; it commits the
   document and then fails to give or store the secret; or it does both.
   */
  datatype Database = InsertFails | SecretFails | Commits

  /** validate_pairing_code. None is an error. */
  function Validate(hash: string -> string, s: Server, code: string, agentFP: string, draw: Draw, db: Database)
    : (Server, Option<Grant>)
  {
    if !Live(s, code) then (s, None)
    else
      var taken := s.(cache := s.cache - {code});
      if db.InsertFails? then (taken.(lost := s.lost + {code}), None)
      else
        var secret := if db.Commits? then SecretFor(s, draw.secret) else "";
        var r := Registration(s.cache[code].user, agentFP, hash(draw.token), true, s.now);
        (taken.(registrations := s.registrations[draw.name := r], secret := if db.Commits? then secret else s.secret,
                redeemed := s.redeemed[code := Redemption(draw.name, s.now, secret, s.epoch)],
                granted := s.granted[draw.name := draw.token]),
         if db.Commits? then Some(Grant(draw.token, draw.name, secret)) else None)
  }

  /** The registration verify_site_token looks for; an empty fingerprint is no filter. */
  predicate Matches(hash: string -> string, s: Server, name: string, token: string, agentFP: string) {
    name in s.registrations && s.registrations[name].tokenHash == hash(token) && s.registrations[name].active &&
    (agentFP != "" ==> s.registrations[name].agentFP == agentFP)
  }

  /**
   An answer verify_site_token may give: a matching registration, whichever the
   database finds first, or none if there is none.
   */
  predicate MayVerify(hash: string -> string, s: Server, token: string, agentFP: string, answer: Option<string>) {
    if token == "" then answer == None
    else if answer.Some? then Matches(hash, s, answer.value, token, agentFP)
    else forall name :: name in s.registrations ==> !Matches(hash, s, name, token, agentFP)
  }

  function Seen(s: Server, name: string): Server {
    if name in s.registrations then
      s.(registrations := s.registrations[name := s.registrations[name].(lastSeen := s.now)])
    else s
  }

  function Deactivate(s: Server, name: string): Server {
    if name in s.registrations then
      s.(registrations := s.registrations[name := s.registrations[name].(active := false)])
    else s
  }

  /** An administrator stores another secret, or clears it. */
  function ChangeSecret(s: Server, secret: string): Server {
    s.(secret := secret, epoch := s.epoch + 1)
  }

  function Tick(s: Server, seconds: nat): Server {
    s.(now := s.now + seconds)
  }

  /** Random draws are never repeated, and a new document gets a new name. */
  predicate FreshDraw(s: Server, draw: Draw) {
    draw.token != "" && draw.secret != "" && draw.token !in s.granted.Values &&
    draw.name != "" && draw.name !in s.registrations && draw.name !in s.granted
  }
}
