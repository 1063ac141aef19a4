/**
 The two machines together: a Frappe server issuing and redeeming pairing codes, and a
 bridge pairing with it and with other sites over a network that may lose messages.
 */
module System {
  import opened Common
  import opened KeystoreSpec
  import opened KeystoreProofs
  import opened BridgeSpec
  import P = PairingSpec
  import PP = PairingProofs
  import Pkcs11

  /**
   What stays fixed over a run: token hashing, the bridge's configuration, the
   keychain's availability, and which URLs reach the server.
   */
  datatype Setup = Setup(hash: string -> string, cfg: Config, keychainUp: bool, ours: set<string>)

  /** Why a redeemed code stands behind no token the bridge holds. */
  datatype Fate = Elsewhere | Unstored | Superseded | FileLost

  /**
   Both states, and the history the properties speak of: whether the bridge runs, the
   sites a user approved, the code behind the token last stored for each URL, the URLs
   whose token and secret went with a token file cut short, those whose last pairing
   also stored its HMAC secret, those paired since the metadata was last saved, those
   whose entry is older than their token, those that have a token and no entry, whether
   the metadata file was cut short, and what became of every other redeemed code.
   */
  datatype Machines = Machines(
    server: P.Server, store: Store, running: bool, approved: set<string>, codeOf: map<string, string>,
    lost: set<string>, linked: set<string>, unsaved: set<string>, stale: set<string>, dropped: set<string>,
    metaTorn: bool, fate: map<string, Fate>)

  datatype Network = Delivered | RequestLost | ReplyLost

  datatype Event =
    | AtServer(e: PP.Event)
    | Pairing(r: Request, w: World, network: Network, draw: P.Draw, db: P.Database)
    | Restart

  /** http.Post refuses every scheme but these two. */
  predicate Postable(url: string) {
    HasPrefix(Upper(url), "HTTP:") || HasPrefix(Upper(url), "HTTPS:")
  }

  lemma PrefixChar(s: string, prefix: string, i: nat)
    requires i < |prefix|
    ensures HasPrefix(s, prefix) ==> |s| > i && s[i] == prefix[i]
  {
  }

  lemma PostableIsPlain(url: string)
    requires Postable(url)
    ensures PlainUrl(url)
  {
    PrefixChar(Upper(url), "HTTP:", 1);
    PrefixChar(Upper(url), "HTTPS:", 1);
    assert Upper(url)[1] == UpperChar(url[1]);
    PrefixChar(url, HMAC_PREFIX, 1);
  }

  lemma HttpIsPostable(rest: string)
    ensures Postable("http:" + rest) && Postable("https:" + rest)
  {
    assert Upper("http:" + rest)[..5] == "HTTP:";
    assert Upper("https:" + rest)[..6] == "HTTPS:";
  }

  // The world of a pairing request, with the fixed keychain and this answer from the site.
  function With(setup: Setup, w: World, answer: Option<PairingReply>): World {
    w.(io := w.io.(keychainUp := setup.keychainUp), pairing := answer)
  }

  function Answer(grant: Option<P.Grant>, network: Network): Option<PairingReply> {
    if grant.None? || !network.Delivered? then None
    else Some(PairingReply(grant.value.siteToken, grant.value.agentRegistration, grant.value.hmacSecret))
  }

  // The server's part of a pairing with one of its URLs.
  function ServerPart(setup: Setup, s: P.Server, code: string, network: Network, draw: P.Draw, db: P.Database)
    : (P.Server, Option<PairingReply>)
  {
    if network.RequestLost? then (s, None)
    else
      var (s', grant) := P.Validate(setup.hash, s, code, setup.cfg.agentFP, draw, db);
      (s', Answer(grant, network))
  }

  // --- What a pairing's writes come to ---

  predicate Answered(answer: Option<PairingReply>) {
    answer.Some? && answer.value.siteToken != ""
  }

  // The token was taken, and the entry went in.
  predicate Entered(setup: Setup, w: World, answer: Option<PairingReply>) {
    Answered(answer) && (setup.keychainUp || w.io.tokenWrite.Done?)
  }

  predicate SecretSent(setup: Setup, w: World, answer: Option<PairingReply>) {
    Entered(setup, w, answer) && w.io.metaWrite.Done? && answer.value.hmacSecret != ""
  }

  // The token reached the keychain or the file.
  predicate Landed(setup: Setup, w: World, answer: Option<PairingReply>) {
    Answered(answer) && (setup.keychainUp || w.io.tokenWrite.Lands())
  }

  // So did the HMAC secret.
  predicate SecretLanded(setup: Setup, w: World, answer: Option<PairingReply>) {
    SecretSent(setup, w, answer) && (setup.keychainUp || w.io.hmacWrite.Lands())
  }

  /** The pairing cuts the token file short, at the token's write or at the secret's. */
  predicate CutsTokens(setup: Setup, w: World, answer: Option<PairingReply>) {
    !setup.keychainUp && Answered(answer) &&
    (w.io.tokenWrite.CutShort? || (SecretSent(setup, w, answer) && w.io.hmacWrite.CutShort?))
  }

  // --- A pairing at the bridge, write by write ---

  // The keychain always takes a secret while it is up.
  function Through(setup: Setup, write: WriteResult): WriteResult {
    if setup.keychainUp then Done else write
  }

  // The token file is cut short, and with it goes every secret.
  function TornTokens(m: Machines, d: Disk): Machines {
    m.(store := m.store.(disk := d), lost := m.codeOf.Keys, linked := {})
  }

  /** The site token's write. A token that is stored stands, until its entry follows, beside an older entry or none. */
  function TokenStage(setup: Setup, m: Machines, url: string, code: string, token: string,
    write: WriteResult): Machines {
    var d := PutSecret(m.store.disk, setup.keychainUp, write, url, token).0;
    match Through(setup, write)
    case Refused => m
    case CutShort => TornTokens(m, d)
    case _ =>
      m.(store := m.store.(disk := d), codeOf := m.codeOf[url := code],
         lost := m.lost - {url}, linked := m.linked - {url},
         stale := if url in m.store.sites then m.stale + {url} else m.stale,
         dropped := if url in m.store.sites then m.dropped else m.dropped + {url})
  }

  /** The entry, and the metadata's write. */
  function EntryStage(m: Machines, url: string, entry: PairedSite, write: WriteResult): Machines {
    var sites := m.store.sites[url := entry];
    m.(store := Save(Store(sites, m.store.disk), write), stale := m.stale - {url}, dropped := m.dropped - {url},
       unsaved := if write.Lands() then {} else if write.CutShort? then sites.Keys else m.unsaved + {url},
       metaTorn := if write.Lands() then false else write.CutShort? || m.metaTorn)
  }

  /** The HMAC secret's write. */
  function SecretStage(setup: Setup, m: Machines, url: string, secret: string, write: WriteResult): Machines {
    var d := PutSecret(m.store.disk, setup.keychainUp, write, HmacKey(url), secret).0;
    match Through(setup, write)
    case Refused => m
    case CutShort => TornTokens(m, d)
    case _ => m.(store := m.store.(disk := d), linked := m.linked + {url})
  }

  function PairStages(setup: Setup, m: Machines, url: string, code: string, w: World, answer: PairingReply): Machines {
    var m1 := TokenStage(setup, m, url, code, answer.siteToken, w.io.tokenWrite);
    if !Through(setup, w.io.tokenWrite).Done? then m1
    else
      var m2 := EntryStage(m1, url, PairedSite(url, "", w.pairedOn, answer.agentRegistration), w.io.metaWrite);
      if !w.io.metaWrite.Done? || answer.hmacSecret == "" then m2
      else SecretStage(setup, m2, url, answer.hmacSecret, w.io.hmacWrite)
  }

  // A bridge over this store; cached PINs and tokens play no part in a pairing.
  function Idle(s: Store): Agent {
    Agent(true, s, map[], Pkcs11.Device(map[], map[], {}))
  }

  /** The bridge serves a request, with this answer from the site should it be contacted. */
  function Serves(setup: Setup, s: Store, r: Request, w: World, answer: Option<PairingReply>): Outcome {
    Serve(setup.cfg, Idle(s), r, With(setup, w, answer))
  }

  /** The effect on the store of a request to be paired, with the history of its writes. */
  function BridgePart(setup: Setup, m: Machines, r: Request, w: World, answer: Option<PairingReply>): Machines
    requires r.pair.Some?
  {
    var m0 := m.(approved := m.approved + {r.pair.value.siteURL});
    var store := Serves(setup, m.store, r, w, answer).agent.store;
    if answer.None? || answer.value.siteToken == "" then m0.(store := store)
    else PairStages(setup, m0, r.pair.value.siteURL, r.pair.value.code, w, answer.value).(store := store)
  }

  // The sites a restart would find.
  function Saved(d: Disk): Sites {
    if Open(d).Some? then Open(d).value.sites else map[]
  }

  /** A restart; with metadata that does not parse the bridge does not come up. */
  function Reopen(m: Machines): Machines {
    if Open(m.store.disk).None? then m.(running := false)
    else
      var sites := Saved(m.store.disk);
      m.(store := Open(m.store.disk).value, linked := m.linked * sites.Keys, unsaved := {},
         stale := (m.stale + m.unsaved) * sites.Keys, dropped := m.dropped + (m.store.sites.Keys - sites.Keys))
  }

  // --- The ledger of redeemed codes ---

  /** The server's URLs whose token the bridge holds, and the codes behind those tokens. */
  function HeldUrls(setup: Setup, m: Machines): set<string> {
    set u | u in m.codeOf && u in setup.ours && u !in m.lost
  }

  function HeldCodes(setup: Setup, m: Machines): set<string> {
    set u | u in HeldUrls(setup, m) :: m.codeOf[u]
  }

  predicate Behind(setup: Setup, m: Machines, c: string) {
    exists u :: u in m.codeOf && u in setup.ours && m.codeOf[u] == c
  }

  // What became of a code that stands behind no held token after an event.
  function Cause(setup: Setup, m: Machines, after: Machines, c: string): Fate {
    if Behind(setup, after, c) then FileLost else if c in m.server.redeemed then Superseded else Unstored
  }

  function Record(setup: Setup, m: Machines, after: Machines): Machines {
    var redeemed := after.server.redeemed.Keys - m.server.redeemed.Keys;
    var released := HeldCodes(setup, m) + redeemed - HeldCodes(setup, after);
    after.(fate := m.fate + map c | c in released :: Cause(setup, m, after, c))
  }

  function AtTheServer(setup: Setup, m: Machines, e: PP.Event): Machines {
    var s := PP.Happen(setup.hash, m.server, e);
    m.(server := s, fate := m.fate + map c | c in s.redeemed.Keys - m.server.redeemed.Keys :: Elsewhere)
  }

  // --- Runs ---

  /** A pairing takes place: the bridge runs and contacts a site, and the server's draws, for a site of its, are new. */
  predicate Pairs(setup: Setup, m: Machines, e: Event) {
    e.Pairing? && m.running && ContactsSite(e.r, e.w) && Postable(e.r.pair.value.siteURL) &&
    (e.r.pair.value.siteURL in setup.ours ==> P.FreshDraw(m.server, e.draw))
  }

  // What the server does in it, if it is asked.
  function Served(setup: Setup, m: Machines, e: Event): (P.Server, Option<PairingReply>)
    requires e.Pairing? && e.r.pair.Some?
  {
    if e.r.pair.value.siteURL in setup.ours then
      ServerPart(setup, m.server, e.r.pair.value.code, e.network, e.draw, e.db)
    else (m.server, e.w.pairing)
  }

  // The answer it brings, and the machines when the answer arrives.
  function AnswerIn(setup: Setup, m: Machines, e: Event): Option<PairingReply>
    requires e.Pairing? && e.r.pair.Some?
  {
    Served(setup, m, e).1
  }

  function AtPairing(setup: Setup, m: Machines, e: Event): Machines
    requires e.Pairing? && e.r.pair.Some?
  {
    m.(server := Served(setup, m, e).0)
  }

  /**
   One event. A request that the bridge refuses before contacting the site changes
   nothing, nor does a repeated draw, nor anything at a bridge that is not running.
   */
  function Happen(setup: Setup, m: Machines, e: Event): Machines {
    match e
    case AtServer(se) => AtTheServer(setup, m, se)
    case Restart => if m.running then Reopen(m) else m
    case Pairing(r, w, network, draw, db) =>
      if !Pairs(setup, m, e) then m
      else Record(setup, m, BridgePart(setup, AtPairing(setup, m, e), r, w, AnswerIn(setup, m, e)))
  }

  /** The registration behind the site was made since the administrator last changed the secret. */
  predicate SecretUnchanged(m: Machines, site: string) {
    site in m.codeOf && m.codeOf[site] in m.server.redeemed &&
    m.server.redeemed[m.codeOf[site]].epoch == m.server.epoch
  }

  function Run(setup: Setup, m: Machines, events: seq<Event>): Machines
    decreases |events|
  {
    if events == [] then m else Run(setup, Happen(setup, m, events[0]), events[1..])
  }

  /** A new server, and a bridge on a disk without secrets or sites. */
  const START := Machines(P.NEW, Store(map[], EMPTY), true, {}, map[], {}, {}, {}, {}, {}, false, map[])
}
