/** What couples the two machines, and that every event keeps it. */
module SystemProofs {
  import opened Common
  import opened KeystoreSpec
  import opened KeystoreProofs
  import opened BridgeSpec
  import opened System
  import P = PairingSpec
  import PP = PairingProofs

  type Codes = map<string, string>

  // --- The coupling ---

  /** The server redeemed `code`, and has the token it granted for it registered for the agent. */
  ghost predicate Granted(s: P.Server, code: string, token: string, agentFP: string) {
    code in s.redeemed &&
    var name := s.redeemed[code].registration;
    name in s.granted && s.granted[name] == token && name in s.registrations && s.registrations[name].agentFP == agentFP
  }

  /** The disk holds a token for exactly the URLs with a code that was not lost. */
  ghost predicate TokensHeld(up: bool, d: Disk, codeOf: Codes, lost: set<string>) {
    forall u {:trigger SecretAt(d, up, u)} :: Postable(u) ==> (SecretAt(d, up, u).Some? <==> u in codeOf && u !in lost)
  }

  /** With a URL's token its HMAC secret was lost. */
  ghost predicate SecretsLost(up: bool, d: Disk, codeOf: Codes, lost: set<string>) {
    forall u :: u in lost ==> u in codeOf && SecretAt(d, up, HmacKey(u)).None?
  }

  /** URLs with a code are approved, and either paired or dropped. */
  ghost predicate Placed(sites: Sites, dropped: set<string>, codeOf: Codes, approved: set<string>) {
    sites.Keys + dropped == codeOf.Keys && sites.Keys !! dropped && codeOf.Keys <= approved &&
    forall u :: u in codeOf ==> Postable(u)
  }

  /** Each token held for a URL of the server was granted for the URL's code. */
  ghost predicate Backed(setup: Setup, s: P.Server, d: Disk, codeOf: Codes, lost: set<string>) {
    forall u :: u in codeOf && u in setup.ours && u !in lost ==>
      SecretAt(d, setup.keychainUp, u).Some? &&
      Granted(s, codeOf[u], SecretAt(d, setup.keychainUp, u).value, setup.cfg.agentFP)
  }

  /** Different URLs of the server redeemed different codes. */
  ghost predicate CodesApart(ours: set<string>, codeOf: Codes, redeemed: PP.Redemptions) {
    (forall a :: a in codeOf && a in ours ==> codeOf[a] in redeemed) &&
    (forall a, b :: a in codeOf && b in codeOf && a in ours && b in ours && codeOf[a] == codeOf[b] ==> a == b)
  }

  /** A registration name the server has, which is the one made for the code unless `outdated`. */
  ghost predicate Names(s: P.Server, codeOf: Codes, site: string, name: string, outdated: bool) {
    site in codeOf && codeOf[site] in s.redeemed && name in s.registrations &&
    (outdated <==> name != s.redeemed[codeOf[site]].registration)
  }

  ghost predicate NamesRight(ours: set<string>, s: P.Server, sites: Sites, codeOf: Codes, stale: set<string>) {
    forall site :: site in sites && site in ours ==>
      Names(s, codeOf, site, sites[site].agentRegistration, site in stale)
  }

  /** The server handed out a secret with that code, and the bridge holds it. */
  ghost predicate Linked(up: bool, s: P.Server, d: Disk, codeOf: Codes, site: string) {
    site in codeOf && codeOf[site] in s.redeemed &&
    s.redeemed[codeOf[site]].secret != "" && SecretAt(d, up, HmacKey(site)) == Some(s.redeemed[codeOf[site]].secret)
  }

  ghost predicate LinkedRight(setup: Setup, s: P.Server, st: Store, codeOf: Codes, linked: set<string>) {
    forall site :: site in linked && site in setup.ours ==>
      site in st.sites && Linked(setup.keychainUp, s, st.disk, codeOf, site)
  }

  /** What the metadata file holds of a site: its entry, or an earlier one if it is unsaved. */
  ghost predicate SavedRight(s: P.Server, sites: Sites, saved: Sites, codeOf: Codes, unsaved: set<string>,
                             site: string)
  {
    if site in unsaved then site in saved ==> Names(s, codeOf, site, saved[site].agentRegistration, true)
    else site in saved && site in sites && saved[site].agentRegistration == sites[site].agentRegistration
  }

  ghost predicate AllSaved(ours: set<string>, s: P.Server, sites: Sites, saved: Sites, codeOf: Codes,
    unsaved: set<string>) {
    saved.Keys <= sites.Keys &&
    forall site :: site in sites && site in ours ==> SavedRight(s, sites, saved, codeOf, unsaved, site)
  }

  ghost predicate TokenSide(setup: Setup, m: Machines) {
    TokensHeld(setup.keychainUp, m.store.disk, m.codeOf, m.lost) &&
    SecretsLost(setup.keychainUp, m.store.disk, m.codeOf, m.lost) &&
    Placed(m.store.sites, m.dropped, m.codeOf, m.approved) &&
    Backed(setup, m.server, m.store.disk, m.codeOf, m.lost) &&
    CodesApart(setup.ours, m.codeOf, m.server.redeemed)
  }

  ghost predicate EntrySide(setup: Setup, m: Machines) {
    NamesRight(setup.ours, m.server, m.store.sites, m.codeOf, m.stale) &&
    LinkedRight(setup, m.server, m.store, m.codeOf, m.linked) &&
    AllSaved(setup.ours, m.server, m.store.sites, Saved(m.store.disk), m.codeOf, m.unsaved) &&
    (Open(m.store.disk).None? <==> m.metaTorn)
  }

  ghost predicate Coupled(setup: Setup, m: Machines) {
    PP.Inv(setup.hash, m.server) && TokenSide(setup, m) && EntrySide(setup, m)
  }

  // --- Events at the server ---

  // A server that moved on without taking back any grant.
  ghost predicate Extends(s: P.Server, s': P.Server) {
    (forall c :: c in s.redeemed ==> c in s'.redeemed && s'.redeemed[c] == s.redeemed[c]) &&
    (forall n :: n in s.granted ==> n in s'.granted && s'.granted[n] == s.granted[n]) &&
    (forall n :: n in s.registrations ==>
       n in s'.registrations && s'.registrations[n].agentFP == s.registrations[n].agentFP)
  }

  lemma ValidateExtends(hash: string -> string, s: P.Server, c: string, fp: string, draw: P.Draw, db: P.Database)
    requires PP.CodesAccounted(s.issued, s.cache, s.redeemed.Keys, s.lost, s.now) && P.FreshDraw(s, draw)
    ensures Extends(s, P.Validate(hash, s, c, fp, draw, db).0)
  {
  }

  lemma HappenExtends(hash: string -> string, s: P.Server, e: PP.Event)
    requires PP.CodesAccounted(s.issued, s.cache, s.redeemed.Keys, s.lost, s.now)
    ensures Extends(s, PP.Happen(hash, s, e))
  {
    match e {
      case Redeem(c, fp, draw, db) =>
        if P.FreshDraw(s, draw) {
          ValidateExtends(hash, s, c, fp, draw, db);
        }
      case _ =>
    }
  }

  lemma ExtendKeepsTokens(setup: Setup, s: P.Server, s': P.Server, d: Disk, codeOf: Codes, lost: set<string>)
    requires Extends(s, s') && Backed(setup, s, d, codeOf, lost) && CodesApart(setup.ours, codeOf, s.redeemed)
    ensures Backed(setup, s', d, codeOf, lost) && CodesApart(setup.ours, codeOf, s'.redeemed)
  {
  }

  lemma ExtendKeepsNames(ours: set<string>, s: P.Server, s': P.Server, sites: Sites, codeOf: Codes, stale: set<string>)
    requires Extends(s, s') && NamesRight(ours, s, sites, codeOf, stale)
    ensures NamesRight(ours, s', sites, codeOf, stale)
  {
    forall site | site in sites && site in ours
      ensures Names(s', codeOf, site, sites[site].agentRegistration, site in stale)
    {
      assert Names(s, codeOf, site, sites[site].agentRegistration, site in stale);
    }
  }

  lemma ExtendKeepsLinks(setup: Setup, s: P.Server, s': P.Server, st: Store, codeOf: Codes, linked: set<string>)
    requires Extends(s, s') && LinkedRight(setup, s, st, codeOf, linked)
    ensures LinkedRight(setup, s', st, codeOf, linked)
  {
    forall site | site in linked && site in setup.ours ensures Linked(setup.keychainUp, s', st.disk, codeOf, site) {
      assert Linked(setup.keychainUp, s, st.disk, codeOf, site);
    }
  }

  lemma ExtendKeepsSaved(ours: set<string>, s: P.Server, s': P.Server, sites: Sites, saved: Sites, codeOf: Codes,
          unsaved: set<string>)
    requires Extends(s, s') && AllSaved(ours, s, sites, saved, codeOf, unsaved)
    ensures AllSaved(ours, s', sites, saved, codeOf, unsaved)
  {
    forall site | site in sites && site in ours ensures SavedRight(s', sites, saved, codeOf, unsaved, site) {
      assert SavedRight(s, sites, saved, codeOf, unsaved, site);
    }
  }

  lemma ServerMovesOn(setup: Setup, m: Machines, s: P.Server)
    requires Coupled(setup, m) && Extends(m.server, s) && PP.Inv(setup.hash, s)
    ensures Coupled(setup, m.(server := s))
  {
    ExtendKeepsTokens(setup, m.server, s, m.store.disk, m.codeOf, m.lost);
    ExtendKeepsNames(setup.ours, m.server, s, m.store.sites, m.codeOf, m.stale);
    ExtendKeepsLinks(setup, m.server, s, m.store, m.codeOf, m.linked);
    ExtendKeepsSaved(setup.ours, m.server, s, m.store.sites, Saved(m.store.disk), m.codeOf, m.unsaved);
  }

  // --- One write of a secret ---

  /** How a write changes what is read: its own key, or everything if the file is cut short. */
  ghost predicate Writes(up: bool, d: Disk, d': Disk, key: string, secret: string) {
    d'.metaFile == d.metaFile &&
    forall k :: SecretAt(d', up, k) == if k == key then Some(secret) else SecretAt(d, up, k)
  }

  lemma PutWrites(up: bool, d: Disk, write: WriteResult, key: string, secret: string)
    requires up || write.Lands()
    ensures Writes(up, d, PutSecret(d, up, write, key, secret).0, key, secret)
  {
    forall k
      ensures SecretAt(PutSecret(d, up, write, key, secret).0, up, k) ==
              if k == key then Some(secret) else SecretAt(d, up, k)
    {
      PutThenRead(d, up, write, key, secret, k);
    }
  }

  lemma SameMetadata(d: Disk, d': Disk)
    requires d.metaFile == d'.metaFile
    ensures Saved(d) == Saved(d') && (Open(d).None? <==> Open(d').None?)
  {
  }

  lemma OwnKeysApart(u: string, v: string)
    requires Postable(u) && Postable(v)
    ensures u != HmacKey(v) && HmacKey(u) != v && (HmacKey(u) == HmacKey(v) <==> u == v)
  {
    PostableIsPlain(u);
    PostableIsPlain(v);
    PlainUrlsAreNoHmacKeys(u, v);
    PlainUrlsAreNoHmacKeys(v, u);
    HmacKeys(u, v);
  }

  // --- The token file cut short ---

  /** Without the file nothing is read, and everything there was is lost. */
  lemma TornKeeps(setup: Setup, m: Machines)
    requires !setup.keychainUp && TokenSide(setup, m) && EntrySide(setup, m)
    ensures var m' := TornTokens(m, m.store.disk.(tokenFile := Torn));
      TokenSide(setup, m') && EntrySide(setup, m')
  {
    var d := m.store.disk.(tokenFile := Torn);
    forall k ensures SecretAt(d, false, k).None? {
    }
    SameMetadata(m.store.disk, d);
  }

  // --- The token's write ---

  /** A code and the registration made for it that no URL and no entry of the server's knows yet. */
  ghost predicate New(setup: Setup, m: Machines, code: string, token: string) {
    Granted(m.server, code, token, setup.cfg.agentFP) &&
    (forall u :: u in m.codeOf && u in setup.ours ==> m.codeOf[u] != code) &&
    var name := m.server.redeemed[code].registration;
    (forall site :: site in m.store.sites && site in setup.ours ==> m.store.sites[site].agentRegistration != name) &&
    (forall site :: site in Saved(m.store.disk) && site in setup.ours ==>
                    Saved(m.store.disk)[site].agentRegistration != name)
  }

  lemma TokenHeldToo(up: bool, d: Disk, d': Disk, codeOf: Codes, lost: set<string>, url: string, code: string,
          token: string)
    requires Postable(url) && Writes(up, d, d', url, token)
    requires TokensHeld(up, d, codeOf, lost) && SecretsLost(up, d, codeOf, lost)
    requires forall u :: u in codeOf ==> Postable(u)
    ensures TokensHeld(up, d', codeOf[url := code], lost - {url})
    ensures SecretsLost(up, d', codeOf[url := code], lost - {url})
  {
    forall u | u in lost - {url} ensures SecretAt(d', up, HmacKey(u)).None? {
      OwnKeysApart(u, url);
    }
  }

  lemma TokenBacked(setup: Setup, s: P.Server, d: Disk, d': Disk, codeOf: Codes, lost: set<string>, url: string,
          code: string, token: string)
    requires Writes(setup.keychainUp, d, d', url, token) && Backed(setup, s, d, codeOf, lost)
    requires CodesApart(setup.ours, codeOf, s.redeemed)
    requires url in setup.ours ==>
      Granted(s, code, token, setup.cfg.agentFP) && forall u :: u in codeOf && u in setup.ours ==> codeOf[u] != code
    ensures Backed(setup, s, d', codeOf[url := code], lost - {url})
    ensures CodesApart(setup.ours, codeOf[url := code], s.redeemed)
  {
  }

  lemma TokenOutdates(ours: set<string>, s: P.Server, sites: Sites, codeOf: Codes, stale: set<string>, url: string,
          code: string)
    requires NamesRight(ours, s, sites, codeOf, stale)
    requires url in ours ==> code in s.redeemed
    requires url in ours ==>
      forall site :: site in sites && site in ours ==> sites[site].agentRegistration != s.redeemed[code].registration
    ensures NamesRight(ours, s, sites, codeOf[url := code], if url in sites then stale + {url} else stale)
  {
    var stale' := if url in sites then stale + {url} else stale;
    forall site | site in sites && site in ours
      ensures Names(s, codeOf[url := code], site, sites[site].agentRegistration, site in stale')
    {
      assert Names(s, codeOf, site, sites[site].agentRegistration, site in stale);
    }
  }

  lemma TokenUnlinks(setup: Setup, s: P.Server, st: Store, d': Disk, codeOf: Codes, linked: set<string>, url: string,
          code: string, token: string)
    requires Writes(setup.keychainUp, st.disk, d', url, token) && Postable(url)
    requires LinkedRight(setup, s, st, codeOf, linked) && forall u :: u in codeOf ==> Postable(u)
    ensures LinkedRight(setup, s, st.(disk := d'), codeOf[url := code], linked - {url})
  {
    forall site | site in linked - {url} && site in setup.ours
      ensures Linked(setup.keychainUp, s, d', codeOf[url := code], site)
    {
      assert Linked(setup.keychainUp, s, st.disk, codeOf, site);
      OwnKeysApart(site, url);
    }
  }

  lemma TokenSaved(ours: set<string>, s: P.Server, sites: Sites, saved: Sites, codeOf: Codes, unsaved: set<string>,
          url: string, code: string)
    requires AllSaved(ours, s, sites, saved, codeOf, unsaved)
    requires url in ours ==> code in s.redeemed
    requires url in ours ==>
      forall site :: site in saved && site in ours ==> saved[site].agentRegistration != s.redeemed[code].registration
    ensures AllSaved(ours, s, sites, saved, codeOf[url := code], unsaved)
  {
    forall site | site in sites && site in ours
      ensures SavedRight(s, sites, saved, codeOf[url := code], unsaved, site)
    {
      assert SavedRight(s, sites, saved, codeOf, unsaved, site);
    }
  }

  lemma TokenLandsKeeps(setup: Setup, m: Machines, url: string, code: string, token: string, write: WriteResult)
    requires TokenSide(setup, m) && EntrySide(setup, m) && Postable(url) && url in m.approved
    requires (setup.keychainUp || write.Lands()) && (url in setup.ours ==> New(setup, m, code, token))
    ensures var m' := TokenStage(setup, m, url, code, token, write); TokenSide(setup, m') && EntrySide(setup, m')
  {
    TokenLandsHeld(setup, m, url, code, token, write);
    TokenLandsEntries(setup, m, url, code, token, write);
  }

  lemma TokenLandsHeld(setup: Setup, m: Machines, url: string, code: string, token: string, write: WriteResult)
    requires TokenSide(setup, m) && Postable(url) && url in m.approved
    requires (setup.keychainUp || write.Lands()) && (url in setup.ours ==> New(setup, m, code, token))
    ensures TokenSide(setup, TokenStage(setup, m, url, code, token, write))
  {
    var d, d' := m.store.disk, PutSecret(m.store.disk, setup.keychainUp, write, url, token).0;
    PutWrites(setup.keychainUp, d, write, url, token);
    TokenHeldToo(setup.keychainUp, d, d', m.codeOf, m.lost, url, code, token);
    TokenBacked(setup, m.server, d, d', m.codeOf, m.lost, url, code, token);
  }

  lemma TokenLandsEntries(setup: Setup, m: Machines, url: string, code: string, token: string, write: WriteResult)
    requires EntrySide(setup, m) && Postable(url) && forall u :: u in m.codeOf ==> Postable(u)
    requires (setup.keychainUp || write.Lands()) && (url in setup.ours ==> New(setup, m, code, token))
    ensures EntrySide(setup, TokenStage(setup, m, url, code, token, write))
  {
    var d, d' := m.store.disk, PutSecret(m.store.disk, setup.keychainUp, write, url, token).0;
    PutWrites(setup.keychainUp, d, write, url, token);
    SameMetadata(d, d');
    TokenOutdates(setup.ours, m.server, m.store.sites, m.codeOf, m.stale, url, code);
    TokenUnlinks(setup, m.server, m.store, d', m.codeOf, m.linked, url, code, token);
    TokenSaved(setup.ours, m.server, m.store.sites, Saved(d), m.codeOf, m.unsaved, url, code);
  }

  lemma TokenStageKeeps(setup: Setup, m: Machines, url: string, code: string, token: string, write: WriteResult)
    requires TokenSide(setup, m) && EntrySide(setup, m) && Postable(url) && url in m.approved
    requires url in setup.ours ==> New(setup, m, code, token)
    ensures var m' := TokenStage(setup, m, url, code, token, write); TokenSide(setup, m') && EntrySide(setup, m')
  {
    if setup.keychainUp || write.Lands() {
      TokenLandsKeeps(setup, m, url, code, token, write);
    } else if write.CutShort? {
      TornKeeps(setup, m);
    }
  }

  // --- The entry's write ---

  // The entry about to go in names the registration made for the URL's code, which the metadata file does not know yet.
  ghost predicate Ready(setup: Setup, m: Machines, url: string, entry: PairedSite) {
    url in m.codeOf &&
    (url in setup.ours ==>
     Names(m.server, m.codeOf, url, entry.agentRegistration, false) &&
     forall site :: site in Saved(m.store.disk) && site in setup.ours ==>
                    Saved(m.store.disk)[site].agentRegistration != entry.agentRegistration)
  }

  lemma EntryPlaced(sites: Sites, dropped: set<string>, codeOf: Codes, approved: set<string>, url: string,
          entry: PairedSite)
    requires Placed(sites, dropped, codeOf, approved) && url in codeOf
    ensures Placed(sites[url := entry], dropped - {url}, codeOf, approved)
  {
    assert sites[url := entry].Keys == sites.Keys + {url};
  }

  lemma EntryNames(ours: set<string>, s: P.Server, sites: Sites, codeOf: Codes, stale: set<string>, url: string,
          entry: PairedSite)
    requires NamesRight(ours, s, sites, codeOf, stale)
    requires url in ours ==> Names(s, codeOf, url, entry.agentRegistration, false)
    ensures NamesRight(ours, s, sites[url := entry], codeOf, stale - {url})
  {
    forall site | site in sites[url := entry] && site in ours
      ensures Names(s, codeOf, site, sites[url := entry][site].agentRegistration, site in stale - {url})
    {
      if site != url {
        assert Names(s, codeOf, site, sites[site].agentRegistration, site in stale);
      }
    }
  }

  lemma EntrySaved(ours: set<string>, s: P.Server, sites: Sites, saved: Sites, codeOf: Codes, unsaved: set<string>,
          url: string, entry: PairedSite)
    requires AllSaved(ours, s, sites, saved, codeOf, unsaved)
    requires url in ours ==>
      Names(s, codeOf, url, entry.agentRegistration, false) &&
      (url in saved ==> url in sites && saved[url].agentRegistration in s.registrations &&
                        saved[url].agentRegistration != entry.agentRegistration)
    ensures AllSaved(ours, s, sites[url := entry], saved, codeOf, unsaved + {url})
  {
    forall site | site in sites[url := entry] && site in ours
      ensures SavedRight(s, sites[url := entry], saved, codeOf, unsaved + {url}, site)
    {
      if site != url {
        assert SavedRight(s, sites, saved, codeOf, unsaved, site);
      }
    }
  }

  // Every name in the metadata file is one the server has.
  lemma SavedNamesKnown(setup: Setup, m: Machines, site: string)
    requires EntrySide(setup, m) && site in setup.ours && site in Saved(m.store.disk)
    ensures site in m.store.sites && Saved(m.store.disk)[site].agentRegistration in m.server.registrations
  {
    assert SavedRight(m.server, m.store.sites, Saved(m.store.disk), m.codeOf, m.unsaved, site);
    assert Names(m.server, m.codeOf, site, m.store.sites[site].agentRegistration, site in m.stale);
  }

  lemma SaveReads(s: Store, up: bool, write: WriteResult)
    ensures forall k :: SecretAt(Save(s, write).disk, up, k) == SecretAt(s.disk, up, k)
    ensures Save(s, write).sites == s.sites
    ensures write.Refused? ==> Save(s, write).disk == s.disk
    ensures write.CutShort? ==> Open(Save(s, write).disk).None? && Saved(Save(s, write).disk) == map[]
    ensures write.Lands() ==> Open(Save(s, write).disk).Some? && Saved(Save(s, write).disk) == Serialised(s.sites)
  {
    assert Serialised(Serialised(s.sites)) == Serialised(s.sites);
  }

  lemma EntryKeepsTokens(setup: Setup, m: Machines, url: string, entry: PairedSite, write: WriteResult)
    requires TokenSide(setup, m) && url in m.codeOf
    ensures TokenSide(setup, EntryStage(m, url, entry, write))
  {
    SaveReads(Store(m.store.sites[url := entry], m.store.disk), setup.keychainUp, write);
    EntryPlaced(m.store.sites, m.dropped, m.codeOf, m.approved, url, entry);
  }

  lemma EntryKeepsLinks(setup: Setup, m: Machines, url: string, entry: PairedSite, write: WriteResult)
    requires LinkedRight(setup, m.server, m.store, m.codeOf, m.linked)
    ensures LinkedRight(setup, m.server, EntryStage(m, url, entry, write).store, m.codeOf, m.linked)
  {
    SaveReads(Store(m.store.sites[url := entry], m.store.disk), setup.keychainUp, write);
    forall site | site in m.linked && site in setup.ours
      ensures Linked(setup.keychainUp, m.server, EntryStage(m, url, entry, write).store.disk, m.codeOf, site)
    {
      assert Linked(setup.keychainUp, m.server, m.store.disk, m.codeOf, site);
    }
  }

  lemma EntryStageKeeps(setup: Setup, m: Machines, url: string, entry: PairedSite, write: WriteResult)
    requires TokenSide(setup, m) && EntrySide(setup, m) && Ready(setup, m, url, entry)
    ensures var m' := EntryStage(m, url, entry, write); TokenSide(setup, m') && EntrySide(setup, m')
  {
    var sites := m.store.sites[url := entry];
    EntryKeepsTokens(setup, m, url, entry, write);
    EntryKeepsLinks(setup, m, url, entry, write);
    EntryNames(setup.ours, m.server, m.store.sites, m.codeOf, m.stale, url, entry);
    SaveReads(Store(sites, m.store.disk), setup.keychainUp, write);
    if write.Refused? {
      if url in setup.ours && url in Saved(m.store.disk) {
        SavedNamesKnown(setup, m, url);
      }
      EntrySaved(setup.ours, m.server, m.store.sites, Saved(m.store.disk), m.codeOf, m.unsaved, url, entry);
    }
  }

  // --- The HMAC secret's write ---

  lemma SecretLinks(setup: Setup, s: P.Server, st: Store, d': Disk, codeOf: Codes, linked: set<string>, url: string,
          secret: string)
    requires Writes(setup.keychainUp, st.disk, d', HmacKey(url), secret) && Postable(url) && url in st.sites
    requires LinkedRight(setup, s, st, codeOf, linked) && secret != ""
    requires url in setup.ours ==>
      url in codeOf && codeOf[url] in s.redeemed && s.redeemed[codeOf[url]].secret == secret
    ensures LinkedRight(setup, s, st.(disk := d'), codeOf, linked + {url})
  {
    forall site | site in linked + {url} && site in setup.ours ensures Linked(setup.keychainUp, s, d', codeOf, site) {
      if site != url {
        assert Linked(setup.keychainUp, s, st.disk, codeOf, site);
        HmacKeys(site, url);
      }
    }
  }

  lemma SecretKeepsTokens(setup: Setup, m: Machines, d': Disk, url: string, secret: string)
    requires TokenSide(setup, m) && Writes(setup.keychainUp, m.store.disk, d', HmacKey(url), secret)
    requires Postable(url) && url !in m.lost
    ensures TokenSide(setup, m.(store := m.store.(disk := d')))
  {
    forall u | Postable(u) ensures u != HmacKey(url) {
      OwnKeysApart(u, url);
    }
    forall u | u in m.lost ensures HmacKey(u) != HmacKey(url) {
      HmacKeys(u, url);
    }
  }

  lemma SecretStageKeeps(setup: Setup, m: Machines, url: string, secret: string, write: WriteResult)
    requires TokenSide(setup, m) && EntrySide(setup, m) && Postable(url) && url in m.store.sites && url !in m.lost
    requires secret != ""
    requires url in setup.ours ==> url in m.codeOf && m.codeOf[url] in m.server.redeemed &&
                                   m.server.redeemed[m.codeOf[url]].secret == secret
    ensures var m' := SecretStage(setup, m, url, secret, write); TokenSide(setup, m') && EntrySide(setup, m')
  {
    if setup.keychainUp || write.Lands() {
      var d' := PutSecret(m.store.disk, setup.keychainUp, write, HmacKey(url), secret).0;
      PutWrites(setup.keychainUp, m.store.disk, write, HmacKey(url), secret);
      SameMetadata(m.store.disk, d');
      SecretKeepsTokens(setup, m, d', url, secret);
      SecretLinks(setup, m.server, m.store, d', m.codeOf, m.linked, url, secret);
    } else if write.CutShort? {
      TornKeeps(setup, m);
    }
  }

  // --- A pairing ---

  /** The answer a site of the server gives comes with a grant. */
  ghost predicate Genuine(setup: Setup, s: P.Server, code: string, answer: PairingReply) {
    answer.siteToken != "" && answer.hmacSecret != "" && Granted(s, code, answer.siteToken, setup.cfg.agentFP) &&
    s.redeemed[code].registration == answer.agentRegistration && s.redeemed[code].secret == answer.hmacSecret
  }

  lemma AnswersAreGenuine(setup: Setup, s: P.Server, code: string, network: Network, draw: P.Draw, db: P.Database)
    requires PP.CodesAccounted(s.issued, s.cache, s.redeemed.Keys, s.lost, s.now) && P.FreshDraw(s, draw)
    ensures var (s', answer) := ServerPart(setup, s, code, network, draw, db);
      answer.Some? ==> Genuine(setup, s', code, answer.value) && code !in s.redeemed &&
                       answer.value.agentRegistration !in s.registrations
  {
  }

  // The first two stages are AddSite, the third is SetHMACSecret.
  lemma StagesAreAddSite(setup: Setup, m: Machines, url: string, code: string, w: World, answer: PairingReply)
    requires answer.siteToken != ""
    ensures var site := PairedSite(url, answer.siteToken, w.pairedOn, answer.agentRegistration);
      var (s, ok) := AddSite(m.store, site, With(setup, w, Some(answer)).io);
      var m1 := TokenStage(setup, m, url, code, answer.siteToken, w.io.tokenWrite);
      if !Through(setup, w.io.tokenWrite).Done? then s == m1.store && !ok
      else
        s == EntryStage(m1, url, PairedSite(url, "", w.pairedOn, answer.agentRegistration), w.io.metaWrite).store &&
        ok == w.io.metaWrite.Done?
  {
  }

  lemma StageIsSetSecret(setup: Setup, m: Machines, url: string, secret: string, w: World, answer: Option<PairingReply>)
    requires secret != ""
    ensures SecretStage(setup, m, url, secret, w.io.hmacWrite).store ==
            SetHMACSecret(m.store, url, secret, With(setup, w, answer).io).0
  {
  }

  lemma ServedShape(setup: Setup, s: Store, r: Request, w: World, answer: PairingReply)
    requires ContactsSite(r, w) && answer.siteToken != ""
    ensures var io, url := With(setup, w, Some(answer)).io, r.pair.value.siteURL;
      var (s1, ok) := AddSite(s, PairedSite(url, answer.siteToken, w.pairedOn, answer.agentRegistration), io);
      Serves(setup, s, r, w, Some(answer)).agent.store ==
      if ok then SetHMACSecret(s1, url, answer.hmacSecret, io).0 else s1
  {
  }

  /** What the stages do to the store is what the served request does. */
  lemma StagesAreServed(setup: Setup, m: Machines, r: Request, w: World, answer: PairingReply)
    requires ContactsSite(r, w) && answer.siteToken != ""
    ensures PairStages(setup, m, r.pair.value.siteURL, r.pair.value.code, w, answer).store ==
            Serves(setup, m.store, r, w, Some(answer)).agent.store
  {
    var url, code := r.pair.value.siteURL, r.pair.value.code;
    ServedShape(setup, m.store, r, w, answer);
    StagesAreAddSite(setup, m, url, code, w, answer);
    if Through(setup, w.io.tokenWrite).Done? && w.io.metaWrite.Done? && answer.hmacSecret != "" {
      var m1 := TokenStage(setup, m, url, code, answer.siteToken, w.io.tokenWrite);
      var m2 := EntryStage(m1, url, PairedSite(url, "", w.pairedOn, answer.agentRegistration), w.io.metaWrite);
      StageIsSetSecret(setup, m2, url, answer.hmacSecret, w, Some(answer));
    }
  }

  lemma UnansweredPairing(setup: Setup, m: Machines, r: Request, w: World, answer: Option<PairingReply>)
    requires ContactsSite(r, w) && (answer.None? || answer.value.siteToken == "")
    ensures BridgePart(setup, m, r, w, answer) == m.(approved := m.approved + {r.pair.value.siteURL})
  {
  }

  lemma AnsweredPairing(setup: Setup, m: Machines, r: Request, w: World, answer: PairingReply)
    requires ContactsSite(r, w) && answer.siteToken != ""
    ensures var url := r.pair.value.siteURL;
      BridgePart(setup, m, r, w, Some(answer)) ==
      PairStages(setup, m.(approved := m.approved + {url}), url, r.pair.value.code, w, answer)
  {
    StagesAreServed(setup, m.(approved := m.approved + {r.pair.value.siteURL}), r, w, answer);
  }

  // A token that was taken is held, and the metadata file is as it was.
  lemma TokenStageDone(setup: Setup, m: Machines, url: string, code: string, token: string, write: WriteResult)
    requires Through(setup, write).Done?
    ensures var m' := TokenStage(setup, m, url, code, token, write);
      m'.codeOf == m.codeOf[url := code] && url !in m'.lost && m'.server == m.server &&
      m'.store.sites == m.store.sites && m'.approved == m.approved && Saved(m'.store.disk) == Saved(m.store.disk)
  {
    SameMetadata(m.store.disk, PutSecret(m.store.disk, setup.keychainUp, write, url, token).0);
  }

  lemma StagesKeep(setup: Setup, m: Machines, url: string, code: string, w: World, answer: PairingReply)
    requires TokenSide(setup, m) && EntrySide(setup, m) && Postable(url) && url in m.approved
    requires url in setup.ours ==> Genuine(setup, m.server, code, answer) && New(setup, m, code, answer.siteToken)
    ensures var m' := PairStages(setup, m, url, code, w, answer); TokenSide(setup, m') && EntrySide(setup, m')
  {
    var m1 := TokenStage(setup, m, url, code, answer.siteToken, w.io.tokenWrite);
    TokenStageKeeps(setup, m, url, code, answer.siteToken, w.io.tokenWrite);
    if Through(setup, w.io.tokenWrite).Done? {
      TokenStageDone(setup, m, url, code, answer.siteToken, w.io.tokenWrite);
      EntryAndSecretKeep(setup, m1, url, w, answer);
    }
  }

  lemma EntryAndSecretKeep(setup: Setup, m: Machines, url: string, w: World, answer: PairingReply)
    requires TokenSide(setup, m) && EntrySide(setup, m) && Postable(url) && url !in m.lost
    requires var entry := PairedSite(url, "", w.pairedOn, answer.agentRegistration); Ready(setup, m, url, entry)
    requires url in setup.ours ==>
      m.codeOf[url] in m.server.redeemed && m.server.redeemed[m.codeOf[url]].secret == answer.hmacSecret
    ensures var m1 := EntryStage(m, url, PairedSite(url, "", w.pairedOn, answer.agentRegistration), w.io.metaWrite);
      var m' := if !w.io.metaWrite.Done? || answer.hmacSecret == "" then m1
                else SecretStage(setup, m1, url, answer.hmacSecret, w.io.hmacWrite);
      TokenSide(setup, m') && EntrySide(setup, m')
  {
    var entry := PairedSite(url, "", w.pairedOn, answer.agentRegistration);
    var m1 := EntryStage(m, url, entry, w.io.metaWrite);
    EntryStageKeeps(setup, m, url, entry, w.io.metaWrite);
    if w.io.metaWrite.Done? && answer.hmacSecret != "" {
      SecretStageKeeps(setup, m1, url, answer.hmacSecret, w.io.hmacWrite);
    }
  }

  lemma ApprovalKeeps(setup: Setup, m: Machines, url: string)
    requires TokenSide(setup, m) && EntrySide(setup, m)
    ensures var m' := m.(approved := m.approved + {url}); TokenSide(setup, m') && EntrySide(setup, m')
  {
  }

  /**
   A pairing at the bridge, whatever its writes come to: with a site of the server
   after a genuine answer, or with any other site and any answer.
   */
  lemma BridgePartKeeps(setup: Setup, m: Machines, r: Request, w: World, answer: Option<PairingReply>)
    requires TokenSide(setup, m) && EntrySide(setup, m) && ContactsSite(r, w) && Postable(r.pair.value.siteURL)
    requires r.pair.value.siteURL in setup.ours && answer.Some? ==>
      Genuine(setup, m.server, r.pair.value.code, answer.value) &&
      New(setup, m, r.pair.value.code, answer.value.siteToken)
    ensures var m' := BridgePart(setup, m, r, w, answer);
      TokenSide(setup, m') && EntrySide(setup, m') && SameBeyond(m, m')
  {
    var url := r.pair.value.siteURL;
    ApprovalKeeps(setup, m, url);
    if answer.None? || answer.value.siteToken == "" {
      UnansweredPairing(setup, m, r, w, answer);
    } else {
      AnsweredPairing(setup, m, r, w, answer.value);
      StagesKeep(setup, m.(approved := m.approved + {url}), url, r.pair.value.code, w, answer.value);
      StagesTouchBridgeOnly(setup, m.(approved := m.approved + {url}), url, r.pair.value.code, w, answer.value);
    }
  }

  // The server, the ledger and the process are not the stages' business.
  predicate SameBeyond(m: Machines, m': Machines) {
    m'.server == m.server && m'.fate == m.fate && m'.running == m.running
  }

  lemma TokenStageBeyond(setup: Setup, m: Machines, url: string, code: string, token: string, write: WriteResult)
    ensures SameBeyond(m, TokenStage(setup, m, url, code, token, write))
  {
  }

  lemma EntryStageBeyond(m: Machines, url: string, entry: PairedSite, write: WriteResult)
    ensures SameBeyond(m, EntryStage(m, url, entry, write))
  {
  }

  lemma SecretStageBeyond(setup: Setup, m: Machines, url: string, secret: string, write: WriteResult)
    ensures SameBeyond(m, SecretStage(setup, m, url, secret, write))
  {
  }

  lemma StagesTouchBridgeOnly(setup: Setup, m: Machines, url: string, code: string, w: World, answer: PairingReply)
    ensures SameBeyond(m, PairStages(setup, m, url, code, w, answer))
  {
    var m1 := TokenStage(setup, m, url, code, answer.siteToken, w.io.tokenWrite);
    var entry := PairedSite(url, "", w.pairedOn, answer.agentRegistration);
    var m2 := EntryStage(m1, url, entry, w.io.metaWrite);
    TokenStageBeyond(setup, m, url, code, answer.siteToken, w.io.tokenWrite);
    EntryStageBeyond(m1, url, entry, w.io.metaWrite);
    SecretStageBeyond(setup, m2, url, answer.hmacSecret, w.io.hmacWrite);
  }

  // What is fresh for the server before a redemption is new to the bridge after it.
  lemma AnswerIsNew(setup: Setup, m: Machines, s: P.Server, code: string, answer: PairingReply)
    requires TokenSide(setup, m) && EntrySide(setup, m) && Genuine(setup, s, code, answer)
    requires code !in m.server.redeemed && answer.agentRegistration !in m.server.registrations
    ensures New(setup, m.(server := s), code, answer.siteToken)
  {
    forall site | site in m.store.sites && site in setup.ours
      ensures m.store.sites[site].agentRegistration != answer.agentRegistration
    {
      assert Names(m.server, m.codeOf, site, m.store.sites[site].agentRegistration, site in m.stale);
    }
    forall site | site in Saved(m.store.disk) && site in setup.ours
      ensures Saved(m.store.disk)[site].agentRegistration != answer.agentRegistration
    {
      SavedNamesKnown(setup, m, site);
    }
  }

  /** A pairing with a site of the server. */
  lemma OwnPairingKeeps(setup: Setup, m: Machines, r: Request, w: World, network: Network, draw: P.Draw, db: P.Database)
    requires Coupled(setup, m) && ContactsSite(r, w) && Postable(r.pair.value.siteURL) && P.FreshDraw(m.server, draw)
    ensures var (s, answer) := ServerPart(setup, m.server, r.pair.value.code, network, draw, db);
      Coupled(setup, BridgePart(setup, m.(server := s), r, w, answer))
  {
    var code := r.pair.value.code;
    var (s, answer) := ServerPart(setup, m.server, code, network, draw, db);
    ValidateExtends(setup.hash, m.server, code, setup.cfg.agentFP, draw, db);
    PP.RedeemKeepsInv(setup.hash, m.server, code, setup.cfg.agentFP, draw, db);
    AnswersAreGenuine(setup, m.server, code, network, draw, db);
    ServerMovesOn(setup, m, s);
    if answer.Some? {
      AnswerIsNew(setup, m, s, code, answer.value);
    }
    BridgePartKeeps(setup, m.(server := s), r, w, answer);
  }

  // --- A restart ---

  lemma ReopenKeepsTokens(setup: Setup, m: Machines)
    requires TokenSide(setup, m) && Open(m.store.disk).Some? && Saved(m.store.disk).Keys <= m.store.sites.Keys
    ensures TokenSide(setup, Reopen(m))
  {
  }

  lemma ReopenKeepsNames(setup: Setup, m: Machines)
    requires EntrySide(setup, m) && Open(m.store.disk).Some?
    ensures var m' := Reopen(m);
      NamesRight(setup.ours, m'.server, m'.store.sites, m'.codeOf, m'.stale)
  {
    var m' := Reopen(m);
    forall site | site in m'.store.sites && site in setup.ours
      ensures Names(m'.server, m'.codeOf, site, m'.store.sites[site].agentRegistration, site in m'.stale)
    {
      assert SavedRight(m.server, m.store.sites, Saved(m.store.disk), m.codeOf, m.unsaved, site);
      assert Names(m.server, m.codeOf, site, m.store.sites[site].agentRegistration, site in m.stale);
    }
  }

  lemma ReopenKeepsLinks(setup: Setup, m: Machines)
    requires LinkedRight(setup, m.server, m.store, m.codeOf, m.linked) && Open(m.store.disk).Some?
    ensures var m' := Reopen(m); LinkedRight(setup, m'.server, m'.store, m'.codeOf, m'.linked)
  {
    var m' := Reopen(m);
    forall site | site in m'.linked && site in setup.ours
      ensures Linked(setup.keychainUp, m'.server, m'.store.disk, m'.codeOf, site)
    {
      assert Linked(setup.keychainUp, m.server, m.store.disk, m.codeOf, site);
    }
  }

  lemma ReopenSaves(ours: set<string>, s: P.Server, saved: Sites, codeOf: Codes)
    ensures AllSaved(ours, s, saved, saved, codeOf, {})
  {
  }

  lemma ReopenKeepsEntries(setup: Setup, m: Machines)
    requires EntrySide(setup, m) && Open(m.store.disk).Some?
    ensures EntrySide(setup, Reopen(m))
  {
    ReopenKeepsNames(setup, m);
    ReopenKeepsLinks(setup, m);
    ReopenSaves(setup.ours, m.server, Saved(m.store.disk), m.codeOf);
  }

  /** A restart of the bridge. */
  lemma ReopenKeeps(setup: Setup, m: Machines)
    requires TokenSide(setup, m) && EntrySide(setup, m)
    ensures TokenSide(setup, Reopen(m)) && EntrySide(setup, Reopen(m)) && Reopen(m).server == m.server
  {
    if Open(m.store.disk).Some? {
      ReopenKeepsTokens(setup, m);
      ReopenKeepsEntries(setup, m);
    }
  }

  // --- Runs ---

  lemma PairingKeeps(setup: Setup, m: Machines, r: Request, w: World, network: Network, draw: P.Draw, db: P.Database)
    requires Coupled(setup, m)
    ensures Coupled(setup, Happen(setup, m, Pairing(r, w, network, draw, db)))
  {
    if m.running && ContactsSite(r, w) && Postable(r.pair.value.siteURL) {
      if r.pair.value.siteURL !in setup.ours {
        BridgePartKeeps(setup, m, r, w, w.pairing);
      } else if P.FreshDraw(m.server, draw) {
        OwnPairingKeeps(setup, m, r, w, network, draw, db);
      }
    }
  }

  lemma HappenKeepsCoupled(setup: Setup, m: Machines, e: Event)
    requires Coupled(setup, m)
    ensures Coupled(setup, Happen(setup, m, e))
  {
    match e {
      case AtServer(se) =>
        PP.HappenKeepsInv(setup.hash, m.server, se);
        HappenExtends(setup.hash, m.server, se);
        ServerMovesOn(setup, m, PP.Happen(setup.hash, m.server, se));
      case Restart =>
        ReopenKeeps(setup, m);
      case Pairing(r, w, network, draw, db) =>
        PairingKeeps(setup, m, r, w, network, draw, db);
    }
  }

  lemma {:induction false} RunKeepsCoupled(setup: Setup, m: Machines, events: seq<Event>)
    requires Coupled(setup, m)
    ensures Coupled(setup, System.Run(setup, m, events))
    decreases |events|
  {
    if events == [] {
    } else {
      HappenKeepsCoupled(setup, m, events[0]);
      RunKeepsCoupled(setup, Happen(setup, m, events[0]), events[1..]);
    }
  }

  lemma StartCoupled(setup: Setup)
    ensures Coupled(setup, START)
  {
    PP.NewServerInv(setup.hash);
  }

  lemma ReachableCoupled(setup: Setup, events: seq<Event>)
    ensures Coupled(setup, System.Run(setup, START, events))
  {
    StartCoupled(setup);
    RunKeepsCoupled(setup, START, events);
  }
}
