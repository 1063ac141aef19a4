/** What follows from the coupling in every state the two machines reach. */
module SystemResults {
  import opened Common
  import opened KeystoreSpec
  import opened KeystoreProofs
  import opened BridgeSpec
  import opened System
  import opened SystemHistory
  import opened SystemProofs
  import P = PairingSpec
  import PP = PairingProofs

  // --- What one pairing does to the keystore ---

  /** Every key after a pairing: gone with the file, just written, or as it was. */
  lemma PairingReads(setup: Setup, s: Store, r: Request, w: World, answer: Option<PairingReply>, key: string)
    requires ContactsSite(r, w)
    ensures var s', url := Serves(setup, s, r, w, answer).agent.store, r.pair.value.siteURL;
      SecretAt(s'.disk, setup.keychainUp, key) ==
        if CutsTokens(setup, w, answer) then None
        else if SecretLanded(setup, w, answer) && key == HmacKey(url) then Some(answer.value.hmacSecret)
        else if Landed(setup, w, answer) && key == url then Some(answer.value.siteToken)
        else SecretAt(s.disk, setup.keychainUp, key)
  {
    if Answered(answer) {
      var url, up := r.pair.value.siteURL, setup.keychainUp;
      HmacKeys(url, url);
      ServedShape(setup, s, r, w, answer.value);
      PutThenRead(s.disk, up, w.io.tokenWrite, url, answer.value.siteToken, key);
      if SecretSent(setup, w, answer) {
        var site := PairedSite(url, answer.value.siteToken, w.pairedOn, answer.value.agentRegistration);
        var s1 := AddSite(s, site, With(setup, w, answer).io).0;
        PutThenRead(s1.disk, up, w.io.hmacWrite, HmacKey(url), answer.value.hmacSecret, key);
      }
    }
  }

  /** A pairing leaves its own site its entry, its token and its secret, exactly as far as its writes went. */
  lemma PairingEffect(setup: Setup, s: Store, r: Request, w: World, answer: Option<PairingReply>)
    requires ContactsSite(r, w)
    ensures var s', url, up := Serves(setup, s, r, w, answer).agent.store, r.pair.value.siteURL,
      setup.keychainUp;
      (s'.sites == if Entered(setup, w, answer) then
                     s.sites[url := PairedSite(url, "", w.pairedOn, answer.value.agentRegistration)] else s.sites) &&
      (!CutsTokens(setup, w, answer) && Answered(answer) && (up || w.io.tokenWrite.Lands()) ==>
       SecretAt(s'.disk, up, url) == Some(answer.value.siteToken)) &&
      (!CutsTokens(setup, w, answer) && SecretSent(setup, w, answer) && (up || w.io.hmacWrite.Lands()) ==>
       SecretAt(s'.disk, up, HmacKey(url)) == Some(answer.value.hmacSecret))
  {
    var url := r.pair.value.siteURL;
    HmacKeys(url, url);
    PairingReads(setup, s, r, w, answer, url);
    PairingReads(setup, s, r, w, answer, HmacKey(url));
    if Answered(answer) {
      ServedShape(setup, s, r, w, answer.value);
    }
  }

  /**
   Another site keeps its entry always, and its token and secret exactly unless the
   token file held one and is cut short.
   */
  lemma OthersKeptExactly(setup: Setup, s: Store, r: Request, w: World, answer: Option<PairingReply>, site: string)
    requires ContactsSite(r, w) && Postable(r.pair.value.siteURL) && Postable(site) && site != r.pair.value.siteURL
    ensures var s' := Serves(setup, s, r, w, answer).agent.store;
      Lookup(s'.sites, site) == Lookup(s.sites, site) &&
      (SecretAt(s'.disk, setup.keychainUp, site) == SecretAt(s.disk, setup.keychainUp, site) &&
       SecretAt(s'.disk, setup.keychainUp, HmacKey(site)) == SecretAt(s.disk, setup.keychainUp, HmacKey(site)) <==>
       (CutsTokens(setup, w, answer) ==>
        site !in LoadTokens(s.disk) && HmacKey(site) !in LoadTokens(s.disk)))
  {
    OwnKeysApart(site, r.pair.value.siteURL);
    PairingReads(setup, s, r, w, answer, site);
    PairingReads(setup, s, r, w, answer, HmacKey(site));
    PairingEffect(setup, s, r, w, answer);
  }

  // --- Paired sites ---

  /**
   A site's token verifies, at the server, to this registration and nothing else while
   that is active, and to nothing afterwards.
   */
  ghost predicate VerifiesTo(setup: Setup, m: Machines, site: string, name: string) {
    name in m.server.registrations &&
    var token, verified := Token(m.store, setup.keychainUp, site),
                           if m.server.registrations[name].active then Some(name) else None;
    token.Some? &&
    forall answer :: P.MayVerify(setup.hash, m.server, token.value, setup.cfg.agentFP, answer) <==> answer == verified
  }

  lemma GrantedVerifies(setup: Setup, m: Machines, site: string, code: string)
    requires PP.Injective(setup.hash) && PP.TokensDistinct(setup.hash, m.server.registrations, m.server.granted)
    requires Token(m.store, setup.keychainUp, site).Some?
    requires Granted(m.server, code, Token(m.store, setup.keychainUp, site).value, setup.cfg.agentFP)
    ensures VerifiesTo(setup, m, site, m.server.redeemed[code].registration)
  {
    var name, token := m.server.redeemed[code].registration, Token(m.store, setup.keychainUp, site).value;
    forall answer
      ensures P.MayVerify(setup.hash, m.server, token, setup.cfg.agentFP, answer) <==>
              answer == if m.server.registrations[name].active then Some(name) else None
    {
      PP.TokenVerifiesExactly(setup.hash, m.server, name, setup.cfg.agentFP, answer);
    }
  }

  /**
   In every state a run reaches, through lost messages, writes that fail in any way and
   restarts, each site of the server that the bridge is paired with was approved and
   redeemed its own code while that was live. The token the bridge holds for it verifies
   to exactly the registration made for that code, unless the token went with a token
   file cut short: then there is none, and no HMAC secret either. The bridge knows the
   registration by name, unless the entry is older than the token.
   */
  lemma PairedSitesVerify(setup: Setup, events: seq<Event>, site: string)
    requires PP.Injective(setup.hash)
    ensures var m := System.Run(setup, START, events);
      site in m.store.sites && site in setup.ours ==>
      site in m.approved && site in m.codeOf &&
      m.codeOf[site] in m.server.redeemed && m.codeOf[site] in m.server.issued &&
      var redemption, code := m.server.redeemed[m.codeOf[site]], m.server.issued[m.codeOf[site]];
      code.createdAt <= redemption.at < code.createdAt + 600 &&
      (site !in m.lost ==> VerifiesTo(setup, m, site, redemption.registration)) &&
      (site in m.lost ==>
       Token(m.store, setup.keychainUp, site).None? && HMACSecret(m.store, setup.keychainUp, site) == Some("")) &&
      (m.store.sites[site].agentRegistration == redemption.registration <==> site !in m.stale)
  {
    var m := System.Run(setup, START, events);
    ReachableCoupled(setup, events);
    if site in m.store.sites && site in setup.ours {
      assert Names(m.server, m.codeOf, site, m.store.sites[site].agentRegistration, site in m.stale);
      if site !in m.lost {
        GrantedVerifies(setup, m, site, m.codeOf[site]);
      } else {
        LostSite(setup, m, site);
      }
    }
  }

  lemma LostSite(setup: Setup, m: Machines, site: string)
    requires TokenSide(setup, m) && site in m.store.sites && site in m.lost
    ensures Token(m.store, setup.keychainUp, site).None? && HMACSecret(m.store, setup.keychainUp, site) == Some("")
  {
    assert site in m.codeOf && Postable(site);
    assert SecretAt(m.store.disk, setup.keychainUp, site).None?;
  }

  /**
   A pairing takes a token the bridge could read, its own site's or another's, out of the
   store exactly by cutting the token file short.
   */
  lemma PairingLosesExactly(setup: Setup, m: Machines, r: Request, w: World, answer: Option<PairingReply>, site: string)
    requires ContactsSite(r, w) && SecretAt(m.store.disk, setup.keychainUp, site).Some?
    ensures var after := BridgePart(setup, m, r, w, answer).store;
      SecretAt(after.disk, setup.keychainUp, site).None? <==> CutsTokens(setup, w, answer)
  {
    PairingReads(setup, m.store, r, w, answer, site);
  }

  predicate NeverCutsTokens(setup: Setup, e: Event) {
    e.Pairing? ==> setup.keychainUp || (!e.w.io.tokenWrite.CutShort? && !e.w.io.hmacWrite.CutShort?)
  }

  lemma NothingLostIn(setup: Setup, m: Machines, e: Event, url: string)
    requires NeverCutsTokens(setup, e) && SecretAt(m.store.disk, setup.keychainUp, url).Some?
    ensures SecretAt(Happen(setup, m, e).store.disk, setup.keychainUp, url).Some?
  {
    if Pairs(setup, m, e) {
      EffectivePairing(setup, m, e);
      PairingLosesExactly(setup, AtPairing(setup, m, e), e.r, e.w, AnswerIn(setup, m, e), url);
    } else {
      assert Happen(setup, m, e).store.disk == m.store.disk;
    }
  }

  /**
   Over a run without such a write, every token and secret the bridge could read stays
   readable; with the keychain up there is no such write.
   */
  lemma {:induction false} NothingLostOver(setup: Setup, m: Machines, events: seq<Event>, url: string)
    requires forall e :: e in events ==> NeverCutsTokens(setup, e)
    requires SecretAt(m.store.disk, setup.keychainUp, url).Some?
    ensures SecretAt(System.Run(setup, m, events).store.disk, setup.keychainUp, url).Some?
    decreases |events|
  {
    if events == [] {
    } else {
      assert events[0] in events && forall e :: e in events[1..] ==> e in events;
      NothingLostIn(setup, m, events[0], url);
      NothingLostOver(setup, Happen(setup, m, events[0]), events[1..], url);
    }
  }

  predicate AlwaysSaves(setup: Setup, e: Event) {
    e.Pairing? ==> e.w.io.metaWrite.Lands() && (setup.keychainUp || !e.w.io.tokenWrite.Unconfirmed?)
  }

  // Memory and metadata file hold the same sites, and apart from `url` every entry is its token's own.
  ghost predicate InStep(m: Machines, url: set<string>) {
    m.unsaved == {} && m.stale <= url && m.dropped <= url && !m.metaTorn && m.running &&
    m.store.sites.Keys == Saved(m.store.disk).Keys
  }

  lemma TokenStageInStep(setup: Setup, m: Machines, url: string, code: string, token: string, write: WriteResult)
    requires InStep(m, {}) && (setup.keychainUp || !write.Unconfirmed?)
    ensures InStep(TokenStage(setup, m, url, code, token, write), if Through(setup, write).Done? then {url} else {})
  {
    SameMetadata(m.store.disk, PutSecret(m.store.disk, setup.keychainUp, write, url, token).0);
  }

  lemma EntryStageInStep(setup: Setup, m: Machines, url: string, entry: PairedSite, write: WriteResult)
    requires InStep(m, {url}) && write.Lands()
    ensures InStep(EntryStage(m, url, entry, write), {})
  {
    SaveReads(Store(m.store.sites[url := entry], m.store.disk), setup.keychainUp, write);
  }

  lemma SecretStageInStep(setup: Setup, m: Machines, url: string, secret: string, write: WriteResult)
    requires InStep(m, {})
    ensures InStep(SecretStage(setup, m, url, secret, write), {})
  {
    SameMetadata(m.store.disk, PutSecret(m.store.disk, setup.keychainUp, write, HmacKey(url), secret).0);
  }

  lemma StagesInStep(setup: Setup, m: Machines, url: string, code: string, w: World, answer: PairingReply)
    requires InStep(m, {}) && w.io.metaWrite.Lands() && (setup.keychainUp || !w.io.tokenWrite.Unconfirmed?)
    ensures InStep(PairStages(setup, m, url, code, w, answer), {})
  {
    var m1 := TokenStage(setup, m, url, code, answer.siteToken, w.io.tokenWrite);
    var entry := PairedSite(url, "", w.pairedOn, answer.agentRegistration);
    TokenStageInStep(setup, m, url, code, answer.siteToken, w.io.tokenWrite);
    if Through(setup, w.io.tokenWrite).Done? {
      EntryStageInStep(setup, m1, url, entry, w.io.metaWrite);
      SecretStageInStep(setup, EntryStage(m1, url, entry, w.io.metaWrite), url, answer.hmacSecret, w.io.hmacWrite);
    }
  }

  lemma PairingInStep(setup: Setup, m: Machines, r: Request, w: World, answer: Option<PairingReply>)
    requires InStep(m, {}) && ContactsSite(r, w)
    requires w.io.metaWrite.Lands() && (setup.keychainUp || !w.io.tokenWrite.Unconfirmed?)
    ensures InStep(BridgePart(setup, m, r, w, answer), {})
  {
    if !Answered(answer) {
      UnansweredPairing(setup, m, r, w, answer);
    } else {
      AnsweredPairing(setup, m, r, w, answer.value);
      var url := r.pair.value.siteURL;
      StagesInStep(setup, m.(approved := m.approved + {url}), url, r.pair.value.code, w, answer.value);
    }
  }

  lemma ReopenInStep(m: Machines)
    requires InStep(m, {}) && Open(m.store.disk).Some?
    ensures InStep(Reopen(m), {})
  {
    assert m.dropped + (m.store.sites.Keys - Saved(m.store.disk).Keys) == {};
  }

  // The server and the ledger do not matter.
  lemma BesideInStep(m: Machines, s: P.Server, fate: map<string, Fate>)
    requires InStep(m, {})
    ensures InStep(m.(server := s), {}) && InStep(m.(fate := fate), {}) && InStep(m.(server := s, fate := fate), {})
  {
  }

  lemma PairingEventInStep(setup: Setup, m: Machines, r: Request, w: World, network: Network, draw: P.Draw,
          db: P.Database)
    requires InStep(m, {}) && AlwaysSaves(setup, Pairing(r, w, network, draw, db))
    ensures InStep(Happen(setup, m, Pairing(r, w, network, draw, db)), {})
  {
    if ContactsSite(r, w) {
      var (s, answer) := ServerPart(setup, m.server, r.pair.value.code, network, draw, db);
      var foreign, own := BridgePart(setup, m, r, w, w.pairing), BridgePart(setup, m.(server := s), r, w, answer);
      PairingInStep(setup, m, r, w, w.pairing);
      BesideInStep(m, s, m.fate);
      PairingInStep(setup, m.(server := s), r, w, answer);
      BesideInStep(foreign, foreign.server, Record(setup, m, foreign).fate);
      BesideInStep(own, own.server, Record(setup, m, own).fate);
    }
  }

  lemma EventInStep(setup: Setup, m: Machines, e: Event)
    requires Coupled(setup, m) && InStep(m, {}) && AlwaysSaves(setup, e)
    ensures InStep(Happen(setup, m, e), {})
  {
    match e {
      case AtServer(se) => BesideInStep(m, AtTheServer(setup, m, se).server, AtTheServer(setup, m, se).fate);
      case Restart => ReopenInStep(m);
      case Pairing(r, w, network, draw, db) => PairingEventInStep(setup, m, r, w, network, draw, db);
    }
  }

  lemma {:induction false} RunInStep(setup: Setup, m: Machines, events: seq<Event>)
    requires Coupled(setup, m) && InStep(m, {}) && forall e :: e in events ==> AlwaysSaves(setup, e)
    ensures InStep(System.Run(setup, m, events), {})
    decreases |events|
  {
    if events == [] {
    } else {
      assert events[0] in events && forall e :: e in events[1..] ==> e in events;
      HappenKeepsCoupled(setup, m, events[0]);
      EventInStep(setup, m, events[0]);
      RunInStep(setup, Happen(setup, m, events[0]), events[1..]);
    }
  }

  /**
   Where every save reaches the file, and no token is stored under an error, every entry
   of the server's names the registration behind its token, no token is without its
   entry, and no restart has failed or would.
   */
  lemma SavedRunsAreNeverStale(setup: Setup, events: seq<Event>, site: string)
    requires forall e :: e in events ==> AlwaysSaves(setup, e)
    ensures var m := System.Run(setup, START, events);
      m.running && Open(m.store.disk).Some? &&
      (site in m.store.sites && site in setup.ours ==>
       site in m.codeOf && m.codeOf[site] in m.server.redeemed &&
       m.store.sites[site].agentRegistration == m.server.redeemed[m.codeOf[site]].registration) &&
      (Postable(site) && SecretAt(m.store.disk, setup.keychainUp, site).Some? ==> site in m.store.sites)
  {
    StartCoupled(setup);
    RunInStep(setup, START, events);
    ReachableCoupled(setup, events);
    if Postable(site) {
      OrphansExactly(setup, events, site);
    }
  }

  /** How an event's write of the metadata ends, if it gets that far. */
  function SaveIn(setup: Setup, m: Machines, e: Event): Option<WriteResult> {
    if Pairs(setup, m, e) && Entered(setup, e.w, AnswerIn(setup, m, e)) then Some(e.w.io.metaWrite) else None
  }

  /** How the last write of the metadata ended that was not refused, `last` if there was none. */
  function LastSave(setup: Setup, m: Machines, events: seq<Event>, last: WriteResult): WriteResult
    decreases |events|
  {
    if events == [] then last
    else
      var save := SaveIn(setup, m, events[0]);
      var next := if save.Some? && !save.value.Refused? then save.value else last;
      LastSave(setup, Happen(setup, m, events[0]), events[1..], next)
  }

  lemma TornByEvent(setup: Setup, m: Machines, e: Event)
    ensures var save := SaveIn(setup, m, e);
      Happen(setup, m, e).metaTorn <==> if save.Some? && !save.value.Refused? then save.value.CutShort? else m.metaTorn
  {
    if Pairs(setup, m, e) {
      EffectivePairing(setup, m, e);
      PairingHistory(setup, AtPairing(setup, m, e), e.r, e.w, AnswerIn(setup, m, e));
    }
  }

  lemma {:induction false} TornByRun(setup: Setup, m: Machines, events: seq<Event>, last: WriteResult)
    requires m.metaTorn <==> last.CutShort?
    ensures System.Run(setup, m, events).metaTorn <==> LastSave(setup, m, events, last).CutShort?
    decreases |events|
  {
    if events == [] {
    } else {
      var save := SaveIn(setup, m, events[0]);
      TornByEvent(setup, m, events[0]);
      var next := if save.Some? && !save.value.Refused? then save.value else last;
      TornByRun(setup, Happen(setup, m, events[0]), events[1..], next);
    }
  }

  /**
   In every reachable state the metadata does not open exactly when the run's last write
   of it that was not refused was cut short; and exactly then a restart ends the bridge.
   */
  lemma RestartFailsExactly(setup: Setup, events: seq<Event>)
    ensures var m, torn := System.Run(setup, START, events), LastSave(setup, START, events, Done).CutShort?;
      (Open(m.store.disk).None? <==> torn) && (Happen(setup, m, System.Restart).running <==> m.running && !torn)
  {
    ReachableCoupled(setup, events);
    TornByRun(setup, START, events, Done);
  }

  /** A bridge that has ended stays so, with its store as it was. */
  lemma {:induction false} EndedStays(setup: Setup, m: Machines, events: seq<Event>)
    requires !m.running
    ensures var m' := System.Run(setup, m, events); !m'.running && m'.store == m.store
    decreases |events|
  {
    if events == [] {
    } else {
      EndedStays(setup, Happen(setup, m, events[0]), events[1..]);
    }
  }

  // --- Tokens without an entry ---

  /**
   In every reachable state the bridge holds a token under a URL without being paired
   there exactly when the entry was dropped, by a write that stored the token and
   reported an error or by a restart after a save that failed, and the token was not
   lost since; and every token under a URL of the server, paired or not, was granted by
   the server for a code the approved URL redeemed.
   */
  lemma OrphansExactly(setup: Setup, events: seq<Event>, url: string)
    requires Postable(url)
    ensures var m := System.Run(setup, START, events);
      var token := SecretAt(m.store.disk, setup.keychainUp, url);
      (url !in m.store.sites && token.Some? <==> url in m.dropped && url !in m.lost) &&
      (token.Some? ==> url in m.approved && url in m.codeOf) &&
      (token.Some? && url in setup.ours ==> Granted(m.server, m.codeOf[url], token.value, setup.cfg.agentFP))
  {
    var m := System.Run(setup, START, events);
    ReachableCoupled(setup, events);
    assert SecretAt(m.store.disk, setup.keychainUp, url).Some? <==> url in m.codeOf && url !in m.lost;
    assert url in m.codeOf <==> url in m.store.sites.Keys + m.dropped;
  }

  // --- The shared secret ---

  /** The bridge's HMAC secret for a linked site is the server's own, until an administrator changes that. */
  lemma LinkedSecretIsCurrent(setup: Setup, events: seq<Event>, site: string)
    ensures var m := System.Run(setup, START, events);
      site in m.linked && site in setup.ours ==>
      site in m.store.sites && site in m.codeOf && m.codeOf[site] in m.server.redeemed &&
      var r := m.server.redeemed[m.codeOf[site]];
      HMACSecret(m.store, setup.keychainUp, site) == Some(r.secret) && r.secret != "" &&
      (r.epoch == m.server.epoch ==> m.server.secret == r.secret)
  {
    var m := System.Run(setup, START, events);
    ReachableCoupled(setup, events);
    if site in m.linked && site in setup.ours {
      assert Linked(setup.keychainUp, m.server, m.store.disk, m.codeOf, site);
    }
  }
}
