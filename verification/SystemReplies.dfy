/** What the bridge's page is told of a pairing, and how long that stays true. */
module SystemReplies {
  import opened Common
  import opened KeystoreSpec
  import opened KeystoreProofs
  import opened BridgeSpec
  import opened BridgeReplies
  import opened System
  import opened SystemHistory
  import opened SystemLedger
  import opened SystemProofs
  import opened SystemResults

  /** The reply to a pairing that takes place. */
  function ReplyIn(setup: Setup, m: Machines, e: Event): Reply
    requires Pairs(setup, m, e)
  {
    Serves(setup, m.store, e.r, e.w, AnswerIn(setup, m, e)).reply
  }

  /**
   The page is told that it is paired exactly when an answer with a token arrives and
   token and entry are stored; for a site of the server that answer arrives exactly when
   the server redeems the code, the database commits and neither message is lost.
   */
  lemma PairedExactly(setup: Setup, m: Machines, e: Event)
    requires Coupled(setup, m) && Pairs(setup, m, e)
    ensures ReplyIn(setup, m, e) == Paired(setup.cfg.agentFP) <==>
            Answered(AnswerIn(setup, m, e)) && Through(setup, e.w.io.tokenWrite).Done? && e.w.io.metaWrite.Done?
    ensures e.r.pair.value.siteURL in setup.ours ==>
              (Answered(AnswerIn(setup, m, e)) <==> Redeems(setup, m, e) && e.network.Delivered? && e.db.Commits?)
  {
    var answer := AnswerIn(setup, m, e);
    PairAnsweredExactly(setup.cfg, Idle(m.store), e.r, With(setup, e.w, answer));
    ServedRedeems(setup, m, e);
    if e.r.pair.value.siteURL in setup.ours {
      AnswersAreGenuine(setup, m.server, e.r.pair.value.code, e.network, e.draw, e.db);
    }
  }

  /** The site is listed, and a restart would find it too. */
  ghost predicate Listed(m: Machines, url: string) {
    url in m.store.sites && (Open(m.store.disk).Some? ==> url in Saved(m.store.disk))
  }

  lemma PairingLists(setup: Setup, m: Machines, r: Request, w: World, answer: Option<PairingReply>, url: string)
    requires ContactsSite(r, w)
    requires Listed(m, url) || (r.pair.value.siteURL == url && Entered(setup, w, answer) && w.io.metaWrite.Done?)
    ensures Listed(BridgePart(setup, m, r, w, answer), url)
  {
    if !Answered(answer) {
      UnansweredPairing(setup, m, r, w, answer);
    } else {
      var m0 := m.(approved := m.approved + {r.pair.value.siteURL});
      AnsweredPairing(setup, m, r, w, answer.value);
      StagesList(setup, m0, r.pair.value.siteURL, r.pair.value.code, w, answer.value, url);
    }
  }

  lemma TokenStageLists(setup: Setup, m: Machines, url: string, code: string, token: string, write: WriteResult)
    ensures var m' := TokenStage(setup, m, url, code, token, write);
      m'.store.sites == m.store.sites && forall u :: Listed(m', u) <==> Listed(m, u)
  {
    SameMetadata(m.store.disk, PutSecret(m.store.disk, setup.keychainUp, write, url, token).0);
  }

  lemma EntryStageLists(m: Machines, url: string, entry: PairedSite, write: WriteResult, u: string)
    requires Listed(m, u) || (u == url && write.Done?)
    ensures Listed(EntryStage(m, url, entry, write), u)
  {
    SaveReads(Store(m.store.sites[url := entry], m.store.disk), true, write);
  }

  lemma SecretStageLists(setup: Setup, m: Machines, url: string, secret: string, write: WriteResult, u: string)
    requires Listed(m, u)
    ensures Listed(SecretStage(setup, m, url, secret, write), u)
  {
    SameMetadata(m.store.disk, PutSecret(m.store.disk, setup.keychainUp, write, HmacKey(url), secret).0);
  }

  lemma StagesList(setup: Setup, m: Machines, url: string, code: string, w: World, answer: PairingReply, u: string)
    requires answer.siteToken != ""
    requires Listed(m, u) || (u == url && Entered(setup, w, Some(answer)) && w.io.metaWrite.Done?)
    ensures Listed(PairStages(setup, m, url, code, w, answer), u)
  {
    var m1 := TokenStage(setup, m, url, code, answer.siteToken, w.io.tokenWrite);
    var entry := PairedSite(url, "", w.pairedOn, answer.agentRegistration);
    TokenStageLists(setup, m, url, code, answer.siteToken, w.io.tokenWrite);
    if Through(setup, w.io.tokenWrite).Done? {
      EntryStageLists(m1, url, entry, w.io.metaWrite, u);
      SecretStageLists(setup, EntryStage(m1, url, entry, w.io.metaWrite), url, answer.hmacSecret, w.io.hmacWrite, u);
    }
  }

  lemma HappenLists(setup: Setup, m: Machines, e: Event, url: string)
    requires Listed(m, url)
    ensures Listed(Happen(setup, m, e), url)
  {
    if Pairs(setup, m, e) {
      EffectivePairing(setup, m, e);
      PairingLists(setup, AtPairing(setup, m, e), e.r, e.w, AnswerIn(setup, m, e), url);
    }
  }

  lemma {:induction false} RunLists(setup: Setup, m: Machines, events: seq<Event>, url: string)
    requires Listed(m, url)
    ensures Listed(System.Run(setup, m, events), url)
    decreases |events|
  {
    if events == [] {
    } else {
      HappenLists(setup, m, events[0], url);
      RunLists(setup, Happen(setup, m, events[0]), events[1..], url);
    }
  }

  // What the page was told holds when it is told.
  lemma PairedNow(setup: Setup, m: Machines, e: Event)
    requires Coupled(setup, m) && Pairs(setup, m, e) && ReplyIn(setup, m, e).Paired?
    ensures var m', url, answer := Happen(setup, m, e), e.r.pair.value.siteURL, AnswerIn(setup, m, e);
      answer.Some? && Listed(m', url) &&
      m'.store.sites[url] == PairedSite(url, "", e.w.pairedOn, answer.value.agentRegistration) &&
      SecretAt(m'.store.disk, setup.keychainUp, url) ==
        if CutsTokens(setup, e.w, answer) then None else Some(answer.value.siteToken)
  {
    var answer, at := AnswerIn(setup, m, e), AtPairing(setup, m, e);
    PairedExactly(setup, m, e);
    EffectivePairing(setup, m, e);
    PairingLists(setup, at, e.r, e.w, answer, e.r.pair.value.siteURL);
    PairingEffect(setup, at.store, e.r, e.w, answer);
    HmacKeys(e.r.pair.value.siteURL, e.r.pair.value.siteURL);
    PairingReads(setup, at.store, e.r, e.w, answer, e.r.pair.value.siteURL);
  }

  /**
   Once the page is told that its site is paired, the bridge lists the site for good,
   through every later event and restart; and as long as no write cuts the token file
   short, in that pairing or later, it has a token for it.
   */
  lemma PairedForGood(setup: Setup, before: seq<Event>, e: Event, after: seq<Event>)
    requires Pairs(setup, System.Run(setup, START, before), e)
    requires ReplyIn(setup, System.Run(setup, START, before), e).Paired?
    ensures var m, url := System.Run(setup, START, before), e.r.pair.value.siteURL;
      var now, later := Happen(setup, m, e), System.Run(setup, Happen(setup, m, e), after);
      SecretAt(now.store.disk, setup.keychainUp, url) ==
        (if CutsTokens(setup, e.w, AnswerIn(setup, m, e)) then None
         else Some(AnswerIn(setup, m, e).value.siteToken)) &&
      url in later.store.sites &&
      (!CutsTokens(setup, e.w, AnswerIn(setup, m, e)) && (forall f :: f in after ==> NeverCutsTokens(setup, f)) ==>
       Token(later.store, setup.keychainUp, url).Some?)
  {
    var m, url := System.Run(setup, START, before), e.r.pair.value.siteURL;
    ReachableCoupled(setup, before);
    PairedNow(setup, m, e);
    RunLists(setup, Happen(setup, m, e), after, url);
    if !CutsTokens(setup, e.w, AnswerIn(setup, m, e)) && forall f :: f in after ==> NeverCutsTokens(setup, f) {
      NothingLostOver(setup, Happen(setup, m, e), after, url);
    }
  }
}
