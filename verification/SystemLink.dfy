/** When a site becomes linked, and when it no longer is. */
module SystemLink {
  import opened Common
  import opened KeystoreSpec
  import opened BridgeSpec
  import opened System
  import opened SystemHistory
  import opened SystemLedger
  import opened SystemProofs
  import P = PairingSpec
  import PP = PairingProofs
  import Pkcs11

  /**
   The linked sites after any event: a pairing adds its site when its secret lands, takes
   it out when only its token does, and takes out all sites when it cuts the token file
   short; a restart leaves those whose entry was saved; nothing else changes them.
   */
  lemma LinkedExactly(setup: Setup, m: Machines, e: Event)
    requires Coupled(setup, m)
    ensures Happen(setup, m, e).linked ==
            if e.Restart? && m.running && Open(m.store.disk).Some? then m.linked * Saved(m.store.disk).Keys
            else if !Pairs(setup, m, e) then m.linked
            else if CutsTokens(setup, e.w, AnswerIn(setup, m, e)) then {}
            else if SecretLanded(setup, e.w, AnswerIn(setup, m, e)) then m.linked + {e.r.pair.value.siteURL}
            else if Landed(setup, e.w, AnswerIn(setup, m, e)) then m.linked - {e.r.pair.value.siteURL}
            else m.linked
  {
    if Pairs(setup, m, e) {
      PairingMoves(setup, m, e);
    }
  }

  /** All goes well at the bridge: token, metadata and secret are written. */
  predicate WritesLand(setup: Setup, w: World) {
    Through(setup, w.io.tokenWrite).Done? && w.io.metaWrite.Done? && Through(setup, w.io.hmacWrite).Lands()
  }

  lemma AnswerHasSecret(setup: Setup, m: Machines, e: Event)
    requires Coupled(setup, m) && Pairs(setup, m, e) && Redeems(setup, m, e)
    ensures var answer, s := AnswerIn(setup, m, e), AtPairing(setup, m, e).server;
      (answer.Some? ==> answer.value.siteToken != "" && answer.value.hmacSecret != "") &&
      s.redeemed[e.r.pair.value.code].epoch == m.server.epoch == s.epoch
  {
    AnswersAreGenuine(setup, m.server, e.r.pair.value.code, e.network, e.draw, e.db);
  }

  /**
   A pairing in which the server redeems a code links its site under that code exactly
   when the reply is delivered, the database commits and all three writes land; and the
   secret is then the server's current one.
   */
  lemma PairingLinksExactly(setup: Setup, m: Machines, e: Event)
    requires Coupled(setup, m) && Balanced(setup, m) && Pairs(setup, m, e) && Redeems(setup, m, e)
    ensures var m', url, code := Happen(setup, m, e), e.r.pair.value.siteURL, e.r.pair.value.code;
      (url in m'.linked && Lookup(m'.codeOf, url) == Some(code) <==>
       e.network.Delivered? && e.db.Commits? && WritesLand(setup, e.w)) &&
      (url in m'.linked && Lookup(m'.codeOf, url) == Some(code) ==> SecretUnchanged(m', url))
  {
    PairingMoves(setup, m, e);
    AnswerHasSecret(setup, m, e);
    LiveCodeIsNew(setup, m, e.r.pair.value.code);
    LinksByMoves(setup, m, After(setup, m, e), e.r.pair.value.siteURL, e.r.pair.value.code, e.w, AnswerIn(setup, m, e));
  }

  lemma LinksByMoves(setup: Setup, m: Machines, after: Machines, url: string, code: string, w: World,
                     answer: Option<PairingReply>)
    requires HistoryMoves(setup, m, after, url, code, w, answer)
    requires answer.Some? ==> answer.value.siteToken != "" && answer.value.hmacSecret != ""
    requires url in m.codeOf ==> m.codeOf[url] != code
    ensures url in after.linked && Lookup(after.codeOf, url) == Some(code) <==> answer.Some? && WritesLand(setup, w)
  {
  }

  // --- A linked site can be reached ---

  // A request of `site` to be paired with this code.
  function Ask(site: string, code: string): Request {
    Request(POST, PairPath, "", "", None, Some(PairRequest(code, site)))
  }

  const NO_TOKEN := Pkcs11.Oracle(None, None, Pkcs11.Incorrect, Pkcs11.Err(Pkcs11.Other))
  const SMOOTH := World(0, Io(true, Done, Done, Done), NO_TOKEN, true, None, "")

  function Link(site: string): seq<Event> {
    [AtServer(PP.Issue("c", "u", site)), Pairing(Ask(site, "c"), SMOOTH, Delivered, P.Draw("t", "n", "k"), P.Commits)]
  }

  lemma TwoEvents(setup: Setup, m: Machines, e: Event, f: Event)
    ensures System.Run(setup, m, [e, f]) == Happen(setup, Happen(setup, m, e), f)
  {
    assert [e, f][1..] == [f] && [f][1..] == [];
    assert System.Run(setup, Happen(setup, Happen(setup, m, e), f), []) == Happen(setup, Happen(setup, m, e), f);
  }

  lemma AfterIssue(setup: Setup, site: string)
    ensures var m := Happen(setup, START, Link(site)[0]);
      P.Live(m.server, "c") && P.FreshDraw(m.server, Link(site)[1].draw) && m.running
  {
  }

  lemma PostableIsNotEmpty(site: string)
    requires Postable(site)
    ensures site != "" && ContactsSite(Ask(site, "c"), SMOOTH)
  {
    PrefixChar(Upper(site), "HTTP:", 0);
    PrefixChar(Upper(site), "HTTPS:", 0);
  }

  lemma IssuedIsSound(setup: Setup, site: string)
    ensures var m := Happen(setup, START, Link(site)[0]); Coupled(setup, m) && Balanced(setup, m)
  {
    StartCoupled(setup);
    StartBalanced(setup);
    HappenKeepsCoupled(setup, START, Link(site)[0]);
    HappenBalances(setup, START, Link(site)[0]);
  }

  /** Every site of the server that can be posted to is linked by issuing a code and redeeming it. */
  lemma LinkedSiteReachable(setup: Setup, site: string)
    requires Postable(site) && site in setup.ours
    ensures var m := System.Run(setup, START, Link(site)); site in m.linked && SecretUnchanged(m, site)
  {
    TwoEvents(setup, START, Link(site)[0], Link(site)[1]);
    IssuedIsSound(setup, site);
    AfterIssue(setup, site);
    PostableIsNotEmpty(site);
    PairingLinksExactly(setup, Happen(setup, START, Link(site)[0]), Link(site)[1]);
  }
}
