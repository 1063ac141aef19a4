/** What each pairing adds to the history of the runs, stated by how its writes ended. */
module SystemHistory {
  import opened Common
  import opened KeystoreSpec
  import opened BridgeSpec
  import opened System
  import opened SystemProofs

  lemma EffectivePairing(setup: Setup, m: Machines, e: Event)
    requires Pairs(setup, m, e)
    ensures Happen(setup, m, e) ==
            Record(setup, m, BridgePart(setup, AtPairing(setup, m, e), e.r, e.w, AnswerIn(setup, m, e)))
  {
  }

  lemma TokenStageHistory(setup: Setup, m: Machines, url: string, code: string, token: string, write: WriteResult)
    ensures var m1, through := TokenStage(setup, m, url, code, token, write), Through(setup, write);
      m1.codeOf == (if through.Lands() then m.codeOf[url := code] else m.codeOf) &&
      m1.lost == (if through.Lands() then m.lost - {url} else if through.CutShort? then m.codeOf.Keys else m.lost) &&
      m1.linked == (if through.Lands() then m.linked - {url} else if through.CutShort? then {} else m.linked) &&
      m1.stale == (if through.Lands() && url in m.store.sites then m.stale + {url} else m.stale) &&
      m1.dropped == (if through.Lands() && url !in m.store.sites then m.dropped + {url} else m.dropped) &&
      m1.metaTorn == m.metaTorn
  {
  }

  lemma EntryStageHistory(m: Machines, url: string, entry: PairedSite, write: WriteResult)
    ensures var m1 := EntryStage(m, url, entry, write);
      m1.codeOf == m.codeOf && m1.lost == m.lost && m1.linked == m.linked &&
      m1.stale == m.stale - {url} && m1.dropped == m.dropped - {url} &&
      m1.metaTorn == if write.Refused? then m.metaTorn else write.CutShort?
  {
  }

  lemma SecretStageHistory(setup: Setup, m: Machines, url: string, secret: string, write: WriteResult)
    ensures var m1, through := SecretStage(setup, m, url, secret, write), Through(setup, write);
      m1.codeOf == m.codeOf && m1.stale == m.stale && m1.dropped == m.dropped && m1.metaTorn == m.metaTorn &&
      m1.lost == (if through.CutShort? then m.codeOf.Keys else m.lost) &&
      m1.linked == (if through.Lands() then m.linked + {url} else if through.CutShort? then {} else m.linked)
  {
  }

  // What became of codes, tokens and links.
  ghost predicate TokensMove(setup: Setup, m: Machines, m': Machines, url: string, code: string, w: World,
                             answer: Option<PairingReply>)
  {
    m'.codeOf == (if Landed(setup, w, answer) then m.codeOf[url := code] else m.codeOf) &&
    m'.lost == (if CutsTokens(setup, w, answer) then m'.codeOf.Keys
                else if Landed(setup, w, answer) then m.lost - {url} else m.lost) &&
    m'.linked == (if CutsTokens(setup, w, answer) then {}
                  else if SecretLanded(setup, w, answer) then m.linked + {url}
                  else if Landed(setup, w, answer) then m.linked - {url} else m.linked)
  }

  // What became of entries and metadata.
  ghost predicate EntriesMove(setup: Setup, m: Machines, m': Machines, url: string, w: World,
                              answer: Option<PairingReply>)
  {
    m'.stale == (if Entered(setup, w, answer) then m.stale - {url}
                 else if Landed(setup, w, answer) && url in m.store.sites then m.stale + {url} else m.stale) &&
    m'.dropped == (if Entered(setup, w, answer) then m.dropped - {url}
                   else if Landed(setup, w, answer) && url !in m.store.sites then m.dropped + {url} else m.dropped) &&
    m'.metaTorn == (if Entered(setup, w, answer) && !w.io.metaWrite.Refused? then w.io.metaWrite.CutShort?
                    else m.metaTorn)
  }

  /** The history after a pairing with this answer is the history before, changed as far as its writes went. */
  ghost predicate HistoryMoves(setup: Setup, m: Machines, m': Machines, url: string, code: string, w: World,
                               answer: Option<PairingReply>)
  {
    TokensMove(setup, m, m', url, code, w, answer) && EntriesMove(setup, m, m', url, w, answer)
  }

  lemma StagesMoveTokens(setup: Setup, m: Machines, url: string, code: string, w: World, answer: PairingReply)
    requires answer.siteToken != ""
    ensures TokensMove(setup, m, PairStages(setup, m, url, code, w, answer), url, code, w, Some(answer))
  {
    var m1 := TokenStage(setup, m, url, code, answer.siteToken, w.io.tokenWrite);
    var entry := PairedSite(url, "", w.pairedOn, answer.agentRegistration);
    TokenStageHistory(setup, m, url, code, answer.siteToken, w.io.tokenWrite);
    EntryStageHistory(m1, url, entry, w.io.metaWrite);
    SecretStageHistory(setup, EntryStage(m1, url, entry, w.io.metaWrite), url, answer.hmacSecret, w.io.hmacWrite);
  }

  lemma StagesMoveEntries(setup: Setup, m: Machines, url: string, code: string, w: World, answer: PairingReply)
    requires answer.siteToken != ""
    ensures EntriesMove(setup, m, PairStages(setup, m, url, code, w, answer), url, w, Some(answer))
  {
    var m1 := TokenStage(setup, m, url, code, answer.siteToken, w.io.tokenWrite);
    var entry := PairedSite(url, "", w.pairedOn, answer.agentRegistration);
    TokenStageHistory(setup, m, url, code, answer.siteToken, w.io.tokenWrite);
    EntryStageHistory(m1, url, entry, w.io.metaWrite);
    SecretStageHistory(setup, EntryStage(m1, url, entry, w.io.metaWrite), url, answer.hmacSecret, w.io.hmacWrite);
  }

  lemma StagesHistory(setup: Setup, m: Machines, url: string, code: string, w: World, answer: PairingReply)
    requires answer.siteToken != ""
    ensures HistoryMoves(setup, m, PairStages(setup, m, url, code, w, answer), url, code, w, Some(answer))
  {
    StagesMoveTokens(setup, m, url, code, w, answer);
    StagesMoveEntries(setup, m, url, code, w, answer);
  }

  /** That is what the history of a served request comes to, and nothing else moves at the server. */
  lemma PairingHistory(setup: Setup, m: Machines, r: Request, w: World, answer: Option<PairingReply>)
    requires ContactsSite(r, w)
    ensures var m' := BridgePart(setup, m, r, w, answer);
      HistoryMoves(setup, m, m', r.pair.value.siteURL, r.pair.value.code, w, answer) && SameBeyond(m, m')
  {
    var url, code := r.pair.value.siteURL, r.pair.value.code;
    if !Answered(answer) {
      UnansweredPairing(setup, m, r, w, answer);
    } else {
      AnsweredPairing(setup, m, r, w, answer.value);
      StagesHistory(setup, m.(approved := m.approved + {url}), url, code, w, answer.value);
      StagesTouchBridgeOnly(setup, m.(approved := m.approved + {url}), url, code, w, answer.value);
    }
  }
  /** The user was asked about the URL and agreed. */
  predicate Agreed(e: Event, url: string) {
    e.Pairing? && e.r.pair.Some? && e.r.pair.value.siteURL == url && e.w.confirm
  }

  lemma StagesKeepApproved(setup: Setup, m: Machines, url: string, code: string, w: World, answer: PairingReply)
    ensures PairStages(setup, m, url, code, w, answer).approved == m.approved
  {
    var m1 := TokenStage(setup, m, url, code, answer.siteToken, w.io.tokenWrite);
    assert m1.approved == m.approved;
    assert EntryStage(m1, url, PairedSite(url, "", w.pairedOn, answer.agentRegistration), w.io.metaWrite).approved ==
           m.approved;
  }

  lemma PairingApproves(setup: Setup, m: Machines, r: Request, w: World, answer: Option<PairingReply>)
    requires ContactsSite(r, w)
    ensures BridgePart(setup, m, r, w, answer).approved == m.approved + {r.pair.value.siteURL}
  {
    var url := r.pair.value.siteURL;
    if !Answered(answer) {
      UnansweredPairing(setup, m, r, w, answer);
    } else {
      AnsweredPairing(setup, m, r, w, answer.value);
      StagesKeepApproved(setup, m.(approved := m.approved + {url}), url, r.pair.value.code, w, answer.value);
    }
  }

  lemma ApprovedByEvent(setup: Setup, m: Machines, e: Event, url: string)
    ensures url in Happen(setup, m, e).approved ==> url in m.approved || Agreed(e, url)
  {
    if Pairs(setup, m, e) {
      EffectivePairing(setup, m, e);
      PairingApproves(setup, AtPairing(setup, m, e), e.r, e.w, AnswerIn(setup, m, e));
    }
  }

  /** A URL counts as approved only if the user agreed to it in the run. */
  lemma {:induction false} ApprovedByUser(setup: Setup, m: Machines, events: seq<Event>, url: string)
    requires url in System.Run(setup, m, events).approved
    ensures url in m.approved || exists e :: e in events && Agreed(e, url)
    decreases |events|
  {
    if events == [] {
    } else {
      ApprovedByEvent(setup, m, events[0], url);
      ApprovedByUser(setup, Happen(setup, m, events[0]), events[1..], url);
      assert events[0] in events && forall e :: e in events[1..] ==> e in events;
    }
  }
}
