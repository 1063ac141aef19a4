/** The surplus: what became of every code the server redeemed, and so of every registration it has. */
module SystemLedger {
  import opened Common
  import opened BridgeSpec
  import opened System
  import opened SystemHistory
  import opened SystemProofs
  import P = PairingSpec
  import PP = PairingProofs

  /** Each redeemed code stands behind a token the bridge holds, or has its fate recorded. */
  ghost predicate Balanced(setup: Setup, m: Machines) {
    HeldCodes(setup, m) !! m.fate.Keys && HeldCodes(setup, m) + m.fate.Keys == m.server.redeemed.Keys
  }

  lemma HeldCodesDependOn(setup: Setup, m: Machines, m': Machines)
    requires m.codeOf == m'.codeOf && m.lost == m'.lost
    ensures HeldCodes(setup, m) == HeldCodes(setup, m')
  {
    assert HeldUrls(setup, m) == HeldUrls(setup, m');
  }

  lemma SetsBalance(held: set<string>, held': set<string>, fate: set<string>, redeemed: set<string>,
                    redeemed': set<string>)
    requires held !! fate && held + fate == redeemed && redeemed <= redeemed'
    requires held' <= held + (redeemed' - redeemed)
    ensures var fate' := fate + (held + (redeemed' - redeemed) - held'); held' !! fate' && held' + fate' == redeemed'
  {
  }

  lemma RecordBalances(setup: Setup, m: Machines, after: Machines)
    requires Balanced(setup, m) && m.server.redeemed.Keys <= after.server.redeemed.Keys
    requires HeldCodes(setup, after) <= HeldCodes(setup, m) + (after.server.redeemed.Keys - m.server.redeemed.Keys)
    ensures Balanced(setup, Record(setup, m, after))
  {
    HeldCodesDependOn(setup, after, Record(setup, m, after));
    var redeemed, redeemed' := m.server.redeemed.Keys, after.server.redeemed.Keys;
    SetsBalance(HeldCodes(setup, m), HeldCodes(setup, after), m.fate.Keys, redeemed, redeemed');
  }

  // A URL holds what it held, or it is the paired URL with the new code.
  lemma HeldCodesGrow(setup: Setup, m: Machines, m': Machines, url: string, code: string, w: World,
                      answer: Option<PairingReply>)
    requires HistoryMoves(setup, m, m', url, code, w, answer)
    ensures HeldCodes(setup, m') <= HeldCodes(setup, m) + (if url in setup.ours && answer.Some? then {code} else {})
  {
    forall c | c in HeldCodes(setup, m')
      ensures c in HeldCodes(setup, m) + (if url in setup.ours && answer.Some? then {code} else {})
    {
      var u :| u in HeldUrls(setup, m') && m'.codeOf[u] == c;
      if u != url || !Landed(setup, w, answer) {
        assert u in HeldUrls(setup, m);
      }
    }
  }

  // What one validation redeems.
  lemma ValidateRedeems(hash: string -> string, s: P.Server, code: string, fp: string, draw: P.Draw, db: P.Database)
    requires PP.CodesAccounted(s.issued, s.cache, s.redeemed.Keys, s.lost, s.now)
    ensures var (s', grant) := P.Validate(hash, s, code, fp, draw, db);
      s'.redeemed.Keys == s.redeemed.Keys + (if P.Live(s, code) && !db.InsertFails? then {code} else {}) &&
      (P.Live(s, code) ==> code !in s.redeemed) && (grant.Some? <==> P.Live(s, code) && db.Commits?)
  {
  }

  // The pairing makes the server redeem its code.
  predicate Redeems(setup: Setup, m: Machines, e: Event)
    requires e.Pairing? && e.r.pair.Some?
  {
    e.r.pair.value.siteURL in setup.ours && !e.network.RequestLost? && P.Live(m.server, e.r.pair.value.code) &&
    !e.db.InsertFails?
  }

  // The server's side of a pairing: it redeems that code and no other, and every answer comes with it.
  lemma ServedRedeems(setup: Setup, m: Machines, e: Event)
    requires Pairs(setup, m, e)
    requires PP.CodesAccounted(m.server.issued, m.server.cache, m.server.redeemed.Keys, m.server.lost, m.server.now)
    ensures var code := e.r.pair.value.code;
      AtPairing(setup, m, e).server.redeemed.Keys ==
        m.server.redeemed.Keys + (if Redeems(setup, m, e) then {code} else {}) &&
      (Redeems(setup, m, e) ==> code !in m.server.redeemed) &&
      (e.r.pair.value.siteURL in setup.ours ==>
       (AnswerIn(setup, m, e).Some? <==> Redeems(setup, m, e) && e.network.Delivered? && e.db.Commits?))
  {
    ValidateRedeems(setup.hash, m.server, e.r.pair.value.code, setup.cfg.agentFP, e.draw, e.db);
  }

  lemma PairingBalances(setup: Setup, m: Machines, e: Event)
    requires Balanced(setup, m) && Coupled(setup, m) && e.Pairing?
    ensures Balanced(setup, Happen(setup, m, e))
  {
    if Pairs(setup, m, e) {
      EffectBalances(setup, m, e);
    }
  }

  lemma EffectBalances(setup: Setup, m: Machines, e: Event)
    requires Balanced(setup, m) && Coupled(setup, m) && Pairs(setup, m, e)
    ensures Balanced(setup, Happen(setup, m, e))
  {
    var at, answer := AtPairing(setup, m, e), AnswerIn(setup, m, e);
    var after := BridgePart(setup, at, e.r, e.w, answer);
    EffectivePairing(setup, m, e);
    PairingHistory(setup, at, e.r, e.w, answer);
    ServedRedeems(setup, m, e);
    HeldCodesDependOn(setup, m, at);
    HeldCodesGrow(setup, at, after, e.r.pair.value.siteURL, e.r.pair.value.code, e.w, answer);
    RecordBalances(setup, m, after);
  }

  lemma NewCodesBalance(setup: Setup, m: Machines, s: P.Server)
    requires Balanced(setup, m) && Extends(m.server, s)
    ensures var fate := m.fate + map c | c in s.redeemed.Keys - m.server.redeemed.Keys :: Elsewhere;
      Balanced(setup, m.(server := s, fate := fate))
  {
    var m' := m.(server := s, fate := m.fate + map c | c in s.redeemed.Keys - m.server.redeemed.Keys :: Elsewhere);
    HeldCodesDependOn(setup, m, m');
    SetsBalance(HeldCodes(setup, m), HeldCodes(setup, m), m.fate.Keys, m.server.redeemed.Keys, s.redeemed.Keys);
  }

  lemma ServerEventBalances(setup: Setup, m: Machines, e: PP.Event)
    requires Balanced(setup, m) && Coupled(setup, m)
    ensures Balanced(setup, Happen(setup, m, AtServer(e)))
  {
    HappenExtends(setup.hash, m.server, e);
    NewCodesBalance(setup, m, PP.Happen(setup.hash, m.server, e));
  }

  lemma RestartBalances(setup: Setup, m: Machines)
    requires Balanced(setup, m)
    ensures Balanced(setup, Happen(setup, m, Restart))
  {
    HeldCodesDependOn(setup, m, Reopen(m));
  }

  lemma HappenBalances(setup: Setup, m: Machines, e: Event)
    requires Balanced(setup, m) && Coupled(setup, m)
    ensures Balanced(setup, Happen(setup, m, e))
  {
    match e {
      case AtServer(se) => ServerEventBalances(setup, m, se);
      case Restart => RestartBalances(setup, m);
      case Pairing(_, _, _, _, _) => PairingBalances(setup, m, e);
    }
  }

  lemma {:induction false} RunBalances(setup: Setup, m: Machines, events: seq<Event>)
    requires Balanced(setup, m) && Coupled(setup, m)
    ensures Balanced(setup, System.Run(setup, m, events))
    decreases |events|
  {
    if events == [] {
    } else {
      HappenKeepsCoupled(setup, m, events[0]);
      HappenBalances(setup, m, events[0]);
      RunBalances(setup, Happen(setup, m, events[0]), events[1..]);
    }
  }

  // --- What each fate means ---

  // What a record adds for one code.
  lemma RecordedFate(setup: Setup, m: Machines, after: Machines, c: string)
    ensures Lookup(Record(setup, m, after).fate, c) ==
            if (c in HeldCodes(setup, m) || (c in after.server.redeemed && c !in m.server.redeemed)) &&
               c !in HeldCodes(setup, after)
            then Some(Cause(setup, m, after, c)) else Lookup(m.fate, c)
    ensures HeldUrls(setup, Record(setup, m, after)) == HeldUrls(setup, after)
  {
  }

  // A code that only the paired URL can stand behind.
  lemma OnlyBehind(setup: Setup, after: Machines, url: string, c: string)
    requires forall u :: u in after.codeOf && u in setup.ours && after.codeOf[u] == c ==> u == url
    requires url in setup.ours
    ensures Behind(setup, after, c) <==> url in after.codeOf && after.codeOf[url] == c
    ensures c in HeldCodes(setup, after) <==> url in HeldUrls(setup, after) && after.codeOf[url] == c
  {
    if url in HeldUrls(setup, after) && after.codeOf[url] == c {
      assert c in HeldCodes(setup, after);
    }
  }

  lemma LiveCodeIsNew(setup: Setup, m: Machines, code: string)
    requires Balanced(setup, m) && CodesApart(setup.ours, m.codeOf, m.server.redeemed) && code !in m.server.redeemed
    ensures code !in m.fate && code !in HeldCodes(setup, m)
    ensures forall u :: u in m.codeOf && u in setup.ours ==> m.codeOf[u] != code
  {
  }

  // The fate of a code redeemed in a pairing, by how the pairing moved the history.
  lemma NewCodeMoves(setup: Setup, m: Machines, after: Machines, url: string, code: string, w: World,
                     answer: Option<PairingReply>)
    requires HistoryMoves(setup, m, after, url, code, w, answer) && url in setup.ours
    requires code !in m.server.redeemed && code in after.server.redeemed && code !in m.fate
    requires forall u :: u in m.codeOf && u in setup.ours ==> m.codeOf[u] != code
    ensures var fate := Lookup(Record(setup, m, after).fate, code);
      fate == (if !Landed(setup, w, answer) then Some(Unstored)
               else if CutsTokens(setup, w, answer) then Some(FileLost) else None) &&
      (fate == None <==> url in HeldUrls(setup, after) && after.codeOf[url] == code)
  {
    RecordedFate(setup, m, after, code);
    OnlyBehind(setup, after, url, code);
  }

  /**
   A code the server redeems in a pairing becomes Unstored exactly when no answer brings
   its token to the bridge or the token's write does not land; FileLost exactly when it
   lands and the file is cut short at the secret's write; and has no fate exactly when the
   bridge now holds its token. There is an answer exactly when the reply is delivered and
   the secret could be given.
   */
  lemma NewCodeFate(setup: Setup, m: Machines, e: Event)
    requires Balanced(setup, m) && Coupled(setup, m) && Pairs(setup, m, e) && Redeems(setup, m, e)
    ensures var m', url, code := Happen(setup, m, e), e.r.pair.value.siteURL, e.r.pair.value.code;
      var answer, fate := AnswerIn(setup, m, e), Lookup(m'.fate, code);
      code in m'.server.redeemed && code !in m.server.redeemed &&
      (answer.Some? <==> e.network.Delivered? && e.db.Commits?) &&
      fate == (if !Landed(setup, e.w, answer) then Some(Unstored)
               else if CutsTokens(setup, e.w, answer) then Some(FileLost) else None) &&
      (fate == None <==> url in HeldUrls(setup, m') && m'.codeOf[url] == code)
  {
    var at, after := AtPairing(setup, m, e), After(setup, m, e);
    PairingMoves(setup, m, e);
    LiveCodeIsNew(setup, m, e.r.pair.value.code);
    NewCodeMoves(setup, m, after, e.r.pair.value.siteURL, e.r.pair.value.code, e.w, AnswerIn(setup, m, e));
    RecordedFate(setup, m, after, e.r.pair.value.code);
  }

  // The machines once a pairing has taken place, before the ledger is brought up to date.
  function After(setup: Setup, m: Machines, e: Event): Machines
    requires e.Pairing? && e.r.pair.Some?
  {
    BridgePart(setup, AtPairing(setup, m, e), e.r, e.w, AnswerIn(setup, m, e))
  }

  lemma PairingMoves(setup: Setup, m: Machines, e: Event)
    requires Coupled(setup, m) && Pairs(setup, m, e)
    ensures var after, url, code := After(setup, m, e), e.r.pair.value.siteURL, e.r.pair.value.code;
      Happen(setup, m, e) == Record(setup, m, after) && after.server == AtPairing(setup, m, e).server &&
      HistoryMoves(setup, m, after, url, code, e.w, AnswerIn(setup, m, e)) &&
      after.server.redeemed.Keys == m.server.redeemed.Keys + (if Redeems(setup, m, e) then {code} else {}) &&
      (Redeems(setup, m, e) ==> code !in m.server.redeemed) &&
      (url in setup.ours ==>
       (AnswerIn(setup, m, e).Some? <==> Redeems(setup, m, e) && e.network.Delivered? && e.db.Commits?))
  {
    EffectivePairing(setup, m, e);
    PairingHistory(setup, AtPairing(setup, m, e), e.r, e.w, AnswerIn(setup, m, e));
    ServedRedeems(setup, m, e);
  }

  // The fate of a code held before, likewise.
  lemma HeldCodeMoves(setup: Setup, m: Machines, after: Machines, url: string, code: string, w: World,
                      answer: Option<PairingReply>, u: string)
    requires HistoryMoves(setup, m, after, url, code, w, answer) && u in HeldUrls(setup, m)
    requires m.codeOf[u] in m.server.redeemed && m.codeOf[u] !in m.fate
    requires forall v :: v in m.codeOf && v in setup.ours && m.codeOf[v] == m.codeOf[u] ==> v == u
    requires url in setup.ours && Landed(setup, w, answer) ==> code != m.codeOf[u]
    ensures var fate := Lookup(Record(setup, m, after).fate, m.codeOf[u]);
      var replaced := u == url && Landed(setup, w, answer);
      fate == (if replaced then Some(Superseded) else if CutsTokens(setup, w, answer) then Some(FileLost) else None) &&
      (fate == None <==> u in HeldUrls(setup, after) && after.codeOf[u] == m.codeOf[u])
  {
    assert m.codeOf[u] in HeldCodes(setup, m);
    RecordedFate(setup, m, after, m.codeOf[u]);
    OnlyBehind(setup, after, u, m.codeOf[u]);
  }

  /**
   A code behind a token the bridge holds for one of the server's URLs becomes Superseded
   in a pairing exactly when its URL is the one paired and the new token lands; FileLost
   exactly when the token file is cut short and its URL keeps it; and otherwise stays held.
   */
  lemma HeldCodeFate(setup: Setup, m: Machines, e: Event, u: string)
    requires Balanced(setup, m) && Coupled(setup, m) && Pairs(setup, m, e) && u in HeldUrls(setup, m)
    ensures var m', answer := Happen(setup, m, e), AnswerIn(setup, m, e);
      var fate := Lookup(m'.fate, m.codeOf[u]);
      fate == (if u == e.r.pair.value.siteURL && Landed(setup, e.w, answer) then Some(Superseded)
               else if CutsTokens(setup, e.w, answer) then Some(FileLost) else None) &&
      (fate == None <==> u in HeldUrls(setup, m') && m'.codeOf[u] == m.codeOf[u])
  {
    var after := After(setup, m, e);
    PairingMoves(setup, m, e);
    assert m.codeOf[u] in HeldCodes(setup, m);
    HeldCodeMoves(setup, m, after, e.r.pair.value.siteURL, e.r.pair.value.code, e.w, AnswerIn(setup, m, e), u);
    RecordedFate(setup, m, after, m.codeOf[u]);
  }

  lemma RedeemedElsewhere(hash: string -> string, s: P.Server, e: PP.Event, c: string)
    requires PP.CodesAccounted(s.issued, s.cache, s.redeemed.Keys, s.lost, s.now)
    ensures c in PP.Happen(hash, s, e).redeemed && c !in s.redeemed <==>
            e.Redeem? && e.code == c && P.Live(s, c) && P.FreshDraw(s, e.draw) && !e.db.InsertFails?
  {
    if e.Redeem? {
      ValidateRedeems(hash, s, e.code, e.agentFP, e.draw, e.db);
    }
  }

  /**
   Outside the bridge's own pairings, a code gets a fate exactly when another agent
   redeems it: a live code, with a new draw, that the database does not refuse.
   */
  lemma ElsewhereFate(setup: Setup, m: Machines, e: PP.Event, c: string)
    requires Balanced(setup, m) && c !in m.fate
    requires PP.CodesAccounted(m.server.issued, m.server.cache, m.server.redeemed.Keys, m.server.lost, m.server.now)
    ensures Lookup(Happen(setup, m, AtServer(e)).fate, c) ==
            if e.Redeem? && e.code == c && P.Live(m.server, c) && P.FreshDraw(m.server, e.draw) && !e.db.InsertFails?
            then Some(Elsewhere) else None
  {
    RedeemedElsewhere(setup.hash, m.server, e, c);
  }

  lemma ServerLeavesFates(setup: Setup, m: Machines, e: PP.Event, c: string)
    requires Balanced(setup, m) && c in m.fate
    ensures Lookup(Happen(setup, m, AtServer(e)).fate, c) == Some(m.fate[c])
  {
    assert c in m.server.redeemed;
  }

  lemma FatedIsNotHeld(setup: Setup, m: Machines, c: string)
    requires Balanced(setup, m) && c in m.fate
    ensures c in m.server.redeemed && c !in HeldCodes(setup, m)
  {
    assert c in m.fate.Keys;
  }

  lemma PairingLeavesFates(setup: Setup, m: Machines, e: Event, c: string)
    requires Balanced(setup, m) && e.Pairing? && c in m.fate
    ensures Lookup(Happen(setup, m, e).fate, c) == Some(m.fate[c])
  {
    FatedIsNotHeld(setup, m, c);
    if Pairs(setup, m, e) {
      EffectivePairing(setup, m, e);
      RecordedFate(setup, m, After(setup, m, e), c);
    }
  }

  lemma RestartLeavesFates(setup: Setup, m: Machines, c: string)
    requires c in m.fate
    ensures Lookup(Happen(setup, m, Restart).fate, c) == Some(m.fate[c])
  {
  }

  /** A fate is final. */
  lemma FateIsFinal(setup: Setup, m: Machines, e: Event, c: string)
    requires Balanced(setup, m) && Coupled(setup, m) && c in m.fate
    ensures Lookup(Happen(setup, m, e).fate, c) == Some(m.fate[c])
  {
    match e {
      case AtServer(se) => ServerLeavesFates(setup, m, se, c);
      case Restart => RestartLeavesFates(setup, m, c);
      case Pairing(_, _, _, _, _) => PairingLeavesFates(setup, m, e, c);
    }
  }

  /** And stays so over every run. */
  lemma {:induction false} FatesAreFinal(setup: Setup, m: Machines, events: seq<Event>, c: string)
    requires Balanced(setup, m) && Coupled(setup, m) && c in m.fate
    ensures Lookup(System.Run(setup, m, events).fate, c) == Some(m.fate[c])
    decreases |events|
  {
    if events == [] {
    } else {
      FateIsFinal(setup, m, events[0], c);
      HappenBalances(setup, m, events[0]);
      HappenKeepsCoupled(setup, m, events[0]);
      FatesAreFinal(setup, Happen(setup, m, events[0]), events[1..], c);
    }
  }

  lemma StartBalanced(setup: Setup)
    ensures Balanced(setup, START)
  {
    assert HeldCodes(setup, START) == {};
  }

  // --- Counting ---

  lemma {:induction false} ImageSize(urls: set<string>, codeOf: map<string, string>)
    requires forall u :: u in urls ==> u in codeOf
    requires forall a, b :: a in urls && b in urls && codeOf[a] == codeOf[b] ==> a == b
    ensures |set u | u in urls :: codeOf[u]| == |urls|
    decreases urls
  {
    if urls == {} {
    } else {
      var v :| v in urls;
      var rest := urls - {v};
      ImageSize(rest, codeOf);
      assert (set u | u in urls :: codeOf[u]) == (set u | u in rest :: codeOf[u]) + {codeOf[v]};
      assert codeOf[v] !in (set u | u in rest :: codeOf[u]);
    }
  }

  function OfFate(m: Machines, f: Fate): set<string> {
    set c | c in m.fate && m.fate[c] == f
  }

  lemma FatesPartition(m: Machines)
    ensures |m.fate.Keys| ==
            |OfFate(m, Elsewhere)| + |OfFate(m, Unstored)| + |OfFate(m, Superseded)| + |OfFate(m, FileLost)|
  {
    var a, b, c, d := OfFate(m, Elsewhere), OfFate(m, Unstored), OfFate(m, Superseded), OfFate(m, FileLost);
    assert m.fate.Keys == a + b + c + d;
    FourSizes(a, b, c, d);
  }

  lemma FourSizes(a: set<string>, b: set<string>, c: set<string>, d: set<string>)
    requires a !! b !! c !! d
    ensures |a + b + c + d| == |a| + |b| + |c| + |d|
  {
    assert |a + b + c| == |a + b| + |c|;
  }

  /**
   In every reachable state the server's registrations are, one for one: those behind the
   tokens the bridge holds for its URLs, and the surplus: those redeemed by other agents,
   those whose answer or token never reached the keystore, those a later pairing of the
   URL superseded, and those whose token went with a token file cut short.
   */
  lemma SurplusExact(setup: Setup, events: seq<Event>)
    ensures var m := System.Run(setup, START, events);
      |m.server.registrations| ==
      |HeldUrls(setup, m)| +
      |OfFate(m, Elsewhere)| + |OfFate(m, Unstored)| + |OfFate(m, Superseded)| + |OfFate(m, FileLost)|
  {
    var m := System.Run(setup, START, events);
    StartCoupled(setup);
    StartBalanced(setup);
    RunBalances(setup, START, events);
    ReachableCoupled(setup, events);
    ImageSize(HeldUrls(setup, m), m.codeOf);
    FatesPartition(m);
    assert |HeldCodes(setup, m) + m.fate.Keys| == |HeldCodes(setup, m)| + |m.fate.Keys|;
  }
}
