/** Conservation of pairing codes, over every run of the server. */
module PairingProofs {
  import opened Common
  import opened PairingSpec

  datatype Event =
    | Issue(code: string, user: string, siteURL: string)
    | Redeem(code: string, agentFP: string, draw: Draw, db: Database)
    | Check(name: string)
    | Revoke(name: string)
    | NewSecret(secret: string)
    | Wait(seconds: nat)

  /** One event; a random draw that repeats an earlier one does not happen. */
  function Happen(hash: string -> string, s: Server, e: Event): Server {
    match e
    case Issue(code, user, siteURL) => if code in s.issued then s else Generate(s, code, user, siteURL)
    case Redeem(code, agentFP, draw, db) =>
      if FreshDraw(s, draw) then Validate(hash, s, code, agentFP, draw, db).0 else s
    case Check(name) => Seen(s, name)
    case Revoke(name) => Deactivate(s, name)
    case NewSecret(secret) => ChangeSecret(s, secret)
    case Wait(seconds) => Tick(s, seconds)
  }

  function Run(hash: string -> string, s: Server, events: seq<Event>): Server
    decreases |events|
  {
    if events == [] then s else Run(hash, Happen(hash, s, events[0]), events[1..])
  }

  // --- The invariant ---

  type Codes = map<string, CodeEntry>
  type Redemptions = map<string, Redemption>
  type Registrations = map<string, Registration>

  /** Every issued code is in exactly one of three places, unchanged while it waits. */
  ghost predicate CodesAccounted(issued: Codes, cache: Codes, redeemed: set<string>, lost: set<string>, now: nat) {
    issued.Keys == cache.Keys + redeemed + lost &&
    cache.Keys !! redeemed && cache.Keys !! lost && redeemed !! lost &&
    (forall c :: c in cache ==> cache[c] == issued[c]) &&
    (forall c :: c in issued ==> issued[c].createdAt <= now)
  }

  /** Each redeemed code made a registration for its own user, within its lifetime. */
  ghost predicate Faithful(issued: Codes, redeemed: Redemptions, registrations: Registrations) {
    forall c :: c in redeemed ==>
      c in issued && redeemed[c].registration in registrations &&
      registrations[redeemed[c].registration].user == issued[c].user &&
      issued[c].createdAt <= redeemed[c].at < issued[c].createdAt + 600
  }

  /** No two codes made the same registration, and no registration was made otherwise. */
  ghost predicate OneToOne(redeemed: Redemptions, registrations: Registrations) {
    (forall c, d ::
       c in redeemed && d in redeemed && redeemed[c].registration == redeemed[d].registration ==> c == d) &&
    |registrations| == |redeemed|
  }

  /** Within one epoch of the secret every agent that was given one got the same, which is the server's. */
  ghost predicate OneSecret(redeemed: Redemptions, secret: string, epoch: nat) {
    (forall c, d :: c in redeemed && d in redeemed && redeemed[c].epoch == redeemed[d].epoch &&
                    redeemed[c].secret != "" && redeemed[d].secret != "" ==>
                    redeemed[c].secret == redeemed[d].secret) &&
    (forall c :: c in redeemed ==> redeemed[c].epoch <= epoch) &&
    (forall c ::
       c in redeemed && redeemed[c].epoch == epoch && redeemed[c].secret != "" ==> redeemed[c].secret == secret)
  }

  /** Registrations hold the hashes of pairwise different tokens. */
  ghost predicate TokensDistinct(hash: string -> string, registrations: Registrations, granted: map<string, string>) {
    granted.Keys == registrations.Keys &&
    (forall n :: n in granted ==> granted[n] != "" && registrations[n].tokenHash == hash(granted[n])) &&
    (forall n, m :: n in granted && m in granted && granted[n] == granted[m] ==> n == m)
  }

  ghost predicate Inv(hash: string -> string, s: Server) {
    CodesAccounted(s.issued, s.cache, s.redeemed.Keys, s.lost, s.now) &&
    Faithful(s.issued, s.redeemed, s.registrations) && OneToOne(s.redeemed, s.registrations) &&
    OneSecret(s.redeemed, s.secret, s.epoch) && TokensDistinct(hash, s.registrations, s.granted)
  }

  // --- What one redemption adds ---

  lemma AddRedemption(issued: Codes, redeemed: Redemptions, registrations: Registrations,
                      code: string, r: Redemption, made: Registration)
    requires Faithful(issued, redeemed, registrations) && OneToOne(redeemed, registrations)
    requires code !in redeemed && code in issued && r.registration !in registrations
    requires made.user == issued[code].user
    requires issued[code].createdAt <= r.at < issued[code].createdAt + 600
    ensures Faithful(issued, redeemed[code := r], registrations[r.registration := made])
    ensures OneToOne(redeemed[code := r], registrations[r.registration := made])
  {
  }

  lemma AddSecret(redeemed: Redemptions, secret: string, epoch: nat, code: string, r: Redemption)
    requires OneSecret(redeemed, secret, epoch) && r.epoch == epoch
    requires r.secret != "" && secret != "" ==> r.secret == secret
    ensures OneSecret(redeemed[code := r], if r.secret == "" then secret else r.secret, epoch)
  {
  }

  lemma AddToken(hash: string -> string, registrations: Registrations, granted: map<string, string>,
                 name: string, token: string, made: Registration)
    requires TokensDistinct(hash, registrations, granted)
    requires token != "" && token !in granted.Values && name !in granted && made.tokenHash == hash(token)
    ensures TokensDistinct(hash, registrations[name := made], granted[name := token])
  {
  }

  lemma TakeCode(issued: Codes, cache: Codes, redeemed: set<string>, lost: set<string>, now: nat, code: string)
    requires CodesAccounted(issued, cache, redeemed, lost, now) && code in cache
    ensures CodesAccounted(issued, cache - {code}, redeemed + {code}, lost, now)
    ensures CodesAccounted(issued, cache - {code}, redeemed, lost + {code}, now)
  {
  }

  lemma KeysAfter(m: Redemptions, code: string, r: Redemption)
    ensures m[code := r].Keys == m.Keys + {code}
  {
  }

  lemma RedeemKeepsInv(hash: string -> string, s: Server, code: string, agentFP: string, draw: Draw, db: Database)
    requires Inv(hash, s) && FreshDraw(s, draw)
    ensures Inv(hash, Validate(hash, s, code, agentFP, draw, db).0)
  {
    if Live(s, code) {
      TakeCode(s.issued, s.cache, s.redeemed.Keys, s.lost, s.now, code);
      if !db.InsertFails? {
        var r := Redemption(draw.name, s.now, if db.Commits? then SecretFor(s, draw.secret) else "", s.epoch);
        var made := Registration(s.cache[code].user, agentFP, hash(draw.token), true, s.now);
        KeysAfter(s.redeemed, code, r);
        AddRedemption(s.issued, s.redeemed, s.registrations, code, r, made);
        AddSecret(s.redeemed, s.secret, s.epoch, code, r);
        AddToken(hash, s.registrations, s.granted, draw.name, draw.token, made);
      }
    }
  }

  // Updating a registration's flag or date.
  lemma TouchRegistration(issued: Codes, redeemed: Redemptions, registrations: Registrations, name: string,
          r: Registration)
    requires Faithful(issued, redeemed, registrations) && OneToOne(redeemed, registrations)
    requires name in registrations && r.user == registrations[name].user
    ensures Faithful(issued, redeemed, registrations[name := r]) && OneToOne(redeemed, registrations[name := r])
  {
  }

  lemma TouchToken(hash: string -> string, registrations: Registrations, granted: map<string, string>, name: string,
          r: Registration)
    requires TokensDistinct(hash, registrations, granted)
    requires name in registrations && r.tokenHash == registrations[name].tokenHash
    ensures TokensDistinct(hash, registrations[name := r], granted)
  {
  }

  lemma TouchKeepsInv(hash: string -> string, s: Server, name: string, r: Registration)
    requires Inv(hash, s) && name in s.registrations
    requires r.user == s.registrations[name].user && r.tokenHash == s.registrations[name].tokenHash
    ensures Inv(hash, s.(registrations := s.registrations[name := r]))
  {
    TouchRegistration(s.issued, s.redeemed, s.registrations, name, r);
    TouchToken(hash, s.registrations, s.granted, name, r);
  }

  lemma SeenKeepsInv(hash: string -> string, s: Server, name: string)
    requires Inv(hash, s)
    ensures Inv(hash, Happen(hash, s, Check(name)))
  {
    if name in s.registrations {
      TouchKeepsInv(hash, s, name, s.registrations[name].(lastSeen := s.now));
    }
  }

  lemma DeactivateKeepsInv(hash: string -> string, s: Server, name: string)
    requires Inv(hash, s)
    ensures Inv(hash, Happen(hash, s, Revoke(name)))
  {
    if name in s.registrations {
      TouchKeepsInv(hash, s, name, s.registrations[name].(active := false));
    }
  }

  lemma AddCode(issued: Codes, cache: Codes, redeemed: set<string>, lost: set<string>, now: nat, code: string,
          e: CodeEntry)
    requires CodesAccounted(issued, cache, redeemed, lost, now) && code !in issued && e.createdAt <= now
    ensures CodesAccounted(issued[code := e], cache[code := e], redeemed, lost, now)
  {
  }

  lemma IssuedGrows(issued: Codes, redeemed: Redemptions, registrations: Registrations, code: string, e: CodeEntry)
    requires Faithful(issued, redeemed, registrations) && code !in issued
    ensures Faithful(issued[code := e], redeemed, registrations)
  {
  }

  lemma IssueKeepsInv(hash: string -> string, s: Server, code: string, user: string, siteURL: string)
    requires Inv(hash, s) && code !in s.issued
    ensures Inv(hash, Generate(s, code, user, siteURL))
  {
    var e := CodeEntry(user, siteURL, s.now);
    AddCode(s.issued, s.cache, s.redeemed.Keys, s.lost, s.now, code, e);
    IssuedGrows(s.issued, s.redeemed, s.registrations, code, e);
  }

  // A new epoch has not handed out anything yet.
  lemma EpochBegins(redeemed: Redemptions, secret: string, epoch: nat, changed: string)
    requires OneSecret(redeemed, secret, epoch)
    ensures OneSecret(redeemed, changed, epoch + 1)
  {
  }

  lemma TimePasses(issued: Codes, cache: Codes, redeemed: set<string>, lost: set<string>, now: nat, later: nat)
    requires CodesAccounted(issued, cache, redeemed, lost, now) && now <= later
    ensures CodesAccounted(issued, cache, redeemed, lost, later)
  {
  }

  lemma NewSecretKeepsInv(hash: string -> string, s: Server, secret: string)
    requires Inv(hash, s)
    ensures Inv(hash, Happen(hash, s, NewSecret(secret)))
  {
    EpochBegins(s.redeemed, s.secret, s.epoch, secret);
  }

  lemma WaitKeepsInv(hash: string -> string, s: Server, seconds: nat)
    requires Inv(hash, s)
    ensures Inv(hash, Happen(hash, s, Wait(seconds)))
  {
    TimePasses(s.issued, s.cache, s.redeemed.Keys, s.lost, s.now, s.now + seconds);
  }

  lemma RedeemEventKeepsInv(hash: string -> string, s: Server, code: string, agentFP: string, draw: Draw, db: Database)
    requires Inv(hash, s)
    ensures Inv(hash, Happen(hash, s, Redeem(code, agentFP, draw, db)))
  {
    if FreshDraw(s, draw) {
      RedeemKeepsInv(hash, s, code, agentFP, draw, db);
    }
  }

  lemma IssueEventKeepsInv(hash: string -> string, s: Server, code: string, user: string, siteURL: string)
    requires Inv(hash, s)
    ensures Inv(hash, Happen(hash, s, Issue(code, user, siteURL)))
  {
    if code !in s.issued {
      IssueKeepsInv(hash, s, code, user, siteURL);
    }
  }

  lemma HappenKeepsInv(hash: string -> string, s: Server, e: Event)
    requires Inv(hash, s)
    ensures Inv(hash, Happen(hash, s, e))
  {
    match e {
      case Redeem(code, agentFP, draw, db) => RedeemEventKeepsInv(hash, s, code, agentFP, draw, db);
      case Issue(code, user, siteURL) => IssueEventKeepsInv(hash, s, code, user, siteURL);
      case Check(name) => SeenKeepsInv(hash, s, name);
      case Revoke(name) => DeactivateKeepsInv(hash, s, name);
      case NewSecret(secret) => NewSecretKeepsInv(hash, s, secret);
      case Wait(seconds) => WaitKeepsInv(hash, s, seconds);
    }
  }

  lemma {:induction false} RunKeepsInv(hash: string -> string, s: Server, events: seq<Event>)
    requires Inv(hash, s)
    ensures Inv(hash, Run(hash, s, events))
    decreases |events|
  {
    if events == [] {
    } else {
      HappenKeepsInv(hash, s, events[0]);
      RunKeepsInv(hash, Happen(hash, s, events[0]), events[1..]);
    }
  }

  // --- Conservation ---

  function LiveCodes(s: Server): set<string> {
    set c | c in s.cache && Live(s, c)
  }

  function ExpiredCodes(s: Server): set<string> {
    set c | c in s.cache && !Live(s, c)
  }

  lemma CodesPartitioned(s: Server)
    requires CodesAccounted(s.issued, s.cache, s.redeemed.Keys, s.lost, s.now)
    ensures |s.issued| == |LiveCodes(s)| + |ExpiredCodes(s)| + |s.redeemed| + |s.lost|
  {
    LiveOrExpired(s);
    FourParts(s.issued.Keys, s.cache.Keys, LiveCodes(s), ExpiredCodes(s), s.redeemed.Keys, s.lost);
  }

  lemma LiveOrExpired(s: Server)
    ensures s.cache.Keys == LiveCodes(s) + ExpiredCodes(s) && LiveCodes(s) !! ExpiredCodes(s)
  {
  }

  lemma FourParts(all: set<string>, cached: set<string>, live: set<string>, expired: set<string>,
                  redeemed: set<string>, lost: set<string>)
    requires all == cached + redeemed + lost && cached == live + expired && live !! expired
    requires cached !! redeemed && cached !! lost && redeemed !! lost
    ensures |all| == |live| + |expired| + |redeemed| + |lost|
  {
  }

  lemma NewServerInv(hash: string -> string)
    ensures Inv(hash, NEW)
  {
  }

  /**
   In every state a run from a new server reaches: codes issued are the live, the
   expired, the redeemed and those lost to a failed insert; there are as many
   registrations as redeemed codes; each carries its code's user and was made within
   600 seconds of the code; and all grants between two changes of the secret carry the
   same one.
   */
  lemma CodesConserved(hash: string -> string, events: seq<Event>)
    ensures var s := Run(hash, NEW, events);
      |s.issued| == |LiveCodes(s)| + |ExpiredCodes(s)| + |s.redeemed| + |s.lost| &&
      Faithful(s.issued, s.redeemed, s.registrations) && OneToOne(s.redeemed, s.registrations) &&
      OneSecret(s.redeemed, s.secret, s.epoch)
  {
    NewServerInv(hash);
    RunKeepsInv(hash, NEW, events);
    CodesPartitioned(Run(hash, NEW, events));
  }

  // A code that can no longer be redeemed, and what was recorded of it.
  predicate Spent(s: Server, code: string) {
    code in s.issued && !Live(s, code)
  }

  lemma SpentAfterEvent(hash: string -> string, s: Server, e: Event, code: string)
    requires Spent(s, code)
    ensures Spent(Happen(hash, s, e), code)
    ensures Lookup(Happen(hash, s, e).redeemed, code) == Lookup(s.redeemed, code)
  {
  }

  /** A code that was redeemed, lost, or has expired is never redeemed again, whatever happens. */
  lemma {:induction false} SpentStaysSpent(hash: string -> string, s: Server, events: seq<Event>, code: string)
    requires Spent(s, code)
    ensures Spent(Run(hash, s, events), code)
    ensures Lookup(Run(hash, s, events).redeemed, code) == Lookup(s.redeemed, code)
    decreases |events|
  {
    if events == [] {
    } else {
      SpentAfterEvent(hash, s, events[0], code);
      SpentStaysSpent(hash, Happen(hash, s, events[0]), events[1..], code);
    }
  }

  lemma {:induction false} IssuedStays(hash: string -> string, s: Server, events: seq<Event>, code: string)
    requires code in s.issued
    ensures Lookup(Run(hash, s, events).issued, code) == Some(s.issued[code])
    decreases |events|
  {
    if events == [] {
    } else {
      IssuedStays(hash, Happen(hash, s, events[0]), events[1..], code);
    }
  }

  /**
   However long after and whatever happens in between: a code redeemed makes a
   registration for the user it was issued to, within 600 seconds of that.
   */
  lemma {:induction false} CodeCarriesItsUser(hash: string -> string, s: Server, code: string, user: string,
          siteURL: string, after: seq<Event>)
    requires Inv(hash, s) && code !in s.issued
    ensures var s' := Run(hash, Happen(hash, s, Issue(code, user, siteURL)), after);
      code in s'.redeemed ==>
      s'.redeemed[code].registration in s'.registrations &&
      s'.registrations[s'.redeemed[code].registration].user == user &&
      s.now <= s'.redeemed[code].at < s.now + 600
  {
    var s1 := Happen(hash, s, Issue(code, user, siteURL));
    HappenKeepsInv(hash, s, Issue(code, user, siteURL));
    RunKeepsInv(hash, s1, after);
    IssuedStays(hash, s1, after, code);
    IssuedBinds(hash, Run(hash, s1, after), code, s1.issued[code]);
  }

  lemma IssuedBinds(hash: string -> string, s: Server, code: string, e: CodeEntry)
    requires Faithful(s.issued, s.redeemed, s.registrations) && Lookup(s.issued, code) == Some(e)
    ensures code in s.redeemed ==>
      s.redeemed[code].registration in s.registrations &&
      s.registrations[s.redeemed[code].registration].user == e.user &&
      e.createdAt <= s.redeemed[code].at < e.createdAt + 600
  {
  }

  /**
   Validation succeeds exactly for a live code when the database commits everything; the
   code is spent either way, and a registration is made exactly when its insert succeeds.
   */
  lemma ValidateExact(hash: string -> string, s: Server, code: string, agentFP: string, draw: Draw, db: Database)
    requires Inv(hash, s)
    ensures var (s', grant) := Validate(hash, s, code, agentFP, draw, db);
      (grant.Some? <==> Live(s, code) && db.Commits?) && !Live(s', code) &&
      (code in s'.redeemed && code !in s.redeemed <==> Live(s, code) && !db.InsertFails?) &&
      (Live(s, code) <==> code in s'.redeemed.Keys + s'.lost && code !in s.redeemed.Keys + s.lost) &&
      (grant.Some? ==>
       grant.value.hmacSecret == s'.secret && (s.secret != "" ==> s'.secret == s.secret) &&
       grant.value.agentRegistration in s'.registrations &&
       s'.registrations[grant.value.agentRegistration].agentFP == agentFP &&
       s'.registrations[grant.value.agentRegistration].active)
  {
  }

  lemma StaysLive(hash: string -> string, s: Server, e: Event, code: string, t: nat)
    requires code in s.issued && code in s.cache && s.cache[code].createdAt == t
    requires !(e.Redeem? && e.code == code)
    ensures var s' := Happen(hash, s, e);
      code in s'.issued && code in s'.cache && s'.cache[code].createdAt == t
  {
  }

  /** While nobody redeems it, a code answers for exactly 600 seconds. */
  lemma {:induction false} LiveExactly(hash: string -> string, s: Server, events: seq<Event>, code: string, t: nat)
    requires code in s.issued && code in s.cache && s.cache[code].createdAt == t
    requires forall e :: e in events ==> !(e.Redeem? && e.code == code)
    ensures var s' := Run(hash, s, events); Live(s', code) <==> s'.now < t + 600
    decreases |events|
  {
    if events == [] {
    } else {
      assert events[0] in events && forall e :: e in events[1..] ==> e in events;
      StaysLive(hash, s, events[0], code, t);
      LiveExactly(hash, Happen(hash, s, events[0]), events[1..], code, t);
    }
  }

  /** So a code just issued can be redeemed at any time in the next 600 seconds, and not later. */
  lemma CodeWorksInTime(hash: string -> string, s: Server, code: string, user: string, siteURL: string,
                        events: seq<Event>, agentFP: string, draw: Draw)
    requires code !in s.issued && forall e :: e in events ==> !(e.Redeem? && e.code == code)
    ensures var s' := Run(hash, Happen(hash, s, Issue(code, user, siteURL)), events);
      Validate(hash, s', code, agentFP, draw, Commits).1.Some? <==> Waited(events) < 600
  {
    ClockAdvances(hash, Happen(hash, s, Issue(code, user, siteURL)), events);
    LiveExactly(hash, Happen(hash, s, Issue(code, user, siteURL)), events, code, s.now);
  }

  function SecretChanges(events: seq<Event>): nat {
    if events == [] then 0 else (if events[0].NewSecret? then 1 else 0) + SecretChanges(events[1..])
  }

  /** An epoch ends with a change by the administrator and never otherwise. */
  lemma {:induction false} EpochsAreChanges(hash: string -> string, s: Server, events: seq<Event>)
    ensures Run(hash, s, events).epoch == s.epoch + SecretChanges(events)
    decreases |events|
  {
    if events == [] {
    } else {
      EpochsAreChanges(hash, Happen(hash, s, events[0]), events[1..]);
    }
  }

  function Waited(events: seq<Event>): nat {
    if events == [] then 0 else (if events[0].Wait? then events[0].seconds else 0) + Waited(events[1..])
  }

  lemma {:induction false} ClockAdvances(hash: string -> string, s: Server, events: seq<Event>)
    ensures Run(hash, s, events).now == s.now + Waited(events)
    decreases |events|
  {
    if events == [] {
    } else {
      ClockAdvances(hash, Happen(hash, s, events[0]), events[1..]);
    }
  }

  /** The secret is the administrator's until the administrator changes it; only an unset one is drawn. */
  lemma {:induction false} SecretStays(hash: string -> string, s: Server, events: seq<Event>)
    requires s.secret != "" && forall e :: e in events ==> !e.NewSecret?
    ensures Run(hash, s, events).secret == s.secret
    decreases |events|
  {
    if events == [] {
    } else {
      assert events[0] in events && forall e :: e in events[1..] ==> e in events;
      SecretStays(hash, Happen(hash, s, events[0]), events[1..]);
    }
  }

  /** After a change every agent is given the new one. */
  lemma NewSecretIsGranted(hash: string -> string, s: Server, secret: string, events: seq<Event>, code: string,
                           agentFP: string, draw: Draw)
    requires secret != "" && forall e :: e in events ==> !e.NewSecret?
    ensures var s' := Run(hash, Happen(hash, s, NewSecret(secret)), events);
      var grant := Validate(hash, s', code, agentFP, draw, Commits).1;
      s'.secret == secret && (grant.Some? ==> grant.value.hmacSecret == secret)
  {
    SecretStays(hash, Happen(hash, s, NewSecret(secret)), events);
  }

  // --- Verifying a token ---

  ghost predicate Injective(hash: string -> string) {
    forall x, y :: hash(x) == hash(y) ==> x == y
  }

  /**
   A granted token verifies to exactly its own registration while that is active, for its
   own agent or without naming one; and to nothing otherwise.
   */
  lemma TokenVerifiesExactly(hash: string -> string, s: Server, name: string, agentFP: string, answer: Option<string>)
    requires Injective(hash) && TokensDistinct(hash, s.registrations, s.granted)
    requires name in s.registrations
    ensures MayVerify(hash, s, s.granted[name], agentFP, answer) <==>
            answer == if s.registrations[name].active && agentFP in {"", s.registrations[name].agentFP} then Some(name)
                      else None
  {
  }

  /** No token, and a token that was never granted, verify to nothing. */
  lemma StrangersVerifyToNothing(hash: string -> string, s: Server, token: string, agentFP: string,
          answer: Option<string>)
    requires token != "" ==>
      Injective(hash) && TokensDistinct(hash, s.registrations, s.granted) && token !in s.granted.Values
    ensures MayVerify(hash, s, token, agentFP, answer) <==> answer == None
  {
    if token != "" {
      forall n | n in s.registrations ensures !Matches(hash, s, n, token, agentFP) {
        assert s.granted[n] in s.granted.Values;
      }
    }
  }

  /** An answer moves the date of the registration it names to now, and nothing else. */
  lemma SeenExactly(s: Server, name: string)
    requires name in s.registrations
    ensures var s' := Seen(s, name);
      s' == s.(registrations := s'.registrations) && s'.registrations.Keys == s.registrations.Keys &&
      (forall n :: n in s.registrations && n != name ==> s'.registrations[n] == s.registrations[n]) &&
      s'.registrations[name].lastSeen == s.now &&
      s'.registrations[name].(lastSeen := 0) == s.registrations[name].(lastSeen := 0)
  {
  }

  /** Every registration was last seen after it was made and not in the future. */
  ghost predicate SeenInTime(redeemed: Redemptions, registrations: Registrations, now: nat) {
    forall c :: c in redeemed && redeemed[c].registration in registrations ==>
      redeemed[c].at <= registrations[redeemed[c].registration].lastSeen <= now
  }

  lemma AddSeen(redeemed: Redemptions, registrations: Registrations, now: nat, code: string, r: Redemption,
                made: Registration)
    requires SeenInTime(redeemed, registrations, now) && r.at == made.lastSeen == now
    requires forall c :: c in redeemed ==> redeemed[c].registration != r.registration
    ensures SeenInTime(redeemed[code := r], registrations[r.registration := made], now)
  {
  }

  lemma RedeemSeesInTime(hash: string -> string, s: Server, code: string, agentFP: string, draw: Draw, db: Database)
    requires SeenInTime(s.redeemed, s.registrations, s.now) && FreshDraw(s, draw)
    requires Faithful(s.issued, s.redeemed, s.registrations)
    ensures var s' := Validate(hash, s, code, agentFP, draw, db).0; SeenInTime(s'.redeemed, s'.registrations, s'.now)
  {
    if Live(s, code) && !db.InsertFails? {
      var r := Redemption(draw.name, s.now, if db.Commits? then SecretFor(s, draw.secret) else "", s.epoch);
      var made := Registration(s.cache[code].user, agentFP, hash(draw.token), true, s.now);
      AddSeen(s.redeemed, s.registrations, s.now, code, r, made);
    }
  }

  lemma HappenSeesInTime(hash: string -> string, s: Server, e: Event)
    requires SeenInTime(s.redeemed, s.registrations, s.now) && Faithful(s.issued, s.redeemed, s.registrations)
    ensures var s' := Happen(hash, s, e); SeenInTime(s'.redeemed, s'.registrations, s'.now)
  {
    match e {
      case Redeem(code, agentFP, draw, db) =>
        if FreshDraw(s, draw) {
          RedeemSeesInTime(hash, s, code, agentFP, draw, db);
        }
      case _ =>
    }
  }

  /** In every reachable state. */
  lemma {:induction false} RunSeesInTime(hash: string -> string, s: Server, events: seq<Event>)
    requires Inv(hash, s) && SeenInTime(s.redeemed, s.registrations, s.now)
    ensures var s' := Run(hash, s, events); SeenInTime(s'.redeemed, s'.registrations, s'.now)
    decreases |events|
  {
    if events == [] {
    } else {
      HappenKeepsInv(hash, s, events[0]);
      HappenSeesInTime(hash, s, events[0]);
      RunSeesInTime(hash, Happen(hash, s, events[0]), events[1..]);
    }
  }

  lemma HappenKeepsActive(hash: string -> string, s: Server, e: Event, name: string)
    requires name in s.registrations
    ensures var s' := Happen(hash, s, e);
      name in s'.registrations && (s'.registrations[name].active <==> s.registrations[name].active && e != Revoke(name))
  {
  }

  /** A registration is active until it is revoked, and never again after that. */
  lemma {:induction false} ActiveExactly(hash: string -> string, s: Server, events: seq<Event>, name: string)
    requires name in s.registrations
    ensures var s' := Run(hash, s, events);
      name in s'.registrations &&
      (s'.registrations[name].active <==> s.registrations[name].active && Revoke(name) !in events)
    decreases |events|
  {
    if events == [] {
    } else {
      assert Revoke(name) in events <==> events[0] == Revoke(name) || Revoke(name) in events[1..];
      HappenKeepsActive(hash, s, events[0], name);
      ActiveExactly(hash, Happen(hash, s, events[0]), events[1..], name);
    }
  }
}
