/**
 The whole protocol as one run: pairings and restarts, documents prepared and finished
 at the server, sign requests at the bridge, and the tokens in its machine.
 */
module Protocol {
  import opened Common
  import opened KeystoreSpec
  import opened PinCaches
  import opened BridgeSpec
  import opened DirectSpec
  import BridgeProofs
  import DirectProofs
  import Hex
  import Mac
  import PairingProofs
  import Pkcs11
  import System
  import SystemProofs

  /** A tag the server issued, and the secret it used. */
  datatype Issue = Issue(secret: string, ticket: Ticket)

  /** A token call for a site: was the site linked, were its requests checked, and what the bridge's clock said. */
  datatype TokenCall = TokenCall(site: string, linked: bool, checked: bool, now: int, call: SignCall)

  datatype Whole = Whole(
    m: System.Machines, pins: Pins, device: Pkcs11.Device, desk: Desk, issued: set<Issue>, calls: seq<TokenCall>)

  datatype Event =
    | AtMachines(step: System.Event)
    | Prepare(document: Document, certB64: string, p: Preparation, session: Bytes, nonce: Bytes)
    | Complete(id: string, text: string)
    | Evict(id: string)
    | Ask(r: Request, w: World)
    | AtToken(change: BridgeProofs.Event)

  function AgentOf(x: Whole): Agent {
    Agent(x.m.running, x.m.store, x.pins, x.device)
  }

  // The world of a request, with the fixed keychain.
  function Here(setup: System.Setup, w: World): World {
    w.(io := w.io.(keychainUp := setup.keychainUp))
  }

  // The server's secret authenticates the site's requests at the bridge.
  predicate IsChecked(setup: System.Setup, m: System.Machines, site: string) {
    site in setup.ours && SecretKnown(m.store, setup.keychainUp, site)
  }

  function Prepared(libs: Libs, x: Whole, e: Event): Whole
    requires e.Prepare?
  {
    var session, secret := Hex.Encode(e.session), x.m.server.secret;
    if session in x.desk.started then x
    else
      var now, nonce := x.m.server.now, Hex.Encode(e.nonce);
      var (desk, ticket) := Initiate(libs, x.desk, now, secret, e.document, e.certB64, e.p, session, nonce);
      x.(desk := desk, issued := if ticket.Some? then x.issued + {Issue(secret, ticket.value)} else x.issued)
  }

  function Calls(setup: System.Setup, x: Whole, r: Request, w: World): seq<TokenCall> {
    var call := Serve(setup.cfg, AgentOf(x), r, Here(setup, w)).call;
    if call.None? then []
    else
      var linked := r.origin in x.m.linked && r.origin in setup.ours;
      [TokenCall(r.origin, linked, IsChecked(setup, x.m, r.origin), w.now, call.value)]
  }

  // Pairing requests are events of the two machines.
  function Asked(setup: System.Setup, x: Whole, r: Request, w: World): Whole {
    if !x.m.running || r.path.PairPath? then x
    else
      var o := Serve(setup.cfg, AgentOf(x), r, Here(setup, w));
      x.(pins := o.agent.pins, device := o.agent.device, calls := x.calls + Calls(setup, x, r, w))
  }

  /** One event. Sessions are never drawn twice, and a restart empties the PIN cache. */
  function Happen(setup: System.Setup, libs: Libs, x: Whole, e: Event): Whole {
    match e
    case AtMachines(se) => x.(m := System.Happen(setup, x.m, se), pins := if se.Restart? then map[] else x.pins)
    case Prepare(_, _, _, _, _) => Prepared(libs, x, e)
    case Complete(session, text) => x.(desk := Finalize(libs, x.desk, x.m.server.now, session, text).0)
    case Evict(session) => x.(desk := x.desk.(cache := x.desk.cache - {session}))
    case Ask(r, w) => Asked(setup, x, r, w)
    case AtToken(te) =>
      if te.Http? || te.Restart? then x else x.(device := BridgeProofs.Happen(setup.cfg, AgentOf(x), te).device)
  }

  function Run(setup: System.Setup, libs: Libs, x: Whole, events: seq<Event>): Whole
    decreases |events|
  {
    if events == [] then x else Run(setup, libs, Happen(setup, libs, x, events[0]), events[1..])
  }

  function Start(device: Pkcs11.Device): Whole {
    Whole(System.START, map[], device, EMPTY_DESK, {}, [])
  }

  // --- The assumption ---

  // Clocks and timestamps fit 64 bits, and the bridge's clock is past 1970.
  predicate Clocked(e: Event) {
    e.Ask? ==> Mac.Int64(e.w.now) && e.w.now >= 0 && (e.r.sign.Some? ==> Mac.Int64(e.r.sign.value.fields.timestamp))
  }

  /**
   Nobody but the server makes tags: one that is accepted under a secret belongs to a
   payload the server issued under that secret.
   */
  ghost predicate Unforged(setup: System.Setup, x: Whole, e: Event) {
    e.Ask? && e.r.sign.Some? && IsChecked(setup, x.m, e.r.origin) ==>
    var secret, q := HMACSecret(x.m.store, setup.keychainUp, e.r.origin).value, e.r.sign.value;
    Mac.Accepts(setup.cfg.mac, secret, q.fields, q.hmac, e.w.now) ==>
    exists i :: i in x.issued && i.secret == secret && Mac.ServerPayload(i.ticket.fields) == Mac.BridgePayload(q.fields)
  }

  ghost predicate UnforgedRun(setup: System.Setup, libs: Libs, x: Whole, events: seq<Event>)
    decreases |events|
  {
    events == [] ||
    (Clocked(events[0]) && Unforged(setup, x, events[0]) &&
     UnforgedRun(setup, libs, Happen(setup, libs, x, events[0]), events[1..]))
  }

  // --- The invariant ---

  /** A ticket is free of separators and is that of a started session. */
  ghost predicate TicketTrue(started: map<string, Started>, t: Ticket) {
    Mac.PipeFree(t.fields) && t.fields.session in started &&
    started[t.fields.session].hash == t.fields.hash &&
    started[t.fields.session].prepared.createdAt == t.fields.timestamp
  }

  ghost predicate TicketsTrue(started: map<string, Started>, issued: set<Issue>) {
    forall i :: i in issued ==> TicketTrue(started, i.ticket)
  }

  /** The session hands out this hash, and was started within 60 seconds of this time. */
  ghost predicate HandsOut(libs: Libs, started: map<string, Started>, session: string, hash: Bytes, now: int) {
    session in started && hash == libs.sha256(libs.attributes(started[session].preparation.digest)) &&
    Mac.Distance(now, started[session].prepared.createdAt) <= 60
  }

  /** The call signs what the session hands out, within that time. */
  ghost predicate SignsSession(libs: Libs, started: map<string, Started>, c: TokenCall, session: string) {
    HandsOut(libs, started, session, c.call.hash, c.now)
  }

  /** A linked site's calls are checked, and a checked call signs what some started session handed out. */
  ghost predicate CallTrue(libs: Libs, started: map<string, Started>, c: TokenCall) {
    (c.linked ==> c.checked) && (c.checked ==> exists session :: SignsSession(libs, started, c, session))
  }

  ghost predicate CallsTrue(libs: Libs, started: map<string, Started>, calls: seq<TokenCall>) {
    forall c :: c in calls ==> CallTrue(libs, started, c)
  }

  ghost predicate DeskSound(libs: Libs, d: Desk) {
    DirectProofs.Faithful(libs, d) && DirectProofs.CompletionsSound(libs, d)
  }

  ghost predicate Sound(setup: System.Setup, libs: Libs, x: Whole) {
    SystemProofs.Coupled(setup, x.m) && Proper(x.pins) && DeskSound(libs, x.desk) &&
    TicketsTrue(x.desk.started, x.issued) && CallsTrue(libs, x.desk.started, x.calls)
  }

  // --- Events at the server's desk ---

  // Sessions stay as they were started.
  ghost predicate Grows(started: map<string, Started>, started': map<string, Started>) {
    forall k :: k in started ==> k in started' && started'[k] == started[k]
  }

  lemma GrowthKeeps(libs: Libs, started: map<string, Started>, started': map<string, Started>, issued: set<Issue>,
          calls: seq<TokenCall>)
    requires Grows(started, started') && TicketsTrue(started, issued) && CallsTrue(libs, started, calls)
    ensures TicketsTrue(started', issued) && CallsTrue(libs, started', calls)
  {
    forall i | i in issued ensures TicketTrue(started', i.ticket) {
      assert TicketTrue(started, i.ticket);
    }
    forall c | c in calls ensures CallTrue(libs, started', c) {
      assert CallTrue(libs, started, c);
      if c.checked {
        var session :| SignsSession(libs, started, c, session);
        assert SignsSession(libs, started', c, session);
      }
    }
  }

  lemma PrepareGrows(libs: Libs, x: Whole, e: Event)
    requires e.Prepare? && DeskSound(libs, x.desk)
    ensures var x' := Prepared(libs, x, e);
      DeskSound(libs, x'.desk) && Grows(x.desk.started, x'.desk.started) &&
      x' == x.(desk := x'.desk, issued := x'.issued) &&
      forall i :: i in x'.issued && i !in x.issued ==> TicketTrue(x'.desk.started, i.ticket)
  {
    var session, nonce, now, secret := Hex.Encode(e.session), Hex.Encode(e.nonce), x.m.server.now, x.m.server.secret;
    if session !in x.desk.started {
      DirectProofs.InitiateKeepsFaithful(libs, x.desk, now, secret, e.document, e.certB64, e.p, session, nonce);
      DirectProofs.InitiateKeepsCompletions(libs, x.desk, now, secret, e.document, e.certB64, e.p, session, nonce);
      DirectProofs.TicketPipeFree(libs, x.desk, now, secret, e.document, e.certB64, e.p, e.session, e.nonce);
    }
  }

  lemma PrepareKeeps(setup: System.Setup, libs: Libs, x: Whole, e: Event)
    requires Sound(setup, libs, x) && e.Prepare?
    ensures Sound(setup, libs, Happen(setup, libs, x, e))
  {
    var x' := Prepared(libs, x, e);
    PrepareGrows(libs, x, e);
    GrowthKeeps(libs, x.desk.started, x'.desk.started, x.issued, x.calls);
  }

  lemma CompleteKeeps(libs: Libs, d: Desk, now: nat, session: string, text: string)
    requires DeskSound(libs, d)
    ensures var d' := Finalize(libs, d, now, session, text).0; DeskSound(libs, d') && d'.started == d.started
  {
    DirectProofs.FinalizeKeeps(libs, d, now, session, text);
  }

  lemma EvictKeeps(libs: Libs, d: Desk, session: string)
    requires DeskSound(libs, d)
    ensures DeskSound(libs, d.(cache := d.cache - {session}))
  {
  }

  // --- Requests at the bridge ---

  lemma LinkedIsChecked(setup: System.Setup, m: System.Machines, site: string)
    requires SystemProofs.LinkedRight(setup, m.server, m.store, m.codeOf, m.linked)
    requires PairingProofs.OneSecret(m.server.redeemed, m.server.secret, m.server.epoch)
    requires site in m.linked && site in setup.ours
    ensures IsChecked(setup, m, site)
  {
    assert SystemProofs.Linked(setup.keychainUp, m.server, m.store.disk, m.codeOf, site);
  }

  // Fields the server did not issue have another payload.
  lemma AcceptedIsIssued(started: map<string, Started>, issued: set<Issue>, secret: string, f: Mac.Fields)
    requires TicketsTrue(started, issued)
    requires exists i :: i in issued && i.secret == secret && Mac.ServerPayload(i.ticket.fields) == Mac.BridgePayload(f)
    ensures f.session in started && started[f.session].hash == f.hash
    ensures started[f.session].prepared.createdAt == f.timestamp
  {
    var i :| i in issued && i.secret == secret && Mac.ServerPayload(i.ticket.fields) == Mac.BridgePayload(f);
    assert TicketTrue(started, i.ticket);
    Mac.PayloadBinding(i.ticket.fields, f);
  }

  /** A call for a checked site signs what a started session handed out. */
  lemma CheckedCallSigns(setup: System.Setup, libs: Libs, x: Whole, r: Request, w: World, c: TokenCall)
    requires TicketsTrue(x.desk.started, x.issued) && DirectProofs.HashesFaithful(libs, x.desk.started)
    requires Proper(x.pins)
    requires Clocked(Ask(r, w)) && Unforged(setup, x, Ask(r, w)) && IsChecked(setup, x.m, r.origin)
    requires Serve(setup.cfg, AgentOf(x), r, Here(setup, w)).call == Some(c.call) && c.now == w.now
    ensures exists session :: SignsSession(libs, x.desk.started, c, session)
  {
    BridgeProofs.TokenReachedExactly(setup.cfg, AgentOf(x), r, Here(setup, w));
    var q, secret := r.sign.value, HMACSecret(x.m.store, setup.keychainUp, r.origin).value;
    assert Mac.Accepts(setup.cfg.mac, secret, q.fields, q.hmac, w.now);
    AcceptedIsIssued(x.desk.started, x.issued, secret, q.fields);
    var s := x.desk.started[q.fields.session];
    Hex.GoRoundTrip(libs.sha256(libs.attributes(s.preparation.digest)));
    Mac.SkewExact(w.now, q.fields.timestamp);
    assert SignsSession(libs, x.desk.started, c, q.fields.session);
  }

  lemma NewCallTrue(setup: System.Setup, libs: Libs, x: Whole, r: Request, w: World)
    requires Sound(setup, libs, x) && Clocked(Ask(r, w)) && Unforged(setup, x, Ask(r, w))
    requires Calls(setup, x, r, w) != []
    ensures CallTrue(libs, x.desk.started, Calls(setup, x, r, w)[0])
  {
    var c := Calls(setup, x, r, w)[0];
    if c.linked {
      LinkedIsChecked(setup, x.m, r.origin);
    }
    if c.checked {
      CheckedCallSigns(setup, libs, x, r, w, c);
    }
  }

  lemma AtMostOne(libs: Libs, started: map<string, Started>, calls: seq<TokenCall>)
    requires |calls| <= 1 && (calls != [] ==> CallTrue(libs, started, calls[0]))
    ensures CallsTrue(libs, started, calls)
  {
  }

  lemma NewCallsTrue(setup: System.Setup, libs: Libs, x: Whole, r: Request, w: World)
    requires Sound(setup, libs, x) && Clocked(Ask(r, w)) && Unforged(setup, x, Ask(r, w))
    ensures CallsTrue(libs, x.desk.started, Calls(setup, x, r, w))
  {
    if Calls(setup, x, r, w) != [] {
      NewCallTrue(setup, libs, x, r, w);
    }
    AtMostOne(libs, x.desk.started, Calls(setup, x, r, w));
  }

  lemma CallsAppend(libs: Libs, started: map<string, Started>, a: seq<TokenCall>, b: seq<TokenCall>)
    requires CallsTrue(libs, started, a) && CallsTrue(libs, started, b)
    ensures CallsTrue(libs, started, a + b)
  {
  }

  lemma ServeKeepsProper(cfg: Config, a: Agent, r: Request, w: World)
    requires Proper(a.pins)
    ensures Proper(Serve(cfg, a, r, w).agent.pins)
  {
  }

  lemma AskKeeps(setup: System.Setup, libs: Libs, x: Whole, r: Request, w: World)
    requires Sound(setup, libs, x) && Clocked(Ask(r, w)) && Unforged(setup, x, Ask(r, w))
    ensures Sound(setup, libs, Happen(setup, libs, x, Ask(r, w)))
  {
    ServeKeepsProper(setup.cfg, AgentOf(x), r, Here(setup, w));
    NewCallsTrue(setup, libs, x, r, w);
    CallsAppend(libs, x.desk.started, x.calls, Calls(setup, x, r, w));
  }

  // --- Runs ---

  lemma MachinesKeep(setup: System.Setup, libs: Libs, x: Whole, e: System.Event)
    requires Sound(setup, libs, x)
    ensures Sound(setup, libs, Happen(setup, libs, x, AtMachines(e)))
  {
    SystemProofs.HappenKeepsCoupled(setup, x.m, e);
  }

  lemma CompletionKeeps(setup: System.Setup, libs: Libs, x: Whole, session: string, text: string)
    requires Sound(setup, libs, x)
    ensures Sound(setup, libs, Happen(setup, libs, x, Complete(session, text)))
  {
    CompleteKeeps(libs, x.desk, x.m.server.now, session, text);
  }

  lemma EvictionKeeps(setup: System.Setup, libs: Libs, x: Whole, session: string)
    requires Sound(setup, libs, x)
    ensures Sound(setup, libs, Happen(setup, libs, x, Evict(session)))
  {
    EvictKeeps(libs, x.desk, session);
  }

  lemma DeviceKeeps(setup: System.Setup, libs: Libs, x: Whole, device: Pkcs11.Device)
    requires Sound(setup, libs, x)
    ensures Sound(setup, libs, x.(device := device))
  {
  }

  lemma TokenChanges(setup: System.Setup, libs: Libs, x: Whole, change: BridgeProofs.Event)
    ensures var x' := Happen(setup, libs, x, AtToken(change)); x' == x.(device := x'.device)
  {
  }

  lemma TokenKeeps(setup: System.Setup, libs: Libs, x: Whole, change: BridgeProofs.Event)
    requires Sound(setup, libs, x)
    ensures Sound(setup, libs, Happen(setup, libs, x, AtToken(change)))
  {
    TokenChanges(setup, libs, x, change);
    DeviceKeeps(setup, libs, x, Happen(setup, libs, x, AtToken(change)).device);
  }

  lemma HappenKeepsSound(setup: System.Setup, libs: Libs, x: Whole, e: Event)
    requires Sound(setup, libs, x) && Clocked(e) && Unforged(setup, x, e)
    ensures Sound(setup, libs, Happen(setup, libs, x, e))
  {
    match e {
      case AtMachines(se) => MachinesKeep(setup, libs, x, se);
      case Prepare(_, _, _, _, _) => PrepareKeeps(setup, libs, x, e);
      case Complete(session, text) => CompletionKeeps(setup, libs, x, session, text);
      case Evict(session) => EvictionKeeps(setup, libs, x, session);
      case Ask(r, w) => AskKeeps(setup, libs, x, r, w);
      case AtToken(te) => TokenKeeps(setup, libs, x, te);
    }
  }

  lemma {:induction false} RunKeepsSound(setup: System.Setup, libs: Libs, x: Whole, events: seq<Event>)
    requires Sound(setup, libs, x) && UnforgedRun(setup, libs, x, events)
    ensures Sound(setup, libs, Run(setup, libs, x, events))
    decreases |events|
  {
    if events == [] {
    } else {
      HappenKeepsSound(setup, libs, x, events[0]);
      RunKeepsSound(setup, libs, Happen(setup, libs, x, events[0]), events[1..]);
    }
  }

  lemma ReachableSound(setup: System.Setup, libs: Libs, device: Pkcs11.Device, events: seq<Event>)
    requires UnforgedRun(setup, libs, Start(device), events)
    ensures Sound(setup, libs, Run(setup, libs, Start(device), events))
  {
    SystemProofs.StartCoupled(setup);
    RunKeepsSound(setup, libs, Start(device), events);
  }

  /**
   Over every run of the whole protocol in which nobody but the server makes tags: every
   token call for a site linked at that moment, or for which the bridge knew any secret
   of the server, is over the hash of the attributes of a session the server started,
   within 60 seconds of its start; and every attached file is a faithful completion of a
   session of its own.
   */
  lemma LinkedSitesSignPrepared(setup: System.Setup, libs: Libs, device: Pkcs11.Device, events: seq<Event>)
    requires UnforgedRun(setup, libs, Start(device), events)
    ensures var x := Run(setup, libs, Start(device), events);
      CallsTrue(libs, x.desk.started, x.calls) && DirectProofs.CompletionsSound(libs, x.desk)
  {
    ReachableSound(setup, libs, device, events);
  }
  lemma LinkedCallSigns(setup: System.Setup, libs: Libs, x: Whole, r: Request, w: World)
    requires Sound(setup, libs, x) && Clocked(Ask(r, w)) && Unforged(setup, x, Ask(r, w))
    requires r.origin in x.m.linked && r.origin in setup.ours
    requires Serve(setup.cfg, AgentOf(x), r, Here(setup, w)).call.Some?
    ensures var hash := Serve(setup.cfg, AgentOf(x), r, Here(setup, w)).call.value.hash;
      exists session :: HandsOut(libs, x.desk.started, session, hash, w.now)
  {
    NewCallTrue(setup, libs, x, r, w);
    var session :| SignsSession(libs, x.desk.started, Calls(setup, x, r, w)[0], session);
  }

  /**
   The same said of the next request after any such run: if it comes from a linked site of
   the server and the bridge calls the token for it, the call is over the hash of the
   attributes of a session the server has started, within 60 seconds of its start.
   */
  lemma LinkedRequestSignsPrepared(setup: System.Setup, libs: Libs, device: Pkcs11.Device, events: seq<Event>,
                                   r: Request, w: World)
    requires UnforgedRun(setup, libs, Start(device), events)
    requires var x := Run(setup, libs, Start(device), events);
      Clocked(Ask(r, w)) && Unforged(setup, x, Ask(r, w)) && r.origin in x.m.linked && r.origin in setup.ours
    ensures var x := Run(setup, libs, Start(device), events);
      var call := Serve(setup.cfg, AgentOf(x), r, Here(setup, w)).call;
      call.Some? ==> exists session :: HandsOut(libs, x.desk.started, session, call.value.hash, w.now)
  {
    var x := Run(setup, libs, Start(device), events);
    ReachableSound(setup, libs, device, events);
    if Serve(setup.cfg, AgentOf(x), r, Here(setup, w)).call.Some? {
      LinkedCallSigns(setup, libs, x, r, w);
    }
  }

  /**
   What is recorded: every call of a running bridge as it was made, and every ticket with
   the secret behind it; and a restart forgets the PINs.
   */
  lemma RecordedExactly(setup: System.Setup, libs: Libs, x: Whole, e: Event)
    ensures var x' := Happen(setup, libs, x, e);
      (e.Ask? && x.m.running && !e.r.path.PairPath? ==>
       var call := Serve(setup.cfg, AgentOf(x), e.r, Here(setup, e.w)).call;
       if call.None? then x'.calls == x.calls
       else
         |x'.calls| == |x.calls| + 1 && x'.calls[..|x.calls|] == x.calls &&
         var c := x'.calls[|x.calls|];
         c.site == e.r.origin && c.now == e.w.now && c.call == call.value &&
         (c.linked <==> e.r.origin in x.m.linked && e.r.origin in setup.ours) &&
         (c.checked <==> e.r.origin in setup.ours && SecretKnown(x.m.store, setup.keychainUp, e.r.origin))) &&
      (e.Prepare? && Hex.Encode(e.session) !in x.desk.started ==>
       var ticket := Initiate(libs, x.desk, x.m.server.now, x.m.server.secret, e.document, e.certB64, e.p,
                              Hex.Encode(e.session), Hex.Encode(e.nonce)).1;
       x'.issued == x.issued + (if ticket.Some? then {Issue(x.m.server.secret, ticket.value)} else {})) &&
      (e == AtMachines(System.Restart) ==> x'.pins == map[])
  {
  }
}
