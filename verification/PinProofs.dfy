/** A potential-function argument: how many of a token's retries cached PINs can cost over a run. */
module PinProofs {
  import opened Common
  import opened PinCaches
  import opened BridgeSpec
  import opened BridgeProofs
  import Pkcs11

  // --- What is counted ---

  /** The event costs a token a retry for a PIN that came from the cache. */
  predicate CachedBurn(cfg: Config, a: Agent, e: Event) {
    var call := CallIn(cfg, a, e);
    call.Some? && call.value.cached && call.value.burned
  }

  function CertBurn(cfg: Config, a: Agent, e: Event, fingerprint: string): nat {
    if CachedBurn(cfg, a, e) && CallIn(cfg, a, e).value.fingerprint == fingerprint then 1 else 0
  }

  function TokenBurn(cfg: Config, a: Agent, e: Event, token: string): nat {
    if CachedBurn(cfg, a, e) && CallIn(cfg, a, e).value.token == token then 1 else 0
  }

  function PinChange(e: Event, token: string): nat {
    if e.ChangePin? && e.token == token then 1 else 0
  }

  function CertBurns(cfg: Config, a: Agent, events: seq<Event>, fingerprint: string): nat
    decreases |events|
  {
    if events == [] then 0
    else CertBurn(cfg, a, events[0], fingerprint) + CertBurns(cfg, Happen(cfg, a, events[0]), events[1..], fingerprint)
  }

  function TokenBurns(cfg: Config, a: Agent, events: seq<Event>, token: string): nat
    decreases |events|
  {
    if events == [] then 0
    else TokenBurn(cfg, a, events[0], token) + TokenBurns(cfg, Happen(cfg, a, events[0]), events[1..], token)
  }

  function PinChanges(events: seq<Event>, token: string): nat {
    if events == [] then 0 else PinChange(events[0], token) + PinChanges(events[1..], token)
  }

  function Final(cfg: Config, a: Agent, events: seq<Event>): Agent
    decreases |events|
  {
    if events == [] then a else Final(cfg, Happen(cfg, a, events[0]), events[1..])
  }

  // --- The potential ---

  /** A PIN is cached for the certificate that its token no longer accepts. */
  predicate StalePin(a: Agent, fingerprint: string) {
    fingerprint in a.pins && fingerprint in a.device.holder &&
    a.device.holder[fingerprint] in a.device.tokens &&
    a.pins[fingerprint] != a.device.tokens[a.device.holder[fingerprint]].pin
  }

  function Stale(a: Agent, fingerprint: string): nat {
    if StalePin(a, fingerprint) then 1 else 0
  }

  // The token that holds the certificate stays the same, and so does the certificate's place in no token.
  predicate SameHolders(a: Agent, b: Agent) {
    a.device.holder == b.device.holder && a.device.tokens.Keys == b.device.tokens.Keys
  }

  // One certificate's entry may change, to the PIN its token accepts or to nothing.
  ghost predicate OnlyEntryChanges(before: Pins, after: Pins, fingerprint: string, accepted: string) {
    (forall f :: f != fingerprint ==> Lookup(after, f) == Lookup(before, f)) &&
    (Lookup(after, fingerprint) == Lookup(before, fingerprint) ||
     Lookup(after, fingerprint) == Some(accepted) || Lookup(after, fingerprint) == None)
  }

  lemma SignWithEffect(cfg: Config, a: Agent, q: SignRequest, token: string, pin: string, w: World)
    requires token in a.device.tokens
    ensures var a', t := SignWith(cfg, a, q, token, pin, w).0, a.device.tokens[token];
      SameHolders(a, a') &&
      (forall k :: k in a.device.tokens ==> a'.device.tokens[k].pin == a.device.tokens[k].pin) &&
      OnlyEntryChanges(a.pins, a'.pins, q.expectedFingerprint, t.pin) &&
      (Pkcs11.Burns(t, pin, w.token) ==>
       pin != t.pin && q.expectedFingerprint !in a'.pins && a'.device.tokens[token].retries == t.retries - 1)
  {
    Pkcs11.SignHashEffect(a.device, token, pin, w.token);
  }

  // A request that reaches the token is one signing attempt; any other leaves cache and device alone.
  lemma CallShape(cfg: Config, a: Agent, r: Request, w: World)
    requires Proper(a.pins)
    ensures var o := Serve(cfg, a, r, w);
      if o.call.None? then o.agent.pins == a.pins && o.agent.device == a.device
      else
        r.sign.Some? &&
        var c, q := o.call.value, r.sign.value;
        c.token in a.device.tokens && Lookup(a.device.holder, q.expectedFingerprint) == Some(c.token) &&
        c == CallOf(a, q, c.token, c.hash, c.pin, w) && o.agent == SignWith(cfg, a, q, c.token, c.pin, w).0 &&
        (c.cached ==> Lookup(a.pins, q.expectedFingerprint) == Some(c.pin))
  {
  }

  /** All a request can do to the cache and the tokens: nothing, or one signing attempt on one certificate. */
  lemma RequestEffect(cfg: Config, a: Agent, r: Request, w: World)
    requires Proper(a.pins)
    ensures var o := Serve(cfg, a, r, w);
      SameHolders(a, o.agent) &&
      (forall k :: k in a.device.tokens ==> o.agent.device.tokens[k].pin == a.device.tokens[k].pin) &&
      (o.call.None? ==> o.agent.pins == a.pins && o.agent.device == a.device) &&
      (o.call.Some? ==>
       var c := o.call.value;
       c.token in a.device.tokens && Lookup(a.device.holder, c.fingerprint) == Some(c.token) &&
       (c.cached ==> Lookup(a.pins, c.fingerprint) == Some(c.pin)) &&
       OnlyEntryChanges(a.pins, o.agent.pins, c.fingerprint, a.device.tokens[c.token].pin) &&
       (c.burned ==> c.pin != a.device.tokens[c.token].pin && c.fingerprint !in o.agent.pins &&
                     o.agent.device.tokens[c.token].retries == a.device.tokens[c.token].retries - 1))
  {
    CallShape(cfg, a, r, w);
    var o := Serve(cfg, a, r, w);
    if o.call.Some? {
      SignWithEffect(cfg, a, r.sign.value, o.call.value.token, o.call.value.pin, w);
    }
  }

  lemma RequestPotential(cfg: Config, a: Agent, r: Request, w: World, fingerprint: string)
    requires Proper(a.pins) && fingerprint in a.device.holder && a.running
    ensures var e := Http(r, w);
      CertBurn(cfg, a, e, fingerprint) + Stale(Happen(cfg, a, e), fingerprint) <= Stale(a, fingerprint) &&
      SameHolders(a, Happen(cfg, a, e))
  {
    RequestEffect(cfg, a, r, w);
  }

  /** One event: a burnt retry lowers the potential of its certificate, and only a PIN change raises it. */
  lemma EventPotential(cfg: Config, a: Agent, e: Event, fingerprint: string)
    requires Proper(a.pins) && fingerprint in a.device.holder
    ensures CertBurn(cfg, a, e, fingerprint) + Stale(Happen(cfg, a, e), fingerprint) <=
            Stale(a, fingerprint) + PinChange(e, a.device.holder[fingerprint])
    ensures SameHolders(a, Happen(cfg, a, e))
  {
    if e.Http? && a.running {
      RequestPotential(cfg, a, e.r, e.w, fingerprint);
    }
  }

  /**
   Over any run, the retries a cached PIN of one certificate has cost, plus one if the
   PIN now cached is stale, never exceed the PIN changes of its token, plus one if the
   run started with a stale PIN.
   */
  lemma {:induction false} CachedBurnsBounded(cfg: Config, a: Agent, events: seq<Event>, fingerprint: string)
    requires Proper(a.pins) && fingerprint in a.device.holder
    ensures CertBurns(cfg, a, events, fingerprint) + Stale(Final(cfg, a, events), fingerprint) <=
            Stale(a, fingerprint) + PinChanges(events, a.device.holder[fingerprint])
    decreases |events|
  {
    if events == [] {
    } else {
      EventPotential(cfg, a, events[0], fingerprint);
      HappenKeepsProper(cfg, a, events[0]);
      CachedBurnsBounded(cfg, Happen(cfg, a, events[0]), events[1..], fingerprint);
    }
  }

  // --- Over all certificates of a token ---

  /** The certificates whose key pair is on the token. */
  function CertsOn(d: Pkcs11.Device, token: string): set<string> {
    set f | f in d.holder && d.holder[f] == token
  }

  function StaleOn(a: Agent, token: string): set<string> {
    set f | f in CertsOn(a.device, token) && StalePin(a, f)
  }

  lemma SubsetSize(a: set<string>, b: set<string>)
    requires a <= b
    ensures |a| <= |b|
  {
    assert b == a + (b - a);
  }

  // Without a change of its PIN, no certificate of the token goes stale.
  lemma StaleShrinks(cfg: Config, a: Agent, e: Event, token: string)
    requires Proper(a.pins) && PinChange(e, token) == 0
    ensures StaleOn(Happen(cfg, a, e), token) <= StaleOn(a, token)
  {
    CertsStay(cfg, a, e, token);
    forall f | f in StaleOn(Happen(cfg, a, e), token) ensures f in StaleOn(a, token) {
      EventPotential(cfg, a, e, f);
    }
  }

  // A retry lost to the cache takes the stale PIN out of it.
  lemma BurnFrees(cfg: Config, a: Agent, e: Event, token: string)
    requires Proper(a.pins) && TokenBurn(cfg, a, e, token) == 1
    ensures var f := CallIn(cfg, a, e).value.fingerprint;
      PinChange(e, token) == 0 && f in StaleOn(a, token) && f !in StaleOn(Happen(cfg, a, e), token)
  {
    CallIsOnItsToken(cfg, a, e);
    EventPotential(cfg, a, e, CallIn(cfg, a, e).value.fingerprint);
  }

  lemma TokenEventPotential(cfg: Config, a: Agent, e: Event, token: string)
    requires Proper(a.pins)
    ensures TokenBurn(cfg, a, e, token) + |StaleOn(Happen(cfg, a, e), token)| <=
            |StaleOn(a, token)| + PinChange(e, token) * |CertsOn(a.device, token)|
  {
    var before, after := StaleOn(a, token), StaleOn(Happen(cfg, a, e), token);
    if TokenBurn(cfg, a, e, token) == 1 {
      BurnFrees(cfg, a, e, token);
      StaleShrinks(cfg, a, e, token);
      SubsetSize(after, before - {CallIn(cfg, a, e).value.fingerprint});
    } else if PinChange(e, token) == 0 {
      StaleShrinks(cfg, a, e, token);
      SubsetSize(after, before);
    } else {
      CertsStay(cfg, a, e, token);
      SubsetSize(after, CertsOn(a.device, token));
    }
  }

  lemma CallIsOnItsToken(cfg: Config, a: Agent, e: Event)
    requires Proper(a.pins) && CallIn(cfg, a, e).Some?
    ensures Lookup(a.device.holder, CallIn(cfg, a, e).value.fingerprint) == Some(CallIn(cfg, a, e).value.token)
  {
  }

  lemma CertsStay(cfg: Config, a: Agent, e: Event, token: string)
    requires Proper(a.pins)
    ensures SameHolders(a, Happen(cfg, a, e)) && CertsOn(Happen(cfg, a, e).device, token) == CertsOn(a.device, token)
  {
    if e.Http? {
      RequestEffect(cfg, a, e.r, e.w);
    }
  }

  /**
   Summed over a token: cached PINs cost it at most one retry for each of its
   certificates and each change of its PIN.
   */
  lemma {:induction false} TokenBurnsBounded(cfg: Config, a: Agent, events: seq<Event>, token: string)
    requires Proper(a.pins)
    ensures TokenBurns(cfg, a, events, token) + |StaleOn(Final(cfg, a, events), token)| <=
            |StaleOn(a, token)| + PinChanges(events, token) * |CertsOn(a.device, token)|
    decreases |events|
  {
    if events == [] {
    } else {
      var a' := Happen(cfg, a, events[0]);
      TokenEventPotential(cfg, a, events[0], token);
      HappenKeepsProper(cfg, a, events[0]);
      TokenBurnsBounded(cfg, a', events[1..], token);
      CertsStay(cfg, a, events[0], token);
      Distribute(PinChange(events[0], token), PinChanges(events[1..], token), |CertsOn(a.device, token)|);
    }
  }

  lemma Distribute(m: int, n: int, k: int)
    ensures (m + n) * k == m * k + n * k
  {
  }

  /** A bridge just started pays only for PIN changes it lives through. */
  lemma FreshBridgeBounded(cfg: Config, a: Agent, events: seq<Event>, fingerprint: string, token: string)
    requires a.pins == map[] && fingerprint in a.device.holder && a.device.holder[fingerprint] == token
    ensures CertBurns(cfg, a, events, fingerprint) <= PinChanges(events, token)
    ensures TokenBurns(cfg, a, events, token) <= PinChanges(events, token) * |CertsOn(a.device, token)|
  {
    CachedBurnsBounded(cfg, a, events, fingerprint);
    TokenBurnsBounded(cfg, a, events, token);
    assert StaleOn(a, token) == {};
  }
}
