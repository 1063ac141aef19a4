/** The bound on cached PINs is reached: for every n some run has n PIN changes and loses n retries to the cache. */
module PinTight {
  import opened Common
  import opened KeystoreSpec
  import opened PinCaches
  import opened BridgeSpec
  import opened BridgeProofs
  import opened PinProofs
  import Hex
  import Mac
  import Pkcs11

  // A sign request from `origin` for the certificate, with or without a PIN.
  function Ask(origin: string, fingerprint: string, pin: string): Request {
    Request(POST, SignPath, origin, "", Some(SignRequest(Mac.Fields("", "", "", 0, ""), fingerprint, "", pin)), None)
  }

  // A world in which nothing but a wrong PIN fails.
  const WILLING := Pkcs11.Oracle(None, None, Pkcs11.Incorrect, Pkcs11.Ok(Pkcs11.Signature([], [])))
  const SMOOTH := World(0, Io(true, Done, Done, Done), WILLING, false, None, "")

  /**
   The certificate can be signed with from the origin, without a known secret; its
   token accepts `pin` and survives one mistake.
   */
  ghost predicate Ready(a: Agent, origin: string, fingerprint: string, token: string, pin: string) {
    a.running && Proper(a.pins) && fingerprint != "" && fingerprint !in a.pins &&
    origin != "" && origin in a.store.sites && !SecretKnown(a.store, true, origin) &&
    Pkcs11.FindCert(a.device, fingerprint) == Some(token) &&
    a.device.tokens[token].pin == pin && !a.device.tokens[token].key.OtherKey? &&
    a.device.tokens[token].retries >= 1 && a.device.tokens[token].maxRetries >= 2
  }

  // Sign with the right PIN, change it, sign again without giving one.
  function Cycle(origin: string, fingerprint: string, token: string, p: string, q: string): seq<Event> {
    [Http(Ask(origin, fingerprint, p), SMOOTH), ChangePin(token, q), Http(Ask(origin, fingerprint, ""), SMOOTH)]
  }

  function Cycles(n: nat, origin: string, fingerprint: string, token: string, p: string, q: string): seq<Event> {
    if n == 0 then []
    else Cycle(origin, fingerprint, token, p, q) + Cycles(n - 1, origin, fingerprint, token, q, p)
  }

  lemma RightPin(cfg: Config, a: Agent, origin: string, fingerprint: string, token: string, p: string)
    requires Ready(a, origin, fingerprint, token, p) && p != ""
    ensures var e := Http(Ask(origin, fingerprint, p), SMOOTH);
      var a' := Happen(cfg, a, e);
      CertBurn(cfg, a, e, fingerprint) == 0 && a'.store == a.store && a'.pins == a.pins[fingerprint := p] &&
      a'.device.holder == a.device.holder && a'.device.present == a.device.present &&
      var t := a.device.tokens[token];
      a'.device.tokens == a.device.tokens[token := t.(retries := t.maxRetries)]
  {
    assert Hex.GoDecode("") == Some([]);
  }

  lemma StaleCache(cfg: Config, a: Agent, origin: string, fingerprint: string, token: string, p: string, q: string)
    requires Ready(a.(pins := a.pins - {fingerprint}), origin, fingerprint, token, q)
    requires fingerprint in a.pins && a.pins[fingerprint] == p && p != q
    ensures var e := Http(Ask(origin, fingerprint, ""), SMOOTH);
      var a' := Happen(cfg, a, e);
      CertBurn(cfg, a, e, fingerprint) == 1 && a'.store == a.store && a'.pins == a.pins - {fingerprint} &&
      a'.device.holder == a.device.holder && a'.device.present == a.device.present &&
      var t := a.device.tokens[token];
      a'.device.tokens == a.device.tokens[token := t.(retries := t.retries - 1)]
  {
    assert Hex.GoDecode("") == Some([]);
  }

  lemma OneCycle(cfg: Config, a: Agent, origin: string, fingerprint: string, token: string, p: string, q: string)
    requires Ready(a, origin, fingerprint, token, p) && p != "" && q != "" && p != q
    ensures var es := Cycle(origin, fingerprint, token, p, q);
      var a1 := Happen(cfg, a, es[0]);
      var a2 := Happen(cfg, a1, es[1]);
      Ready(Happen(cfg, a2, es[2]), origin, fingerprint, token, q) &&
      CertBurn(cfg, a, es[0], fingerprint) + CertBurn(cfg, a1, es[1], fingerprint) +
      CertBurn(cfg, a2, es[2], fingerprint) == 1
  {
    var es := Cycle(origin, fingerprint, token, p, q);
    RightPin(cfg, a, origin, fingerprint, token, p);
    var a1 := Happen(cfg, a, es[0]);
    var a2 := Happen(cfg, a1, es[1]);
    assert a1.pins - {fingerprint} == a.pins;
    StaleCache(cfg, a2, origin, fingerprint, token, p, q);
  }

  lemma ThreeEvents(cfg: Config, a: Agent, e0: Event, e1: Event, e2: Event, rest: seq<Event>, fingerprint: string,
                    token: string)
    ensures var a1 := Happen(cfg, a, e0);
      var a2 := Happen(cfg, a1, e1);
      CertBurns(cfg, a, [e0, e1, e2] + rest, fingerprint) ==
      CertBurn(cfg, a, e0, fingerprint) + CertBurn(cfg, a1, e1, fingerprint) + CertBurn(cfg, a2, e2, fingerprint) +
      CertBurns(cfg, Happen(cfg, a2, e2), rest, fingerprint)
    ensures PinChanges([e0, e1, e2] + rest, token) ==
            PinChange(e0, token) + PinChange(e1, token) + PinChange(e2, token) + PinChanges(rest, token)
  {
    var all := [e0, e1, e2] + rest;
    assert all[1..] == [e1, e2] + rest && ([e1, e2] + rest)[1..] == [e2] + rest && ([e2] + rest)[1..] == rest;
    var a1 := Happen(cfg, a, e0);
    var a2 := Happen(cfg, a1, e1);
    assert CertBurns(cfg, a2, [e2] + rest, fingerprint) ==
           CertBurn(cfg, a2, e2, fingerprint) + CertBurns(cfg, Happen(cfg, a2, e2), rest, fingerprint);
    assert PinChanges([e2] + rest, token) == PinChange(e2, token) + PinChanges(rest, token);
  }

  /** From this bridge the run costs `n` retries of the certificate's and has `n` PIN changes. */
  ghost predicate Costs(cfg: Config, a: Agent, run: seq<Event>, fingerprint: string, token: string, n: nat) {
    CertBurns(cfg, a, run, fingerprint) == n && PinChanges(run, token) == n
  }

  lemma NoCycleCostsNothing(cfg: Config, a: Agent, fingerprint: string, token: string)
    ensures Costs(cfg, a, [], fingerprint, token, 0)
  {
  }

  // One cycle costs one retry and one PIN change, and leaves a ready bridge.
  lemma CycleCosts(cfg: Config, a: Agent, origin: string, fingerprint: string, token: string, p: string, q: string)
    returns (after: Agent)
    requires Ready(a, origin, fingerprint, token, p) && p != "" && q != "" && p != q
    ensures Ready(after, origin, fingerprint, token, q)
    ensures forall rest: seq<Event>, n: nat {:trigger Costs(cfg, after, rest, fingerprint, token, n)} ::
      Costs(cfg, after, rest, fingerprint, token, n) ==>
      Costs(cfg, a, Cycle(origin, fingerprint, token, p, q) + rest, fingerprint, token, n + 1)
  {
    var es := Cycle(origin, fingerprint, token, p, q);
    OneCycle(cfg, a, origin, fingerprint, token, p, q);
    after := Happen(cfg, Happen(cfg, Happen(cfg, a, es[0]), es[1]), es[2]);
    forall rest: seq<Event>, n: nat | Costs(cfg, after, rest, fingerprint, token, n)
      ensures Costs(cfg, a, es + rest, fingerprint, token, n + 1)
    {
      ThreeEvents(cfg, a, es[0], es[1], es[2], rest, fingerprint, token);
    }
  }

  /** From any ready bridge, n PIN changes can cost n retries: the bound admits no improvement. */
  lemma {:induction false} BoundIsReached(
    cfg: Config, a: Agent, origin: string, fingerprint: string, token: string, p: string, q: string, n: nat)
    requires Ready(a, origin, fingerprint, token, p) && p != "" && q != "" && p != q
    ensures Costs(cfg, a, Cycles(n, origin, fingerprint, token, p, q), fingerprint, token, n)
    decreases n
  {
    if n == 0 {
      NoCycleCostsNothing(cfg, a, fingerprint, token);
    } else {
      var after := CycleCosts(cfg, a, origin, fingerprint, token, p, q);
      BoundIsReached(cfg, after, origin, fingerprint, token, q, p, n - 1);
    }
  }
}
