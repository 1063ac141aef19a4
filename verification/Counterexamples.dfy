/**
 One input for each property the code does not have on all inputs; the module that
 owns the property says exactly when it holds.
 */
module Counterexamples {
  import opened Common
  import opened KeystoreSpec
  import AllowList
  import Base64
  import BridgeSpec
  import Der
  import DirectSpec
  import EndToEnd
  import KeystoreCrash
  import KeystoreHmac
  import Mac
  import PairingSpec
  import PinCaches
  import Pkcs11

  // --- Encodings ---

  /** A signature of three zero bytes does not arrive. */
  lemma {:induction false} ThreeZeroBytesMisread(signature: Bytes)
    requires |signature| == 3 && signature[0] == 0 && signature[1] == 0 && signature[2] == 0
    ensures Base64.DecodeSignature(Base64.Encode(signature)) != Some(signature)
  {
    Base64.SignatureTransportExact(signature);
    assert Base64.HexGroup(signature[0], signature[1], signature[2]);
    assert Base64.LooksLikeHex(signature[3..]);
  }

  /** Serial 0 has no octets, and serial -1 reads back as 1. */
  lemma SerialsMisread()
    ensures Der.ReadInteger(Der.IntegerBody(Der.MinBytes(Der.Magnitude(0)))) == None
    ensures Der.ReadInteger(Der.IntegerBody(Der.MinBytes(Der.Magnitude(-1)))) == Some(1)
  {
    Der.IntegerExact(1);
  }

  /** A body of 65536 bytes cannot be read back. */
  lemma LongBodyMisread(body: Bytes)
    requires |body| == 65536
    ensures Der.Read(Der.WrapBody(0x30, body)) != Some(Der.Tlv(0x30, body, []))
  {
    Der.WrapReadsBackExact(0x30, body, []);
    assert Der.WrapBody(0x30, body) + [] == Der.WrapBody(0x30, body);
  }

  /** At opposite ends of 64-bit time the skew wraps around to one second. */
  lemma SkewWraps()
    ensures Mac.Skew(-Mac.TWO63, Mac.TWO63 - 1) == 1
  {
  }

  /** An empty hash is signed under a header that announces 32 bytes. */
  lemma EmptyHashMislabelled()
    ensures Pkcs11.ReadDigestInfo(Pkcs11.Sha256DigestInfoPrefix() + []) != Some([])
  {
    Pkcs11.DigestInfoExact([]);
  }

  // --- The keystore ---

  const SMOOTH := Io(true, Done, Done, Done)
  const DOWN := Io(false, Done, Done, Done)

  function Site(url: string, token: string, registration: string): PairedSite {
    PairedSite(url, token, "", registration)
  }

  /** Pairing with "hmac:s" replaces the HMAC secret of "s". */
  lemma SecretOverwritten(s: Store)
    requires "s" in s.sites
    ensures HMACSecret(AddSite(s, Site("hmac:s", "t", ""), SMOOTH).0, true, "s") == Some("t")
  {
    assert HmacKey("s") == "hmac:s";
  }

  /** A token written while the keychain is down is hidden by the older one once it is back. */
  lemma OlderTokenResurfaces(s: Store)
    requires s.disk.keychain == map["s" := "old"]
    ensures Token(AddSite(s, Site("s", "new", ""), DOWN).0, true, "s") == Some("old")
  {
  }

  /** Removing a site while the keychain is down leaves its token there. */
  lemma RemovedTokenRemains(s: Store)
    requires s.disk.keychain == map["s" := "t"]
    ensures "s" in RemoveSite(s, "s", DOWN).0.disk.keychain
  {
  }

  /** A removal whose deletion from the file is refused brings an older token there back. */
  lemma RefusedDeletionResurfaces(s: Store)
    requires s.disk.keychain == map["s" := "new"] && LoadTokens(s.disk) == map["s" := "old"]
    ensures SecretAt(RemoveSite(s, "s", SMOOTH.(tokenWrite := Refused)).0.disk, true, "s") == Some("old")
  {
  }

  // The one site of a saved keystore, with what the keychain and the token file hold.
  function Alone(url: string, keychain: Secrets, tokens: Secrets): Store {
    var sites := map[url := Site(url, "", "")];
    Store(sites, Disk(keychain, Json(tokens), Json(sites)))
  }

  lemma AloneIsSynced(url: string, keychain: Secrets, tokens: Secrets)
    ensures KeystoreCrash.Synced(Alone(url, keychain, tokens))
  {
    assert Serialised(map[url := Site(url, "", "")]) == map[url := Site(url, "", "")];
  }

  /** Removing a site whose newer token hides an older one can be stopped where the older one is back. */
  lemma InterruptedRemoval()
    ensures var s := Alone("s", map["s" := "new"], map["s" := "old"]);
      exists left :: KeystoreCrash.CrashLeaves(s.disk, KeystoreCrash.RemoveWrites(s, "s", true), left) &&
                     !KeystoreCrash.CrashSafe(s, RemoveSite(s, "s", SMOOTH).0, true, left)
  {
    AloneIsSynced("s", map["s" := "new"], map["s" := "old"]);
    KeystoreCrash.ShadowedRemoveUnsafe(Alone("s", map["s" := "new"], map["s" := "old"]), "s", true);
  }

  /** It brings an older HMAC secret back in the same way. */
  lemma InterruptedRemovalOfSecret()
    ensures var s := Alone("s", map[HmacKey("s") := "new"], map[HmacKey("s") := "old"]);
      exists left :: KeystoreCrash.CrashLeaves(s.disk, KeystoreCrash.RemoveWrites(s, "s", true), left) &&
                     !KeystoreHmac.SecretSafe(s, RemoveSite(s, "s", SMOOTH).0, true, left)
  {
    AloneIsSynced("s", map[HmacKey("s") := "new"], map[HmacKey("s") := "old"]);
    KeystoreHmac.RemoveSecretCrashExact(Alone("s", map[HmacKey("s") := "new"], map[HmacKey("s") := "old"]), "s", true);
  }

  /** A crash while one site's secret is written, with the keychain down, leaves another site's requests unchecked. */
  lemma InterruptedSecretUnchecks()
    ensures var s := Alone("a", map[], map[HmacKey("a") := "k"]);
      KeystoreHmac.CrashUnchecks(s, KeystoreHmac.SetWrites(s, "b", "new", false), false, "a")
  {
    AloneIsSynced("a", map[], map[HmacKey("a") := "k"]);
    KeystoreHmac.SetCrashUnchecksExactly(Alone("a", map[], map[HmacKey("a") := "k"]), "b", "new", false, "a");
  }

  /** After a second pairing whose save fails, a restart pairs the new token with the old registration. */
  lemma RestartMixesPairings(s: Store)
    ensures var s1 := AddSite(s, Site("s", "t1", "r1"), SMOOTH).0;
      var s2 := AddSite(s1, Site("s", "t2", "r2"), SMOOTH.(metaWrite := Refused)).0;
      Open(s2.disk).Some? && Token(Open(s2.disk).value, true, "s") == Some("t2") &&
      "s" in Open(s2.disk).value.sites && Open(s2.disk).value.sites["s"].agentRegistration == "r1"
  {
  }

  // The file is the only tier, and it is cut short.
  const CUT := Io(false, CutShort, CutShort, Done)

  /**
   While the keychain is down, pairing with a second site on a full disk takes the
   first one's token, and with its HMAC secret the check on its requests.
   */
  lemma FullDiskUnpairs(s: Store)
    requires "a" in s.sites && LoadTokens(s.disk) == map["a" := "t", HmacKey("a") := "k"]
    ensures Token(s, false, "a") == Some("t") && HMACSecret(s, false, "a") == Some("k")
    ensures var (s', ok) := AddSite(s, Site("b", "u", ""), CUT);
      !ok && Token(s', false, "a") == None && HMACSecret(s', false, "a") == Some("")
  {
    assert HmacKey("a") == "hmac:a";
  }

  /** A page can be told that it is paired while its token is gone: the secret's write cut the file short. */
  lemma PairedWithoutToken(cfg: BridgeSpec.Config, s: Store)
    ensures var answer, body := BridgeSpec.PairingReply("t", "r", "k"), BridgeSpec.PairRequest("c", "s");
      var w := At(0).(io := Io(false, Done, CutShort, Done), confirm := true, pairing := Some(answer));
      var r := BridgeSpec.Request(BridgeSpec.POST, BridgeSpec.PairPath, "", "", None, Some(body));
      var o := BridgeSpec.Serve(cfg, BridgeSpec.Agent(true, s, map[], DEVICE), r, w);
      o.reply.Paired? && Token(o.agent.store, false, "s") == None
  {
  }

  /** A save cut short leaves a bridge that does not start again. */
  lemma CutSaveStopsRestart(s: Store)
    ensures Open(AddSite(s, Site("s", "t", ""), SMOOTH.(metaWrite := CutShort)).0.disk) == None
  {
  }

  /** After a first pairing whose save fails, a restart leaves a token without a site. */
  lemma RestartLeavesOrphan(s: Store)
    requires s.disk.metaFile == Absent
    ensures var s' := AddSite(s, Site("s", "t", "r"), SMOOTH.(metaWrite := Refused)).0;
      Open(s'.disk).Some? && "s" !in Open(s'.disk).value.sites && SecretAt(s'.disk, true, "s") == Some("t")
  {
  }

  // --- Signing ---

  const JOB := EndToEnd.Job(1000, DirectSpec.Document("", "", ""), "", DirectSpec.Preparation([], [1], 0, 0), [1], [2])
  const PAIRED := Store(map["a" := Site("a", "", "")], Disk(map[HmacKey("a") := "k"], Absent, Absent))
  const NO_SIGNATURE := Pkcs11.Signature([], [])
  const DEVICE := EndToEnd.DeviceFor("fp")

  function Ticket(libs: DirectSpec.Libs): Option<DirectSpec.Ticket> {
    EndToEnd.Begin(libs, DirectSpec.EMPTY_DESK, "k", JOB).1
  }

  function Presented(ticket: DirectSpec.Ticket): BridgeSpec.Request {
    EndToEnd.Present("a", ticket, "fp")
  }

  function At(now: int): BridgeSpec.World {
    EndToEnd.Willing(true, now, NO_SIGNATURE)
  }

  /** One ticket, presented at once and again 60 seconds later, is signed twice; one second more, and it is refused. */
  lemma TicketSignedTwice(cfg: BridgeSpec.Config, libs: DirectSpec.Libs)
    requires EndToEnd.Authenticates(cfg, libs)
    ensures Ticket(libs).Some?
    ensures var bridge := BridgeSpec.Agent(true, PAIRED, map[], DEVICE);
      var r := Presented(Ticket(libs).value);
      var first := BridgeSpec.Serve(cfg, bridge, r, At(1000));
      var second := BridgeSpec.Serve(cfg, first.agent, r, At(1060));
      first.reply.Signed? && second.reply.Signed? && first.call.Some? && second.call.Some? &&
      first.call.value.hash == second.call.value.hash == EndToEnd.HashOf(libs, JOB) &&
      BridgeSpec.Serve(cfg, second.agent, r, At(1061)).call.None?
  {
    TicketIssued(libs);
    var bridge, r := BridgeSpec.Agent(true, PAIRED, map[], DEVICE), Presented(Ticket(libs).value);
    Presents(cfg, libs, bridge, 1000);
    Answers(cfg, bridge, r, At(1000));
    var once := BridgeSpec.Serve(cfg, bridge, r, At(1000)).agent;
    Presents(cfg, libs, once, 1060);
    Answers(cfg, once, r, At(1060));
    Presents(cfg, libs, BridgeSpec.Serve(cfg, once, r, At(1060)).agent, 1061);
  }

  // The bridge still has its secret and its token, and no empty PIN.
  ghost predicate Ready(a: BridgeSpec.Agent) {
    a.store == PAIRED && a.device == DEVICE && PinCaches.Proper(a.pins)
  }

  lemma TicketIssued(libs: DirectSpec.Libs)
    ensures Ticket(libs).Some?
  {
    assert Base64.PyDecode("").Some?;
  }

  lemma SecretIsK()
    ensures "a" in PAIRED.sites && HMACSecret(PAIRED, true, "a") == Some("k")
  {
  }

  lemma Presents(cfg: BridgeSpec.Config, libs: DirectSpec.Libs, a: BridgeSpec.Agent, now: int)
    requires EndToEnd.Authenticates(cfg, libs) && Ticket(libs).Some?
    requires Ready(a) && 1000 <= now < 2000
    ensures var call := BridgeSpec.Serve(cfg, a, Presented(Ticket(libs).value), At(now)).call;
      (call.Some? <==> now <= 1060) && (call.Some? ==> call.value.hash == EndToEnd.HashOf(libs, JOB))
  {
    var ticket := Ticket(libs).value;
    SecretIsK();
    assert cfg.mac("k", Mac.ServerPayload(ticket.fields)) != [];
    EndToEnd.TicketReachesTokenExactly(cfg, libs, DirectSpec.EMPTY_DESK, a, Presented(ticket), At(now), "a", JOB, "k");
  }

  // The token signs, and keeps its three retries.
  lemma Answers(cfg: BridgeSpec.Config, a: BridgeSpec.Agent, r: BridgeSpec.Request, w: BridgeSpec.World)
    requires Ready(a) && r.path.SignPath? && r.sign.Some? && r.sign.value.pin == "pin" && w.token == At(0).token
    requires BridgeSpec.Serve(cfg, a, r, w).call.Some?
    ensures BridgeSpec.Serve(cfg, a, r, w).reply.Signed? && Ready(BridgeSpec.Serve(cfg, a, r, w).agent)
  {
    EndToEnd.TokenSigns(cfg, a, r, w);
    EndToEnd.SigningKeeps(cfg, a, r, w);
    assert Pkcs11.SignHash(DEVICE, "token", "pin", w.token).0 == DEVICE;
  }

  // --- The server ---

  /** A code whose registration the database refuses is gone without one. */
  lemma FailedInsertSpendsCode(hash: string -> string, s: PairingSpec.Server, code: string, fp: string,
          draw: PairingSpec.Draw)
    requires PairingSpec.Live(s, code)
    ensures var (s', grant) := PairingSpec.Validate(hash, s, code, fp, draw, PairingSpec.InsertFails);
      grant.None? && s'.registrations == s.registrations && !PairingSpec.Live(s', code)
  {
  }

  /** A secret that cannot be stored leaves a registration nobody was told of. */
  lemma FailedSecretLeavesRegistration(hash: string -> string, s: PairingSpec.Server, code: string, fp: string,
          draw: PairingSpec.Draw)
    requires PairingSpec.Live(s, code)
    ensures var (s', grant) := PairingSpec.Validate(hash, s, code, fp, draw, PairingSpec.SecretFails);
      grant.None? && draw.name in s'.registrations && s'.secret == s.secret
  {
  }

  /** Two certificates with one fingerprint: the order of the list decides about the user. */
  lemma OrderMatters()
    ensures var certs := map["a" := AllowList.Certificate("X", ["u"]), "b" := AllowList.Certificate("X", ["v"])];
      AllowList.SearchApproval(certs, ["a", "b"], "X", "u").Accepted? &&
      !AllowList.SearchApproval(certs, ["b", "a"], "X", "u").Accepted?
  {
    assert Upper("X")[0] == 'X';
    assert Upper("X") == "X";
  }

  /** Without a fingerprint the Administrator may sign but not approve. */
  lemma AdministratorRefused(certs: AllowList.Certificates, table: AllowList.Table)
    ensures AllowList.VerifySigning(certs, table, "Administrator", "", "D").Accepted?
    ensures !AllowList.VerifyApproval(certs, table, "Administrator", "", "D").Accepted?
  {
  }

  /** An approval requires no certificate of the Administrator, and refuses one that is not on the list. */
  lemma AdministratorNotRequired()
    ensures var table := map["D" := AllowList.Settings([], ["c"])];
      !AllowList.IsRequired(table, "Administrator", "D") &&
      !AllowList.VerifyApproval(map[], table, "Administrator", "A", "D").Accepted?
  {
  }

  /** A device that demands certificates of others requires none of this user and accepts none. */
  lemma NothingRequiredNothingAccepted(certs: AllowList.Certificates, order: seq<string>, fingerprint: string)
    requires fingerprint != ""
    ensures var device := Some(AllowList.DeviceMap(true, ["other"], [], ["c"]));
      !AllowList.IsRequiredAtLogin(device, "user", {}) &&
      !AllowList.VerifyAtLogin(certs, order, device, "user", {}, fingerprint, true).Accepted?
  {
  }

  /** A device with a list requires no certificate of the Administrator, and refuses one that is not on the list. */
  lemma AdministratorCheckedAtLogin()
    ensures var device := Some(AllowList.DeviceMap(true, [], [], ["c"]));
      !AllowList.IsRequiredAtLogin(device, "Administrator", {}) &&
      !AllowList.VerifyAtLogin(map[], [], device, "Administrator", {}, "A", true).Accepted?
  {
  }
}
