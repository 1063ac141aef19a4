/** What the two-tier keystore promises: over every run, restarts and failing writes included, it is a plain map. */
module KeystoreProofs {
  import opened Common
  import opened KeystoreSpec

  // --- Keys ---

  lemma HmacKeys(a: string, b: string)
    ensures HmacKey(a) == HmacKey(b) <==> a == b
    ensures HasPrefix(HmacKey(a), HMAC_PREFIX) && HmacKey(a) != a
  {
  }

  /** Sites whose URL cannot be confused with the key of another site's HMAC secret. */
  predicate PlainUrl(url: string) {
    !HasPrefix(url, HMAC_PREFIX)
  }

  lemma PlainUrlsAreNoHmacKeys(url: string, other: string)
    requires PlainUrl(url)
    ensures url != HmacKey(other)
  {
  }

  // --- One secret at a time ---

  lemma PutThenRead(d: Disk, up: bool, write: WriteResult, key: string, secret: string, k: string)
    ensures var (d', ok) := PutSecret(d, up, write, key, secret);
      ok == (up || write.Done?) && d'.metaFile == d.metaFile &&
      SecretAt(d', up, k) ==
        if k == key && (up || write.Lands()) then Some(secret)
        else if !up && write.CutShort? then None
        else SecretAt(d, up, k)
  {
  }

  // A deletion that rewrites the file may cut it short.
  predicate CutsFile(d: Disk, write: WriteResult, key: string) {
    write.CutShort? && key in LoadTokens(d) && LoadTokens(d) - {key} != map[]
  }

  lemma DropFileThenRead(d: Disk, write: WriteResult, key: string, k: string)
    ensures var d' := DropFromFile(d, write, key);
      d'.metaFile == d.metaFile && d'.keychain == d.keychain &&
      Lookup(LoadTokens(d'), k) ==
        if CutsFile(d, write, key) || (k == key && write.Lands()) then None else Lookup(LoadTokens(d), k)
  {
  }

  // --- The plain map ---

  /** One map for each kind of secret. */
  datatype Vault = Vault(tokens: Secrets, secrets: Secrets)

  const NO_SECRETS := Vault(map[], map[])

  /**
   A keystore without tiers: whether it runs, the paired sites, the last saved copy of
   them if it can be read, and the secrets.
   */
  datatype Plain = Plain(running: bool, sites: Sites, saved: Option<Sites>, vault: Vault)

  /** Operations on the keystore, with the ways its file writes end. */
  datatype Op =
    | Add(site: PairedSite, tokenWrite: WriteResult, metaWrite: WriteResult)
    | SetSecret(url: string, secret: string, hmacWrite: WriteResult)
    | Remove(url: string, tokenWrite: WriteResult, hmacWrite: WriteResult, metaWrite: WriteResult)
    | GetToken(url: string)
    | GetSecret(url: string)
    | Restart

  datatype Answer = Stored(ok: bool) | Found(secret: Option<string>) | Opened(ok: bool) | NotRunning

  /** The bridge process: with its keystore in memory, or stopped because the metadata did not parse. */
  datatype Process = Running(store: Store) | Stopped(disk: Disk)

  function Step(q: Process, up: bool, op: Op): (Process, Answer) {
    if q.Stopped? then (q, if op.Restart? then Opened(false) else NotRunning)
    else if op.Restart? then
      var reopened := Open(q.store.disk);
      if reopened.Some? then (Running(reopened.value), Opened(true)) else (Stopped(q.store.disk), Opened(false))
    else
      var (s, a) := Act(q.store, up, op);
      (Running(s), a)
  }

  function Act(s: Store, up: bool, op: Op): (Store, Answer) {
    match op
    case Add(site, tokenWrite, metaWrite) =>
      var (s', ok) := AddSite(s, site, Io(up, tokenWrite, Done, metaWrite));
      (s', Stored(ok))
    case SetSecret(url, secret, hmacWrite) =>
      var (s', ok) := SetHMACSecret(s, url, secret, Io(up, Done, hmacWrite, Done));
      (s', Stored(ok))
    case Remove(url, tokenWrite, hmacWrite, metaWrite) =>
      var (s', ok) := RemoveSite(s, url, Io(up, tokenWrite, hmacWrite, metaWrite));
      (s', Stored(ok))
    case GetToken(url) => (s, Found(Token(s, up, url)))
    case GetSecret(url) => (s, Found(HMACSecret(s, up, url)))
    case Restart => (s, NotRunning)
  }

  // One file holds all secrets while the keychain is down, so a write cut short loses all of them.
  function Put(v: Vault, up: bool, write: WriteResult, changed: Vault): Vault {
    if up || write.Lands() then changed else if write.CutShort? then NO_SECRETS else v
  }

  // The last secret goes with the file, which cannot be cut short.
  function Erase(v: Vault, up: bool, write: WriteResult, present: bool, changed: Vault): Vault {
    if up then changed
    else if !present || (changed == NO_SECRETS && !write.Lands()) then v
    else Put(v, up, write, changed)
  }

  function WithoutToken(v: Vault, url: string): Vault {
    v.(tokens := v.tokens - {url})
  }

  function WithoutSecret(v: Vault, url: string): Vault {
    v.(secrets := v.secrets - {url})
  }

  function EraseToken(v: Vault, up: bool, url: string, write: WriteResult): Vault {
    Erase(v, up, write, url in v.tokens, WithoutToken(v, url))
  }

  function EraseSecret(v: Vault, up: bool, url: string, write: WriteResult): Vault {
    Erase(v, up, write, url in v.secrets, WithoutSecret(v, url))
  }

  function SavedAfter(saved: Option<Sites>, sites: Sites, write: WriteResult): Option<Sites> {
    if write.Lands() then Some(sites) else if write.CutShort? then None else saved
  }

  function PlainStep(p: Plain, up: bool, op: Op): (Plain, Answer) {
    if !p.running then (p, if op.Restart? then Opened(false) else NotRunning)
    else
      match op
      case Add(site, tokenWrite, metaWrite) =>
        var added := p.vault.(tokens := p.vault.tokens[site.siteURL := site.siteToken]);
        var vault := if site.siteToken == "" then p.vault else Put(p.vault, up, tokenWrite, added);
        if site.siteToken != "" && !up && !tokenWrite.Done? then (p.(vault := vault), Stored(false))
        else
          var sites := p.sites[site.siteURL := site.(siteToken := "")];
          (Plain(true, sites, SavedAfter(p.saved, sites, metaWrite), vault), Stored(metaWrite.Done?))
      case SetSecret(url, secret, hmacWrite) =>
        if secret == "" then (p, Stored(true))
        else (p.(vault := Put(p.vault, up, hmacWrite, p.vault.(secrets := p.vault.secrets[url := secret]))),
              Stored(up || hmacWrite.Done?))
      case Remove(url, tokenWrite, hmacWrite, metaWrite) =>
        var vault := EraseSecret(EraseToken(p.vault, up, url, tokenWrite), up, url, hmacWrite);
        (Plain(true, p.sites - {url}, SavedAfter(p.saved, p.sites - {url}, metaWrite), vault), Stored(metaWrite.Done?))
      case GetToken(url) => (p, Found(if url in p.sites then Lookup(p.vault.tokens, url) else None))
      case GetSecret(url) =>
        var secret := if url in p.vault.secrets then p.vault.secrets[url] else "";
        (p, Found(if url in p.sites then Some(secret) else None))
      case Restart =>
        if p.saved.Some? then (p.(sites := p.saved.value), Opened(true)) else (p.(running := false), Opened(false))
  }

  predicate PlainOp(op: Op) {
    match op
    case Add(site, _, _) => PlainUrl(site.siteURL)
    case Remove(url, _, _, _) => PlainUrl(url)
    case _ => true
  }

  // --- What the store and the plain map have in common ---

  /** Entries are filed under their own URL, carry no token, and have plain URLs. */
  ghost predicate WellFiled(sites: Sites) {
    forall url :: url in sites ==> sites[url].siteURL == url && sites[url].siteToken == "" && PlainUrl(url)
  }

  /** The vault says what the tiers hold. */
  ghost predicate Holds(d: Disk, up: bool, v: Vault) {
    (forall url :: PlainUrl(url) ==> SecretAt(d, up, url) == Lookup(v.tokens, url)) &&
    (forall url :: SecretAt(d, up, HmacKey(url)) == Lookup(v.secrets, url)) &&
    (forall url :: url in v.tokens ==> PlainUrl(url))
  }

  ghost predicate Filed(d: Disk, sites: Sites, saved: Option<Sites>) {
    WellFiled(sites) && (saved.Some? ==> WellFiled(saved.value)) &&
    Open(d) == if saved.Some? then Some(Store(saved.value, d)) else None
  }

  ghost predicate Refines(q: Process, up: bool, p: Plain) {
    if q.Stopped? then !p.running
    else
      p.running && q.store.sites == p.sites && Filed(q.store.disk, p.sites, p.saved) && Holds(q.store.disk, up, p.vault)
  }

  lemma SaveFiles(s: Store, saved: Option<Sites>, write: WriteResult)
    requires WellFiled(s.sites) && (saved.Some? ==> WellFiled(saved.value))
    requires Open(s.disk) == if saved.Some? then Some(Store(saved.value, s.disk)) else None
    ensures Filed(Save(s, write).disk, s.sites, SavedAfter(saved, s.sites, write))
  {
    assert Serialised(s.sites) == s.sites;
  }

  lemma SaveHolds(s: Store, up: bool, v: Vault, write: WriteResult)
    ensures Holds(Save(s, write).disk, up, v) <==> Holds(s.disk, up, v)
  {
    forall key ensures SecretAt(Save(s, write).disk, up, key) == SecretAt(s.disk, up, key) {
    }
  }

  lemma PutTokenHolds(d: Disk, up: bool, write: WriteResult, url: string, token: string, v: Vault)
    requires Holds(d, up, v) && PlainUrl(url)
    ensures Holds(PutSecret(d, up, write, url, token).0, up, Put(v, up, write, v.(tokens := v.tokens[url := token])))
  {
    forall k ensures SecretAt(PutSecret(d, up, write, url, token).0, up, k) ==
        if k == url && (up || write.Lands()) then Some(token)
        else if !up && write.CutShort? then None else SecretAt(d, up, k)
    {
      PutThenRead(d, up, write, url, token, k);
    }
    forall u ensures HmacKey(u) != url {
      PlainUrlsAreNoHmacKeys(url, u);
    }
  }

  lemma PutSecretHolds(d: Disk, up: bool, write: WriteResult, url: string, secret: string, v: Vault)
    requires Holds(d, up, v)
    ensures var v' := v.(secrets := v.secrets[url := secret]);
      Holds(PutSecret(d, up, write, HmacKey(url), secret).0, up, Put(v, up, write, v'))
  {
    forall k ensures SecretAt(PutSecret(d, up, write, HmacKey(url), secret).0, up, k) ==
        if k == HmacKey(url) && (up || write.Lands()) then Some(secret)
        else if !up && write.CutShort? then None else SecretAt(d, up, k)
    {
      PutThenRead(d, up, write, HmacKey(url), secret, k);
    }
    forall u ensures (PlainUrl(u) ==> u != HmacKey(url)) && (HmacKey(u) == HmacKey(url) <==> u == url) {
      HmacKeys(u, url);
    }
  }

  // --- Erasing from the file, while it is the only tier ---

  lemma EmptyExactly(d: Disk, v: Vault)
    requires Holds(d, false, v)
    ensures LoadTokens(d) == map[] <==> v == NO_SECRETS
  {
    if LoadTokens(d) != map[] {
      var key :| key in LoadTokens(d);
      assert SecretAt(d, false, key).Some?;
      if !PlainUrl(key) {
        assert key == HmacKey(key[5..]);
      }
    } else {
      forall url ensures url !in v.tokens && url !in v.secrets {
        assert SecretAt(d, false, url).None? && SecretAt(d, false, HmacKey(url)).None?;
      }
      assert v.tokens == map[] && v.secrets == map[];
    }
  }

  function FileOf(d: Disk, tokens: Secrets): Disk {
    d.(tokenFile := Json(tokens))
  }

  lemma FileDrop(d: Disk, write: WriteResult, key: string, v: Vault, present: bool, changed: Vault)
    requires Holds(d, false, v) && (present <==> key in LoadTokens(d))
    requires Holds(FileOf(d, LoadTokens(d) - {key}), false, changed)
    ensures Holds(DropFromFile(d, write, key), false, Erase(v, false, write, present, changed))
  {
    EmptyExactly(FileOf(d, LoadTokens(d) - {key}), changed);
    var d' := DropFromFile(d, write, key);
    if !present {
      assert d' == d;
    } else if write.Lands() {
      SameSecrets(FileOf(d, LoadTokens(d) - {key}), d', changed);
    } else if CutsFile(d, write, key) {
      forall k ensures SecretAt(d', false, k).None? {
      }
    } else {
      assert d' == d;
    }
  }

  // What the file says does not depend on whether it is there when it is empty.
  lemma SameSecrets(d: Disk, d': Disk, v: Vault)
    requires Holds(d, false, v) && LoadTokens(d) == LoadTokens(d')
    ensures Holds(d', false, v)
  {
    forall k ensures SecretAt(d', false, k) == SecretAt(d, false, k) {
    }
  }

  lemma DropTokenHolds(d: Disk, write: WriteResult, url: string, v: Vault)
    requires Holds(d, false, v) && PlainUrl(url)
    ensures Holds(DropFromFile(d, write, url), false, EraseToken(v, false, url, write))
  {
    assert SecretAt(d, false, url) == Lookup(v.tokens, url);
    forall k
      ensures SecretAt(FileOf(d, LoadTokens(d) - {url}), false, k) == if k == url then None else SecretAt(d, false, k)
    {
    }
    forall u ensures HmacKey(u) != url {
      PlainUrlsAreNoHmacKeys(url, u);
    }
    FileDrop(d, write, url, v, url in v.tokens, WithoutToken(v, url));
  }

  lemma DropSecretHolds(d: Disk, write: WriteResult, url: string, v: Vault)
    requires Holds(d, false, v)
    ensures Holds(DropFromFile(d, write, HmacKey(url)), false, EraseSecret(v, false, url, write))
  {
    assert SecretAt(d, false, HmacKey(url)) == Lookup(v.secrets, url);
    forall k ensures SecretAt(FileOf(d, LoadTokens(d) - {HmacKey(url)}), false, k) ==
        if k == HmacKey(url) then None else SecretAt(d, false, k)
    {
    }
    forall u ensures (PlainUrl(u) ==> u != HmacKey(url)) && (HmacKey(u) == HmacKey(url) <==> u == url) {
      HmacKeys(u, url);
    }
    FileDrop(d, write, HmacKey(url), v, url in v.secrets, WithoutSecret(v, url));
  }

  // --- Erasing from both tiers ---

  lemma FileAfterDrop(d: Disk, write: WriteResult, key: string)
    ensures var d', tokens := DropFromFile(d, write, key), LoadTokens(d);
      d'.keychain == d.keychain && d'.metaFile == d.metaFile &&
      LoadTokens(d') == if CutsFile(d, write, key) then map[] else if write.Lands() then tokens - {key} else tokens
  {
    assert key !in LoadTokens(d) ==> LoadTokens(d) - {key} == LoadTokens(d);
  }

  // One of a removal's two rewrites of the file is cut short.
  predicate RemovalCuts(d: Disk, url: string, io: Io) {
    CutsFile(d, io.tokenWrite, url) || CutsFile(DropFromFile(d, io.tokenWrite, url), io.hmacWrite, HmacKey(url))
  }

  /**
   Under a keychain that is up, the file holds nothing of the site that stays there, and
   nothing of other sites that goes and is not in the keychain as well.
   */
  predicate Erasable(d: Disk, url: string, io: Io) {
    var tokens := LoadTokens(d);
    if !io.keychainUp then true
    else if RemovalCuts(d, url, io) then forall k :: k in tokens ==> k == url || k == HmacKey(url) || k in d.keychain
    else (url in tokens ==> io.tokenWrite.Lands()) && (HmacKey(url) in tokens ==> io.hmacWrite.Lands())
  }

  lemma FileAfterRemoval(d: Disk, url: string, io: Io, k: string)
    ensures Lookup(LoadTokens(RemoveSecrets(d, url, io)), k) ==
            if RemovalCuts(d, url, io) || (k == url && io.tokenWrite.Lands()) ||
               (k == HmacKey(url) && io.hmacWrite.Lands())
            then None else Lookup(LoadTokens(d), k)
  {
    var d1 := DropFromKeychain(DropFromKeychain(d, io.keychainUp, url), io.keychainUp, HmacKey(url));
    FileAfterDrop(d, io.tokenWrite, url);
    FileAfterDrop(d1, io.tokenWrite, url);
    DropFileThenRead(d1, io.tokenWrite, url, k);
    DropFileThenRead(DropFromFile(d1, io.tokenWrite, url), io.hmacWrite, HmacKey(url), k);
  }

  lemma KeychainAfterRemoval(d: Disk, url: string, io: Io)
    requires io.keychainUp
    ensures RemoveSecrets(d, url, io).keychain == d.keychain - {url, HmacKey(url)}
  {
    var d1 := DropFromKeychain(DropFromKeychain(d, true, url), true, HmacKey(url));
    FileAfterDrop(d1, io.tokenWrite, url);
    FileAfterDrop(DropFromFile(d1, io.tokenWrite, url), io.hmacWrite, HmacKey(url));
    assert d.keychain - {url} - {HmacKey(url)} == d.keychain - {url, HmacKey(url)};
  }

  // What the plain map expects a read to find after a removal.
  function Left(d: Disk, url: string, k: string): Option<string> {
    if k == url || k == HmacKey(url) then None else SecretAt(d, true, k)
  }

  lemma RemoveThenRead(d: Disk, url: string, io: Io, k: string)
    requires io.keychainUp && Erasable(d, url, io)
    ensures SecretAt(RemoveSecrets(d, url, io), true, k) == Left(d, url, k)
  {
    KeychainAfterRemoval(d, url, io);
    FileAfterRemoval(d, url, io, k);
  }

  lemma InerasableShows(d: Disk, url: string, io: Io) returns (k: string)
    requires io.keychainUp && !Erasable(d, url, io)
    ensures SecretAt(RemoveSecrets(d, url, io), true, k) != Left(d, url, k)
  {
    var tokens := LoadTokens(d);
    KeychainAfterRemoval(d, url, io);
    HmacKeys(url, url);
    if RemovalCuts(d, url, io) {
      k :| k in tokens && k != url && k != HmacKey(url) && k !in d.keychain;
    } else {
      k := if url in tokens && !io.tokenWrite.Lands() then url else HmacKey(url);
    }
    FileAfterRemoval(d, url, io, k);
  }

  lemma TokenAfterRemoval(d: Disk, url: string, tokens: Secrets, u: string)
    requires PlainUrl(u) && SecretAt(d, true, u) == Lookup(tokens, u)
    ensures Left(d, url, u) == Lookup(tokens - {url}, u)
  {
    PlainUrlsAreNoHmacKeys(u, url);
  }

  lemma SecretAfterRemoval(d: Disk, url: string, secrets: Secrets, u: string)
    requires PlainUrl(url) && SecretAt(d, true, HmacKey(u)) == Lookup(secrets, u)
    ensures Left(d, url, HmacKey(u)) == Lookup(secrets - {url}, u)
  {
    PlainUrlsAreNoHmacKeys(url, u);
    HmacKeys(u, url);
  }

  // The vault without the site says what the plain map expects.
  lemma LeftIsPlain(d: Disk, url: string, v: Vault)
    requires Holds(d, true, v) && PlainUrl(url)
    ensures forall u :: PlainUrl(u) ==> Left(d, url, u) == Lookup(v.tokens - {url}, u)
    ensures forall u :: Left(d, url, HmacKey(u)) == Lookup(v.secrets - {url}, u)
  {
    forall u | PlainUrl(u) ensures Left(d, url, u) == Lookup(v.tokens - {url}, u) {
      TokenAfterRemoval(d, url, v.tokens, u);
    }
    forall u ensures Left(d, url, HmacKey(u)) == Lookup(v.secrets - {url}, u) {
      SecretAfterRemoval(d, url, v.secrets, u);
    }
  }

  lemma RemoveHoldsUp(d: Disk, url: string, io: Io, v: Vault)
    requires io.keychainUp && Holds(d, true, v) && PlainUrl(url)
    ensures Holds(RemoveSecrets(d, url, io), true, Vault(v.tokens - {url}, v.secrets - {url})) <==> Erasable(d, url, io)
  {
    LeftIsPlain(d, url, v);
    if Erasable(d, url, io) {
      forall k ensures SecretAt(RemoveSecrets(d, url, io), true, k) == Left(d, url, k) {
        RemoveThenRead(d, url, io, k);
      }
    } else {
      var k := InerasableShows(d, url, io);
      assert !PlainUrl(k) ==> k == HmacKey(k[5..]);
    }
  }

  lemma RemoveHoldsDown(d: Disk, url: string, io: Io, v: Vault)
    requires !io.keychainUp && Holds(d, false, v) && PlainUrl(url)
    ensures var v' := EraseSecret(EraseToken(v, false, url, io.tokenWrite), false, url, io.hmacWrite);
      Holds(RemoveSecrets(d, url, io), false, v')
  {
    DropTokenHolds(d, io.tokenWrite, url, v);
    DropSecretHolds(DropFromFile(d, io.tokenWrite, url), io.hmacWrite, url, EraseToken(v, false, url, io.tokenWrite));
  }

  lemma RemoveHolds(d: Disk, url: string, io: Io, v: Vault)
    requires Holds(d, io.keychainUp, v) && PlainUrl(url)
    ensures var v' := EraseSecret(EraseToken(v, io.keychainUp, url, io.tokenWrite), io.keychainUp, url, io.hmacWrite);
      Holds(RemoveSecrets(d, url, io), io.keychainUp, v') <==> Erasable(d, url, io)
  {
    if io.keychainUp {
      RemoveHoldsUp(d, url, io, v);
    } else {
      RemoveHoldsDown(d, url, io, v);
    }
  }

  lemma RemoveKeepsMetadata(d: Disk, url: string, io: Io)
    ensures RemoveSecrets(d, url, io).metaFile == d.metaFile
  {
  }

  // --- Refinement over whole runs ---

  lemma StoreRefines(s: Store, up: bool, sites: Sites, saved: Option<Sites>, v: Vault, write: WriteResult)
    requires s.sites == sites && WellFiled(sites) && (saved.Some? ==> WellFiled(saved.value))
    requires Open(s.disk) == if saved.Some? then Some(Store(saved.value, s.disk)) else None
    ensures Refines(Running(Save(s, write)), up, Plain(true, sites, SavedAfter(saved, sites, write), v)) <==>
            Holds(s.disk, up, v)
  {
    SaveFiles(s, saved, write);
    SaveHolds(s, up, v, write);
  }

  // The entry goes in and is saved, once the token's part is done.
  lemma EntryRefines(s: Store, up: bool, p: Plain, site: PairedSite, write: WriteResult)
    requires Refines(Running(s), up, p) && PlainUrl(site.siteURL)
    ensures var sites := p.sites[site.siteURL := site.(siteToken := "")];
      var p' := Plain(true, sites, SavedAfter(p.saved, sites, write), p.vault);
      Refines(Running(Save(Store(sites, s.disk), write)), up, p')
  {
    var sites := s.sites[site.siteURL := site.(siteToken := "")];
    StoreRefines(Store(sites, s.disk), up, sites, p.saved, p.vault, write);
  }

  // The token's part.
  lemma TokenRefines(s: Store, up: bool, p: Plain, url: string, token: string, write: WriteResult)
    requires Refines(Running(s), up, p) && PlainUrl(url)
    ensures var v := Put(p.vault, up, write, p.vault.(tokens := p.vault.tokens[url := token]));
      Refines(Running(s.(disk := PutSecret(s.disk, up, write, url, token).0)), up, p.(vault := v))
  {
    PutTokenHolds(s.disk, up, write, url, token, p.vault);
  }

  lemma AddRefines(s: Store, up: bool, p: Plain, site: PairedSite, tokenWrite: WriteResult, metaWrite: WriteResult)
    requires Refines(Running(s), up, p) && PlainUrl(site.siteURL)
    ensures var op := Add(site, tokenWrite, metaWrite);
      Act(s, up, op).1 == PlainStep(p, up, op).1 && Refines(Running(Act(s, up, op).0), up, PlainStep(p, up, op).0)
  {
    if site.siteToken == "" {
      EntryRefines(s, up, p, site, metaWrite);
    } else {
      var d := PutSecret(s.disk, up, tokenWrite, site.siteURL, site.siteToken).0;
      var v := Put(p.vault, up, tokenWrite, p.vault.(tokens := p.vault.tokens[site.siteURL := site.siteToken]));
      TokenRefines(s, up, p, site.siteURL, site.siteToken, tokenWrite);
      EntryRefines(s.(disk := d), up, p.(vault := v), site, metaWrite);
    }
  }

  lemma SetSecretRefines(s: Store, up: bool, p: Plain, url: string, secret: string, hmacWrite: WriteResult)
    requires Refines(Running(s), up, p)
    ensures var op := SetSecret(url, secret, hmacWrite);
      Act(s, up, op).1 == PlainStep(p, up, op).1 && Refines(Running(Act(s, up, op).0), up, PlainStep(p, up, op).0)
  {
    if secret != "" {
      PutSecretHolds(s.disk, up, hmacWrite, url, secret, p.vault);
    }
  }

  lemma RemovalActs(s: Store, p: Plain, url: string, io: Io)
    requires s.sites == p.sites && p.running
    ensures var op := Remove(url, io.tokenWrite, io.hmacWrite, io.metaWrite);
      var v := EraseSecret(EraseToken(p.vault, io.keychainUp, url, io.tokenWrite), io.keychainUp, url, io.hmacWrite);
      var sites, answer := p.sites - {url}, Stored(io.metaWrite.Done?);
      Act(s, io.keychainUp, op) ==
        (Save(Store(sites, RemoveSecrets(s.disk, url, io)), io.metaWrite), answer) &&
      PlainStep(p, io.keychainUp, op) == (Plain(true, sites, SavedAfter(p.saved, sites, io.metaWrite), v), answer)
  {
  }

  lemma RemovalFiles(s: Store, p: Plain, url: string, io: Io)
    requires Filed(s.disk, p.sites, p.saved)
    ensures WellFiled(p.sites - {url}) && Filed(RemoveSecrets(s.disk, url, io), p.sites - {url}, p.saved)
  {
    RemoveKeepsMetadata(s.disk, url, io);
  }

  lemma RemoveRefines(s: Store, p: Plain, url: string, io: Io)
    requires Refines(Running(s), io.keychainUp, p) && PlainUrl(url)
    ensures var op := Remove(url, io.tokenWrite, io.hmacWrite, io.metaWrite);
      Act(s, io.keychainUp, op).1 == PlainStep(p, io.keychainUp, op).1 &&
      (Refines(Running(Act(s, io.keychainUp, op).0), io.keychainUp, PlainStep(p, io.keychainUp, op).0) <==>
       Erasable(s.disk, url, io))
  {
    var d, up := RemoveSecrets(s.disk, url, io), io.keychainUp;
    var v := EraseSecret(EraseToken(p.vault, up, url, io.tokenWrite), up, url, io.hmacWrite);
    RemovalActs(s, p, url, io);
    RemovalFiles(s, p, url, io);
    RemoveHolds(s.disk, url, io, p.vault);
    StoreRefines(Store(s.sites - {url}, d), up, p.sites - {url}, p.saved, v, io.metaWrite);
  }

  /** The removal, if it is one, leaves nothing in the file that the plain map has lost, and takes nothing else. */
  predicate Tellable(q: Process, up: bool, op: Op) {
    q.Running? && op.Remove? ==> Erasable(q.store.disk, op.url, Io(up, op.tokenWrite, op.hmacWrite, op.metaWrite))
  }

  lemma StepRefines(q: Process, up: bool, p: Plain, op: Op)
    requires Refines(q, up, p) && PlainOp(op)
    ensures Step(q, up, op).1 == PlainStep(p, up, op).1
    ensures Refines(Step(q, up, op).0, up, PlainStep(p, up, op).0) <==> Tellable(q, up, op)
  {
    if q.Running? {
      match op {
        case Add(site, tokenWrite, metaWrite) => AddRefines(q.store, up, p, site, tokenWrite, metaWrite);
        case SetSecret(url, secret, hmacWrite) => SetSecretRefines(q.store, up, p, url, secret, hmacWrite);
        case Remove(url, tokenWrite, hmacWrite, metaWrite) =>
          RemoveRefines(q.store, p, url, Io(up, tokenWrite, hmacWrite, metaWrite));
        case _ =>
      }
    }
  }

  function Run(q: Process, up: bool, ops: seq<Op>): (Process, seq<Answer>)
    decreases |ops|
  {
    if ops == [] then (q, [])
    else
      var (q1, a) := Step(q, up, ops[0]);
      var (q2, rest) := Run(q1, up, ops[1..]);
      (q2, [a] + rest)
  }

  function PlainRun(p: Plain, up: bool, ops: seq<Op>): (Plain, seq<Answer>)
    decreases |ops|
  {
    if ops == [] then (p, [])
    else
      var (p1, a) := PlainStep(p, up, ops[0]);
      var (p2, rest) := PlainRun(p1, up, ops[1..]);
      (p2, [a] + rest)
  }

  /** Every removal of the run can be told by the plain map. */
  predicate TellableRun(q: Process, up: bool, ops: seq<Op>)
    decreases |ops|
  {
    ops == [] || (Tellable(q, up, ops[0]) && TellableRun(Step(q, up, ops[0]).0, up, ops[1..]))
  }

  /** The keystore stands for the plain map after every operation of the run. */
  ghost predicate RefinesThroughout(q: Process, up: bool, p: Plain, ops: seq<Op>)
    decreases |ops|
  {
    Refines(q, up, p) &&
    (ops == [] || RefinesThroughout(Step(q, up, ops[0]).0, up, PlainStep(p, up, ops[0]).0, ops[1..]))
  }

  /**
   With the keychain available throughout, or unavailable throughout, a run of
   operations and restarts, however its writes end, stands for the plain map after
   every step exactly when each removal erases its site from the file, where it is in
   it, and cuts away nothing only the file holds. It then answers exactly as the plain
   map does. A write cut short empties the plain map's secrets, or leaves its saved copy
   unreadable.
   */
  lemma {:induction false} RunRefines(q: Process, up: bool, p: Plain, ops: seq<Op>)
    requires Refines(q, up, p) && forall op :: op in ops ==> PlainOp(op)
    ensures RefinesThroughout(q, up, p, ops) <==> TellableRun(q, up, ops)
    ensures TellableRun(q, up, ops) ==>
              Run(q, up, ops).1 == PlainRun(p, up, ops).1 && Refines(Run(q, up, ops).0, up, PlainRun(p, up, ops).0)
    decreases |ops|
  {
    if ops == [] {
    } else {
      assert ops[0] in ops && forall op :: op in ops[1..] ==> op in ops;
      StepRefines(q, up, p, ops[0]);
      if Tellable(q, up, ops[0]) {
        RunRefines(Step(q, up, ops[0]).0, up, PlainStep(p, up, ops[0]).0, ops[1..]);
      }
    }
  }

  // The keychain is down, or the file has never been needed.
  predicate OneTier(q: Process, up: bool) {
    up && q.Running? ==> LoadTokens(q.store.disk) == map[]
  }

  lemma OneTierStays(q: Process, up: bool, op: Op)
    requires OneTier(q, up)
    ensures OneTier(Step(q, up, op).0, up) && Tellable(q, up, op)
  {
  }

  /** With all secrets in one tier, every run can be told. */
  lemma {:induction false} OneTierRuns(q: Process, up: bool, ops: seq<Op>)
    requires OneTier(q, up)
    ensures TellableRun(q, up, ops) && OneTier(Run(q, up, ops).0, up)
    decreases |ops|
  {
    if ops == [] {
    } else {
      OneTierStays(q, up, ops[0]);
      OneTierRuns(Step(q, up, ops[0]).0, up, ops[1..]);
    }
  }

  predicate Deletes(op: Op) {
    op.Remove? ==> op.tokenWrite.Lands() && op.hmacWrite.Lands()
  }

  /** So can every run whose deletions from the file succeed. */
  lemma {:induction false} DeletingRuns(q: Process, up: bool, ops: seq<Op>)
    requires forall op :: op in ops ==> Deletes(op)
    ensures TellableRun(q, up, ops)
    decreases |ops|
  {
    if ops == [] {
    } else {
      assert ops[0] in ops && forall op :: op in ops[1..] ==> op in ops;
      DeletingRuns(Step(q, up, ops[0]).0, up, ops[1..]);
    }
  }

  const EMPTY := Disk(map[], Absent, Absent)
  const NEW_PROCESS := Running(Store(map[], EMPTY))
  const NEW_PLAIN := Plain(true, map[], Some(map[]), NO_SECRETS)

  /** An installation starts as the empty plain map. */
  lemma EmptyRefines(up: bool)
    ensures Refines(NEW_PROCESS, up, NEW_PLAIN)
  {
  }

  // --- When failed writes lose nothing ---

  function Mild(write: WriteResult): WriteResult {
    if write.CutShort? then Refused else write
  }

  // The same operation, had its failing writes left the files untouched.
  function MildOp(op: Op): Op {
    match op
    case Add(site, tokenWrite, metaWrite) => Add(site, Mild(tokenWrite), Mild(metaWrite))
    case SetSecret(url, secret, hmacWrite) => SetSecret(url, secret, Mild(hmacWrite))
    case Remove(url, tokenWrite, hmacWrite, metaWrite) =>
      Remove(url, Mild(tokenWrite), Mild(hmacWrite), Mild(metaWrite))
    case _ => op
  }

  // A rewrite of the file that is cut short while there is something in it to lose.
  predicate CutsVault(v: Vault, up: bool, write: WriteResult) {
    !up && write.CutShort? && v != NO_SECRETS
  }

  /** The operation cuts short a file that held something: secrets while the keychain is down, or readable metadata. */
  predicate Loses(p: Plain, up: bool, op: Op) {
    p.running &&
    match op
    case Add(site, tokenWrite, metaWrite) =>
      (site.siteToken != "" && CutsVault(p.vault, up, tokenWrite)) ||
      ((site.siteToken == "" || up || tokenWrite.Done?) && metaWrite.CutShort? && p.saved.Some?)
    case SetSecret(url, secret, hmacWrite) => secret != "" && CutsVault(p.vault, up, hmacWrite)
    case Remove(url, tokenWrite, hmacWrite, metaWrite) =>
      (url in p.vault.tokens && CutsVault(WithoutToken(p.vault, url), up, tokenWrite)) ||
      (var v := EraseToken(p.vault, up, url, tokenWrite);
       url in v.secrets && CutsVault(WithoutSecret(v, url), up, hmacWrite)) ||
      (metaWrite.CutShort? && p.saved.Some?)
    case _ => false
  }

  lemma StepLosesExactly(p: Plain, up: bool, op: Op)
    ensures PlainStep(p, up, op) == PlainStep(p, up, MildOp(op)) <==> !Loses(p, up, op)
  {
  }

  function Trace(p: Plain, up: bool, ops: seq<Op>): seq<(Plain, Answer)>
    decreases |ops|
  {
    if ops == [] then [] else [PlainStep(p, up, ops[0])] + Trace(PlainStep(p, up, ops[0]).0, up, ops[1..])
  }

  function MildOps(ops: seq<Op>): seq<Op> {
    if ops == [] then [] else [MildOp(ops[0])] + MildOps(ops[1..])
  }

  predicate NothingLost(p: Plain, up: bool, ops: seq<Op>)
    decreases |ops|
  {
    ops == [] || (!Loses(p, up, ops[0]) && NothingLost(PlainStep(p, up, ops[0]).0, up, ops[1..]))
  }

  /**
   A run passes through the states and answers it would have had if every failing write
   had left its file untouched, exactly when no write is cut short while its file holds
   something: a token file that is the only tier, or metadata that can be read.
   */
  lemma {:induction false} LossesExact(p: Plain, up: bool, ops: seq<Op>)
    ensures Trace(p, up, ops) == Trace(p, up, MildOps(ops)) <==> NothingLost(p, up, ops)
    decreases |ops|
  {
    if ops == [] {
    } else {
      var mild := MildOps(ops);
      assert mild[0] == MildOp(ops[0]) && mild[1..] == MildOps(ops[1..]);
      var head, mildHead := PlainStep(p, up, ops[0]), PlainStep(p, up, mild[0]);
      StepLosesExactly(p, up, ops[0]);
      LossesExact(head.0, up, ops[1..]);
      assert Trace(p, up, ops)[0] == head && Trace(p, up, ops)[1..] == Trace(head.0, up, ops[1..]);
      assert Trace(p, up, mild)[0] == mildHead && Trace(p, up, mild)[1..] == Trace(mildHead.0, up, mild[1..]);
    }
  }

  predicate Saves(op: Op) {
    match op
    case Add(_, _, metaWrite) => metaWrite.Lands()
    case Remove(_, _, _, metaWrite) => metaWrite.Lands()
    case _ => true
  }

  lemma {:induction false} SavedIsCurrent(p: Plain, up: bool, ops: seq<Op>)
    requires p.running && p.saved == Some(p.sites) && forall op :: op in ops ==> Saves(op)
    ensures var p' := PlainRun(p, up, ops).0; p'.running && p'.saved == Some(p'.sites)
    decreases |ops|
  {
    if ops == [] {
    } else {
      assert ops[0] in ops && forall op :: op in ops[1..] ==> op in ops;
      SavedIsCurrent(PlainStep(p, up, ops[0]).0, up, ops[1..]);
    }
  }

  /**
   After a run whose saves reach the file, reopening rebuilds the keystore in memory
   exactly, filed by URL and without tokens.
   */
  lemma ReloadIsExact(up: bool, ops: seq<Op>)
    requires forall op :: op in ops ==> PlainOp(op) && Saves(op)
    ensures var q := Run(NEW_PROCESS, up, ops).0;
      q.Running? && Open(q.store.disk) == Some(q.store) && WellFiled(q.store.sites)
  {
    EmptyRefines(up);
    OneTierRuns(NEW_PROCESS, up, ops);
    RunRefines(NEW_PROCESS, up, NEW_PLAIN, ops);
    SavedIsCurrent(NEW_PLAIN, up, ops);
  }

  /** The metadata file never holds a token, whatever is saved. */
  lemma NoTokenInMetadata(s: Store, write: WriteResult, url: string)
    requires write.Lands()
    ensures var f := Save(s, write).disk.metaFile;
      f.Json? && f.content.Keys == s.sites.Keys &&
      (url in s.sites ==>
       f.content[url].siteToken == "" && f.content[url].siteURL == s.sites[url].siteURL &&
       f.content[url].pairedOn == s.sites[url].pairedOn &&
       f.content[url].agentRegistration == s.sites[url].agentRegistration)
  {
  }

  // --- Where the plain-map reading ends ---

  /**
   A write under one availability is what a read under another finds, exactly when the
   other tier does not disagree.
   */
  lemma ReadAfterWriteExact(d: Disk, upThen: bool, upNow: bool, key: string, secret: string)
    ensures SecretAt(PutSecret(d, upThen, Done, key, secret).0, upNow, key) == Some(secret) <==>
            upThen == upNow ||
            (upThen && !upNow && Lookup(LoadTokens(d), key) == Some(secret)) ||
            (!upThen && upNow && (key in d.keychain ==> d.keychain[key] == secret))
  {
  }

  /**
   Storing a site's token changes another site's HMAC secret exactly when the URL is
   that site's HMAC key, or when a file that held the secret is cut short.
   */
  lemma PrefixClashExact(s: Store, site: PairedSite, io: Io, other: string)
    requires site.siteToken != ""
    ensures var s' := AddSite(s, site, io).0;
      SecretAt(s'.disk, io.keychainUp, HmacKey(other)) != SecretAt(s.disk, io.keychainUp, HmacKey(other)) <==>
      (site.siteURL == HmacKey(other) && (io.keychainUp || io.tokenWrite.Lands()) &&
       SecretAt(s.disk, io.keychainUp, HmacKey(other)) != Some(site.siteToken)) ||
      (!io.keychainUp && io.tokenWrite.CutShort? && HmacKey(other) in LoadTokens(s.disk))
  {
    PutThenRead(s.disk, io.keychainUp, io.tokenWrite, site.siteURL, site.siteToken, HmacKey(other));
  }

  // Neither tier holds the key.
  predicate Erased(d: Disk, key: string) {
    key !in d.keychain && key !in LoadTokens(d)
  }

  /**
   RemoveSite erases token and HMAC secret from both tiers exactly when the keychain is
   up if it holds one, and a file that holds one is rewritten without it or cut short.
   */
  lemma RemoveErasesExact(s: Store, url: string, io: Io)
    ensures var d', tokens := RemoveSite(s, url, io).0.disk, LoadTokens(s.disk);
      (Erased(d', url) <==>
       (url in s.disk.keychain ==> io.keychainUp) &&
       (url in tokens ==> io.tokenWrite.Lands() || RemovalCuts(s.disk, url, io))) &&
      (Erased(d', HmacKey(url)) <==>
       (HmacKey(url) in s.disk.keychain ==> io.keychainUp) &&
       (HmacKey(url) in tokens ==> io.hmacWrite.Lands() || RemovalCuts(s.disk, url, io)))
  {
    HmacKeys(url, url);
    FileAfterRemoval(s.disk, url, io, url);
    FileAfterRemoval(s.disk, url, io, HmacKey(url));
    var d1 := DropFromKeychain(DropFromKeychain(s.disk, io.keychainUp, url), io.keychainUp, HmacKey(url));
    FileAfterDrop(d1, io.tokenWrite, url);
    FileAfterDrop(DropFromFile(d1, io.tokenWrite, url), io.hmacWrite, HmacKey(url));
  }
}
