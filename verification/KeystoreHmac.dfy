/**
 When an interruption, or a write that fails, leaves a paired site without the HMAC
 secret it had, so that signing for it is no longer checked.
 */
module KeystoreHmac {
  import opened Common
  import opened KeystoreSpec
  import opened KeystoreProofs
  import opened KeystoreCrash

  /** Sign requests of the site are authenticated. */
  predicate Checked(s: Store, up: bool, url: string) {
    HMACSecret(s, up, url).Some? && HMACSecret(s, up, url).value != ""
  }

  /** The site is paired, and its sign requests are not. */
  predicate Unchecked(s: Store, up: bool, url: string) {
    HMACSecret(s, up, url) == Some("")
  }

  // --- Failing writes ---

  /** Storing a secret switches another site's checking off exactly when it cuts short a file that is the only tier. */
  lemma SetSecretUnchecksExactly(s: Store, url: string, secret: string, io: Io, other: string)
    requires Checked(s, io.keychainUp, other)
    ensures Unchecked(SetHMACSecret(s, url, secret, io).0, io.keychainUp, other) <==>
            !io.keychainUp && secret != "" && io.hmacWrite.CutShort?
  {
    PutThenRead(s.disk, io.keychainUp, io.hmacWrite, HmacKey(url), secret, HmacKey(other));
  }

  /** So does storing a site's token. */
  lemma AddSiteUnchecksExactly(s: Store, site: PairedSite, io: Io, other: string)
    requires Checked(s, io.keychainUp, other)
    ensures Unchecked(AddSite(s, site, io).0, io.keychainUp, other) <==>
            !io.keychainUp && site.siteToken != "" && io.tokenWrite.CutShort?
  {
    if site.siteToken != "" {
      PutThenRead(s.disk, io.keychainUp, io.tokenWrite, site.siteURL, site.siteToken, HmacKey(other));
    }
  }

  /**
   Removing a site does it to another exactly when that site's secret is in the file
   alone and a rewrite of the file is cut short.
   */
  lemma RemoveSiteUnchecksExactly(s: Store, url: string, io: Io, other: string)
    requires Checked(s, io.keychainUp, other) && other != url && HmacKey(other) != url
    ensures Unchecked(RemoveSite(s, url, io).0, io.keychainUp, other) <==>
            !(io.keychainUp && HmacKey(other) in s.disk.keychain) &&
            (CutsFile(s.disk, io.tokenWrite, url) || (io.hmacWrite.CutShort? && HmacKey(url) in LoadTokens(s.disk)))
  {
    HmacKeys(url, other);
    HmacKeys(url, url);
    var d1 := DropFromKeychain(DropFromKeychain(s.disk, io.keychainUp, url), io.keychainUp, HmacKey(url));
    var d2 := DropFromFile(d1, io.tokenWrite, url);
    FileAfterDrop(d1, io.tokenWrite, url);
    FileAfterDrop(d2, io.hmacWrite, HmacKey(url));
    assert HmacKey(other) in LoadTokens(d2) ==> HmacKey(other) in LoadTokens(d2) - {HmacKey(url)};
  }

  // --- Crashes ---

  function SetWrites(s: Store, url: string, secret: string, up: bool): seq<Write> {
    if secret == "" then []
    else if up then [KeychainPut(HmacKey(url), secret)]
    else [TokenFile(LoadTokens(s.disk)[HmacKey(url) := secret])]
  }

  /** The listed write is what SetHMACSecret does when nothing fails. */
  lemma SetIsItsWrites(s: Store, url: string, secret: string, up: bool)
    ensures SetHMACSecret(s, url, secret, AllWell(up)).0.disk == ApplyAll(s.disk, SetWrites(s, url, secret, up))
  {
    if secret != "" {
      ApplyOne(s.disk, SetWrites(s, url, secret, up)[0]);
    }
  }

  lemma OneWriteCrash(d: Disk, w: Write, left: Disk)
    ensures CrashLeaves(d, [w], left) <==> left == d || left == Tear(d, w) || left == Apply(d, w)
  {
    assert [w][1..] == [];
  }

  lemma SetCrashCases(s: Store, url: string, secret: string, up: bool, left: Disk)
    ensures CrashLeaves(s.disk, SetWrites(s, url, secret, up), left) <==>
            left == s.disk || left == SetHMACSecret(s, url, secret, AllWell(up)).0.disk ||
            (secret != "" && !up && left == s.disk.(tokenFile := Torn))
  {
    if secret != "" {
      OneWriteCrash(s.disk, SetWrites(s, url, secret, up)[0], left);
    }
  }

  /** A crash anywhere in SetHMACSecret leaves every token old, new or unreadable. */
  lemma SetCrashSafe(s: Store, url: string, secret: string, up: bool, left: Disk)
    requires Synced(s) && CrashLeaves(s.disk, SetWrites(s, url, secret, up), left)
    ensures CrashSafe(s, SetHMACSecret(s, url, secret, AllWell(up)).0, up, left)
  {
    var final := SetHMACSecret(s, url, secret, AllWell(up)).0;
    SetCrashCases(s, url, secret, up, left);
    forall key | key in s.sites
      ensures OldNewOrError(SecretAt(left, up, key), Token(s, up, key), Token(final, up, key))
    {
      PutThenRead(s.disk, up, Done, HmacKey(url), secret, key);
    }
    PendingIsSafe(s, final, up, left);
  }

  /** Some interruption of these writes leaves a store that reopens with the site unchecked. */
  ghost predicate CrashUnchecks(s: Store, ws: seq<Write>, up: bool, url: string) {
    exists left :: CrashLeaves(s.disk, ws, left) && Open(left).Some? && Unchecked(Open(left).value, up, url)
  }

  // With the token file torn, a secret is found in the keychain or not at all.
  lemma TornFileUnchecks(s: Store, ws: seq<Write>, up: bool, url: string, left: Disk)
    requires Synced(s) && url in s.sites && CrashLeaves(s.disk, ws, left)
    requires left.metaFile == s.disk.metaFile && LoadTokens(left) == map[] && !(up && HmacKey(url) in left.keychain)
    ensures CrashUnchecks(s, ws, up, url)
  {
    assert Open(left) == Some(Store(s.sites, left));
    assert Unchecked(Open(left).value, up, url);
  }

  /**
   A crash in SetHMACSecret can switch checking off exactly while the keychain is down,
   and then for every site that was checked.
   */
  lemma SetCrashUnchecksExactly(s: Store, url: string, secret: string, up: bool, other: string)
    requires Synced(s) && Checked(s, up, other)
    ensures CrashUnchecks(s, SetWrites(s, url, secret, up), up, other) <==> !up && secret != ""
  {
    var ws := SetWrites(s, url, secret, up);
    if !up && secret != "" {
      SetCrashCases(s, url, secret, up, s.disk.(tokenFile := Torn));
      TornFileUnchecks(s, ws, up, other, s.disk.(tokenFile := Torn));
    } else {
      forall left | CrashLeaves(s.disk, ws, left) && Open(left).Some? ensures !Unchecked(Open(left).value, up, other) {
        SetCrashCases(s, url, secret, up, left);
        PutThenRead(s.disk, up, Done, HmacKey(url), secret, HmacKey(other));
      }
    }
  }

  /** So can a crash in AddSite. */
  lemma AddCrashUnchecksExactly(s: Store, site: PairedSite, up: bool, other: string)
    requires Synced(s) && Checked(s, up, other)
    ensures CrashUnchecks(s, AddWrites(s, site, up), up, other) <==> !up && site.siteToken != ""
  {
    var ws := AddWrites(s, site, up);
    if !up && site.siteToken != "" {
      var left := s.disk.(tokenFile := Torn);
      assert left == Tear(s.disk, ws[0]);
      TornFileUnchecks(s, ws, up, other, left);
    } else {
      forall left | CrashLeaves(s.disk, ws, left) && Open(left).Some? ensures !Unchecked(Open(left).value, up, other) {
        AddCrashCases(s, site, up, left);
        PutThenRead(s.disk, up, Done, site.siteURL, site.siteToken, HmacKey(other));
      }
    }
  }

  // --- RemoveSite ---

  lemma {:induction false} CrashAfter(d: Disk, a: seq<Write>, b: seq<Write>, left: Disk)
    requires CrashLeaves(ApplyAll(d, a), b, left)
    ensures CrashLeaves(d, a + b, left)
    decreases |a|
  {
    if a == [] {
      assert a + b == b;
    } else {
      assert (a + b)[1..] == a[1..] + b && (a + b)[0] == a[0];
      CrashAfter(Apply(d, a[0]), a[1..], b, left);
    }
  }

  lemma RemovedSecretRead(d: Disk, url: string, up: bool)
    ensures SecretAt(RemoveSecrets(d, url, AllWell(up)), up, HmacKey(url)) == None
  {
    HmacKeys(url, url);
    var d1 := DropFromKeychain(DropFromKeychain(d, up, url), up, HmacKey(url));
    DropFileThenRead(d1, Done, url, HmacKey(url));
    DropFileThenRead(DropFromFile(d1, Done, url), Done, HmacKey(url), HmacKey(url));
  }

  /** A crash before the last write of RemoveSite leaves the removed site itself paired, and unchecked. */
  lemma RemoveCrashUnchecksItself(s: Store, url: string, up: bool)
    requires Synced(s) && Checked(s, up, url)
    ensures CrashUnchecks(s, RemoveWrites(s, url, up), up, url)
  {
    var left := RemoveSecrets(s.disk, url, AllWell(up));
    var meta := [MetaFile(Serialised(s.sites - {url}))];
    SecretsAreTheirWrites(s, url, up);
    assert CrashLeaves(left, meta, left);
    CrashAfter(s.disk, SecretWrites(s, url, up), meta, left);
    RemoveKeepsMetadata(s.disk, url, AllWell(up));
    RemovedSecretRead(s.disk, url, up);
    assert Open(left) == Some(Store(s.sites, left));
    assert Unchecked(Open(left).value, up, url);
  }

  // The file holds something of the removed site, so that removing it rewrites the file.
  predicate RewritesFile(s: Store, url: string) {
    url in LoadTokens(s.disk) || HmacKey(url) in LoadTokens(s.disk)
  }

  predicate LeavesFile(w: Write) {
    w.KeychainDrop? || w.MetaFile?
  }

  lemma {:induction false} CrashLeavesFile(d: Disk, ws: seq<Write>, left: Disk)
    requires CrashLeaves(d, ws, left) && forall w :: w in ws ==> LeavesFile(w)
    ensures left.tokenFile == d.tokenFile
    decreases |ws|
  {
    if ws == [] || left == d {
    } else {
      assert ws[0] in ws && forall w :: w in ws[1..] ==> w in ws;
      if left != Tear(d, ws[0]) {
        CrashLeavesFile(Apply(d, ws[0]), ws[1..], left);
      }
    }
  }

  // The rewrite of the file during a removal, torn.
  lemma TornRemoval(s: Store, url: string, up: bool, other: string)
    requires RewritesFile(s, url) && HmacKey(other) in LoadTokens(s.disk) && HmacKey(other) != url && other != url
    ensures var left := DropFromKeychain(DropFromKeychain(s.disk, up, url), up, HmacKey(url)).(tokenFile := Torn);
      CrashLeaves(s.disk, RemoveWrites(s, url, up), left)
  {
    var k, f1, d1 := KeychainDropWrites(url, up), FileDropWrites(s.disk, url), DropFromFile(s.disk, Done, url);
    var f2, meta := FileDropWrites(d1, HmacKey(url)), [MetaFile(Serialised(s.sites - {url}))];
    var d := ApplyAll(s.disk, k);
    KeychainDropIsItsWrites(s.disk, url, up);
    HmacKeys(url, other);
    var left := d.(tokenFile := Torn);
    assert RemoveWrites(s, url, up) == k + (f1 + (f2 + meta));
    var rest := f1 + (f2 + meta);
    if url in LoadTokens(s.disk) {
      assert HmacKey(other) in LoadTokens(s.disk) - {url};
      assert rest[0] == f1[0] && left == Tear(d, rest[0]);
    } else {
      assert HmacKey(other) in LoadTokens(s.disk) - {HmacKey(url)};
      assert f1 == [] && rest == f2 + meta;
      assert rest[0] == f2[0] && left == Tear(d, rest[0]);
    }
    CrashAfter(s.disk, k, rest, left);
  }

  /** For another site it can exactly when that site's secret is in the file alone and the removal rewrites the file. */
  lemma RemoveCrashUnchecksExactly(s: Store, url: string, up: bool, other: string)
    requires Synced(s) && Checked(s, up, other) && other != url && HmacKey(other) != url
    ensures CrashUnchecks(s, RemoveWrites(s, url, up), up, other) <==>
            !(up && HmacKey(other) in s.disk.keychain) && RewritesFile(s, url)
  {
    HmacKeys(url, other);
    var ws := RemoveWrites(s, url, up);
    if !(up && HmacKey(other) in s.disk.keychain) && RewritesFile(s, url) {
      TornRemoval(s, url, up, other);
      var dropped := DropFromKeychain(DropFromKeychain(s.disk, up, url), up, HmacKey(url));
      TornFileUnchecks(s, ws, up, other, dropped.(tokenFile := Torn));
    } else {
      forall left | CrashLeaves(s.disk, ws, left) && Open(left).Some? ensures !Unchecked(Open(left).value, up, other) {
        RemovalKeepsChecked(s, url, up, other, left);
      }
    }
  }

  lemma RemovalKeepsChecked(s: Store, url: string, up: bool, other: string, left: Disk)
    requires Synced(s) && Checked(s, up, other) && other != url && HmacKey(other) != url
    requires (up && HmacKey(other) in s.disk.keychain) || !RewritesFile(s, url)
    requires CrashLeaves(s.disk, RemoveWrites(s, url, up), left) && Open(left).Some?
    ensures !Unchecked(Open(left).value, up, other)
  {
    HmacKeys(url, other);
    RemoveCrashCases(s, url, up, left);
    if left == RemoveSite(s, url, AllWell(up)).0.disk {
      FinishedRemovalRead(s, url, up, HmacKey(other));
    } else if !RewritesFile(s, url) {
      CrashLeavesFile(s.disk, RemoveWrites(s, url, up), left);
    }
  }

  lemma FinishedRemovalRead(s: Store, url: string, up: bool, k: string)
    requires k != url && k != HmacKey(url)
    ensures SecretAt(RemoveSite(s, url, AllWell(up)).0.disk, up, k) == SecretAt(s.disk, up, k)
  {
    var d1 := DropFromKeychain(DropFromKeychain(s.disk, up, url), up, HmacKey(url));
    DropFileThenRead(d1, Done, url, k);
    DropFileThenRead(DropFromFile(d1, Done, url), Done, HmacKey(url), k);
  }

  // --- Which secret a crash leaves ---

  /** A secret after a crash: the old answer, the new one, none ("") or an error. */
  predicate OldNewOrOff(after: Option<string>, old0: Option<string>, new0: Option<string>) {
    after.None? || after == Some("") || after == old0 || after == new0
  }

  ghost predicate SecretSafe(s: Store, final: Store, up: bool, left: Disk) {
    Open(left).Some? ==>
      var after := Open(left).value;
      forall url :: OldNewOrOff(HMACSecret(after, up, url), HMACSecret(s, up, url), HMACSecret(final, up, url))
  }

  // With the old metadata, the secrets decide.
  lemma PendingSecrets(s: Store, final: Store, up: bool, left: Disk)
    requires Synced(s) && MetaPending(s.disk, left)
    requires forall url :: url in s.sites ==>
               SecretAt(left, up, HmacKey(url)).None? ||
               OldNewOrOff(SecretAt(left, up, HmacKey(url)), HMACSecret(s, up, url), HMACSecret(final, up, url))
    ensures SecretSafe(s, final, up, left)
  {
    if Open(left).Some? {
      assert Open(left).value.sites == s.sites;
    }
  }

  lemma FinishedSecrets(s: Store, final: Store, up: bool)
    requires final.disk.metaFile == Json(Serialised(final.sites))
    ensures SecretSafe(s, final, up, final.disk)
  {
    assert Open(final.disk).value.sites.Keys == final.sites.Keys;
  }

  /** A crash anywhere in SetHMACSecret leaves every secret old, new, off or unreadable. */
  lemma SetSecretCrashSafe(s: Store, url: string, secret: string, up: bool, left: Disk)
    requires Synced(s) && CrashLeaves(s.disk, SetWrites(s, url, secret, up), left)
    ensures SecretSafe(s, SetHMACSecret(s, url, secret, AllWell(up)).0, up, left)
  {
    var final := SetHMACSecret(s, url, secret, AllWell(up)).0;
    SetCrashCases(s, url, secret, up, left);
    forall u | u in s.sites
      ensures SecretAt(left, up, HmacKey(u)).None? ||
              OldNewOrOff(SecretAt(left, up, HmacKey(u)), HMACSecret(s, up, u), HMACSecret(final, up, u))
    {
      PutThenRead(s.disk, up, Done, HmacKey(url), secret, HmacKey(u));
    }
    PendingSecrets(s, final, up, left);
  }

  /** So does a crash anywhere in AddSite. */
  lemma AddSecretCrashSafe(s: Store, site: PairedSite, up: bool, left: Disk)
    requires Synced(s) && CrashLeaves(s.disk, AddWrites(s, site, up), left)
    ensures SecretSafe(s, AddSite(s, site, AllWell(up)).0, up, left)
  {
    var final := AddSite(s, site, AllWell(up)).0;
    AddCrashCases(s, site, up, left);
    if left == final.disk {
      FinishedSecrets(s, final, up);
    } else {
      forall u | u in s.sites
        ensures SecretAt(left, up, HmacKey(u)).None? ||
                OldNewOrOff(SecretAt(left, up, HmacKey(u)), HMACSecret(s, up, u), HMACSecret(final, up, u))
      {
        PutThenRead(s.disk, up, Done, site.siteURL, site.siteToken, HmacKey(u));
      }
      PendingSecrets(s, final, up, left);
    }
  }

  /** The file holds a secret of the site that the keychain hides: another one, and not the empty one. */
  predicate Hidden(s: Store, up: bool, url: string) {
    up && url in s.sites && HmacKey(url) in s.disk.keychain && HmacKey(url) in LoadTokens(s.disk) &&
    LoadTokens(s.disk)[HmacKey(url)] !in {s.disk.keychain[HmacKey(url)], ""}
  }

  // The site whose HMAC key this URL is, if it is one.
  predicate HiddenBehind(s: Store, up: bool, url: string) {
    HasPrefix(url, HMAC_PREFIX) && Hidden(s, up, url[|HMAC_PREFIX|..])
  }

  lemma KeyOfPrefixed(url: string, u: string)
    ensures HmacKey(u) == url <==> HasPrefix(url, HMAC_PREFIX) && u == url[|HMAC_PREFIX|..]
  {
    if HasPrefix(url, HMAC_PREFIX) {
      assert url == HMAC_PREFIX + url[|HMAC_PREFIX|..];
    }
  }

  lemma ShrunkSecret(s: Store, url: string, up: bool, left: Disk, u: string)
    requires Shrunk(s.disk, left) && KeepsKeychain(s, url, left) && u in s.sites
    requires !Hidden(s, up, url) && !HiddenBehind(s, up, url)
    ensures SecretAt(left, up, HmacKey(u)) == None || SecretAt(left, up, HmacKey(u)) == Some("") ||
            SecretAt(left, up, HmacKey(u)) == SecretAt(s.disk, up, HmacKey(u))
  {
    KeyOfPrefixed(url, u);
    HmacKeys(u, url);
  }

  /** A crash anywhere in RemoveSite does so too where no secret is hidden behind one of the two keys it drops. */
  lemma RemoveSecretCrashSafe(s: Store, url: string, up: bool, left: Disk)
    requires Synced(s) && CrashLeaves(s.disk, RemoveWrites(s, url, up), left)
    requires !Hidden(s, up, url) && !HiddenBehind(s, up, url)
    ensures SecretSafe(s, RemoveSite(s, url, AllWell(up)).0, up, left)
  {
    var final := RemoveSite(s, url, AllWell(up)).0;
    RemoveCrashCases(s, url, up, left);
    if left == final.disk {
      FinishedSecrets(s, final, up);
    } else {
      forall u | u in s.sites
        ensures SecretAt(left, up, HmacKey(u)).None? ||
                OldNewOrOff(SecretAt(left, up, HmacKey(u)), HMACSecret(s, up, u), HMACSecret(final, up, u))
      {
        ShrunkSecret(s, url, up, left, u);
      }
      PendingSecrets(s, final, up, left);
    }
  }

  // The two disks between the keychain's deletions and the rest.
  lemma KeychainDropped(s: Store, url: string)
    ensures var d1 := Apply(s.disk, KeychainDrop(url));
      CrashLeaves(s.disk, RemoveWrites(s, url, true), d1) &&
      CrashLeaves(s.disk, RemoveWrites(s, url, true), Apply(d1, KeychainDrop(HmacKey(url))))
  {
    var ws := RemoveWrites(s, url, true);
    assert ws[0] == KeychainDrop(url) && ws[1] == KeychainDrop(HmacKey(url));
    var d1 := Apply(s.disk, ws[0]);
    var d2 := Apply(d1, ws[1]);
    assert CrashLeaves(d1, ws[1..], d1);
    assert CrashLeaves(d2, ws[1..][1..], d2);
    assert CrashLeaves(d1, ws[1..], d2);
  }

  // Without its keychain entry a hidden secret is found, which is neither the old nor the new one.
  lemma HiddenFound(s: Store, url: string, u: string, left: Disk)
    requires Synced(s) && Hidden(s, true, u) && (u == url || HmacKey(u) == url)
    requires HmacKey(u) !in left.keychain && LoadTokens(left) == LoadTokens(s.disk) && left.metaFile == s.disk.metaFile
    ensures !SecretSafe(s, RemoveSite(s, url, AllWell(true)).0, true, left)
  {
    HmacKeys(u, u);
    HmacKeys(url, url);
    var final := RemoveSite(s, url, AllWell(true)).0;
    RemoveThenRead(s.disk, url, AllWell(true), HmacKey(u));
    assert Open(left) == Some(Store(s.sites, left));
    assert HMACSecret(Open(left).value, true, u) == Some(LoadTokens(s.disk)[HmacKey(u)]);
    assert HMACSecret(final, true, u) == if u == url then None else Some("");
  }

  /** Exactly then, over all crashes. */
  lemma RemoveSecretCrashExact(s: Store, url: string, up: bool)
    requires Synced(s)
    ensures (forall left :: CrashLeaves(s.disk, RemoveWrites(s, url, up), left) ==>
                            SecretSafe(s, RemoveSite(s, url, AllWell(up)).0, up, left)) <==>
            !Hidden(s, up, url) && !HiddenBehind(s, up, url)
  {
    if Hidden(s, up, url) {
      KeychainDropped(s, url);
      HiddenFound(s, url, url, Apply(Apply(s.disk, KeychainDrop(url)), KeychainDrop(HmacKey(url))));
    } else if HiddenBehind(s, up, url) {
      KeychainDropped(s, url);
      KeyOfPrefixed(url, url[|HMAC_PREFIX|..]);
      HiddenFound(s, url, url[|HMAC_PREFIX|..], Apply(s.disk, KeychainDrop(url)));
    } else {
      forall left | CrashLeaves(s.disk, RemoveWrites(s, url, up), left)
        ensures SecretSafe(s, RemoveSite(s, url, AllWell(up)).0, up, left)
      {
        RemoveSecretCrashSafe(s, url, up, left);
      }
    }
  }
}
