/** Stopping the process between, or inside, the storage writes of one operation. */
module KeystoreCrash {
  import opened Common
  import opened KeystoreSpec
  import opened KeystoreProofs

  function AllWell(up: bool): Io {
    Io(up, Done, Done, Done)
  }

  // One change of what survives the process.
  datatype Write =
    | KeychainPut(key: string, secret: string)
    | KeychainDrop(key: string)
    | TokenFile(tokens: Secrets)
    | TokenFileRemoved
    | MetaFile(sites: Sites)

  function Apply(d: Disk, w: Write): Disk {
    match w
    case KeychainPut(key, secret) => d.(keychain := d.keychain[key := secret])
    case KeychainDrop(key) => d.(keychain := d.keychain - {key})
    case TokenFile(tokens) => d.(tokenFile := Json(tokens))
    case TokenFileRemoved => d.(tokenFile := Absent)
    case MetaFile(sites) => d.(metaFile := Json(sites))
  }

  // An interrupted file write leaves a file that does not parse; the other writes are all or nothing.
  function Tear(d: Disk, w: Write): Disk {
    match w
    case TokenFile(_) => d.(tokenFile := Torn)
    case MetaFile(_) => d.(metaFile := Torn)
    case _ => d
  }

  function ApplyAll(d: Disk, ws: seq<Write>): Disk
    decreases |ws|
  {
    if ws == [] then d else ApplyAll(Apply(d, ws[0]), ws[1..])
  }

  /** What a crash can leave behind: some of the writes, in order, and perhaps the next one torn. */
  ghost predicate CrashLeaves(d: Disk, ws: seq<Write>, left: Disk)
    decreases |ws|
  {
    left == d || (ws != [] && (left == Tear(d, ws[0]) || CrashLeaves(Apply(d, ws[0]), ws[1..], left)))
  }

  // --- The writes of each operation, in order ---

  function AddWrites(s: Store, site: PairedSite, up: bool): seq<Write> {
    var secret := if site.siteToken == "" then []
                  else if up then [KeychainPut(site.siteURL, site.siteToken)]
                  else [TokenFile(LoadTokens(s.disk)[site.siteURL := site.siteToken])];
    secret + [MetaFile(Serialised(s.sites[site.siteURL := site.(siteToken := "")]))]
  }

  function FileDropWrites(d: Disk, key: string): seq<Write> {
    var tokens := LoadTokens(d);
    if key !in tokens then []
    else if tokens - {key} == map[] then [TokenFileRemoved]
    else [TokenFile(tokens - {key})]
  }

  function KeychainDropWrites(url: string, up: bool): seq<Write> {
    if up then [KeychainDrop(url), KeychainDrop(HmacKey(url))] else []
  }

  // Both tiers' part of RemoveSite, before the metadata is saved.
  function SecretWrites(s: Store, url: string, up: bool): seq<Write> {
    KeychainDropWrites(url, up) +
    (FileDropWrites(s.disk, url) + FileDropWrites(DropFromFile(s.disk, Done, url), HmacKey(url)))
  }

  function RemoveWrites(s: Store, url: string, up: bool): seq<Write> {
    SecretWrites(s, url, up) + [MetaFile(Serialised(s.sites - {url}))]
  }

  lemma {:induction false} ApplyAllAppend(d: Disk, a: seq<Write>, b: seq<Write>)
    ensures ApplyAll(d, a + b) == ApplyAll(ApplyAll(d, a), b)
    decreases |a|
  {
    if a == [] {
      assert a + b == b;
    } else {
      assert (a + b)[1..] == a[1..] + b;
      ApplyAllAppend(Apply(d, a[0]), a[1..], b);
    }
  }

  lemma ApplyOne(d: Disk, w: Write)
    ensures ApplyAll(d, [w]) == Apply(d, w)
  {
  }

  lemma FileDropIsItsWrites(d: Disk, key: string)
    ensures ApplyAll(d, FileDropWrites(d, key)) == DropFromFile(d, Done, key)
  {
  }

  lemma KeychainDropIsItsWrites(d: Disk, url: string, up: bool)
    ensures ApplyAll(d, KeychainDropWrites(url, up)) ==
            DropFromKeychain(DropFromKeychain(d, up, url), up, HmacKey(url))
  {
    if up {
      assert [KeychainDrop(url), KeychainDrop(HmacKey(url))] == [KeychainDrop(url)] + [KeychainDrop(HmacKey(url))];
      ApplyAllAppend(d, [KeychainDrop(url)], [KeychainDrop(HmacKey(url))]);
      ApplyOne(d, KeychainDrop(url));
      ApplyOne(Apply(d, KeychainDrop(url)), KeychainDrop(HmacKey(url)));
    }
  }

  /** The listed writes are what the operations do when nothing fails. */
  lemma AddIsItsWrites(s: Store, site: PairedSite, up: bool)
    ensures AddSite(s, site, AllWell(up)).0.disk == ApplyAll(s.disk, AddWrites(s, site, up))
  {
    var ws := AddWrites(s, site, up);
    var last := ws[|ws| - 1];
    if site.siteToken == "" {
      ApplyOne(s.disk, last);
    } else {
      assert ws == [ws[0]] + [last];
      ApplyAllAppend(s.disk, [ws[0]], [last]);
      ApplyOne(s.disk, ws[0]);
      ApplyOne(Apply(s.disk, ws[0]), last);
    }
  }

  lemma SecretsAreTheirWrites(s: Store, url: string, up: bool)
    ensures RemoveSecrets(s.disk, url, AllWell(up)) == ApplyAll(s.disk, SecretWrites(s, url, up))
  {
    var f1, f2 := FileDropWrites(s.disk, url), FileDropWrites(DropFromFile(s.disk, Done, url), HmacKey(url));
    var d1 := ApplyAll(s.disk, KeychainDropWrites(url, up));
    KeychainDropIsItsWrites(s.disk, url, up);
    ApplyAllAppend(s.disk, KeychainDropWrites(url, up), f1 + f2);
    ApplyAllAppend(d1, f1, f2);
    assert FileDropWrites(d1, url) == f1;
    FileDropIsItsWrites(d1, url);
    var d2 := DropFromFile(d1, Done, url);
    assert FileDropWrites(d2, HmacKey(url)) == f2;
    FileDropIsItsWrites(d2, HmacKey(url));
  }

  lemma RemoveIsItsWrites(s: Store, url: string, up: bool)
    ensures RemoveSite(s, url, AllWell(up)).0.disk == ApplyAll(s.disk, RemoveWrites(s, url, up))
  {
    var meta := MetaFile(Serialised(s.sites - {url}));
    SecretsAreTheirWrites(s, url, up);
    ApplyAllAppend(s.disk, SecretWrites(s, url, up), [meta]);
    ApplyOne(RemoveSecrets(s.disk, url, AllWell(up)), meta);
  }

  // --- What a reopened store may answer ---

  /** A token after a crash: the old answer, the new answer, or an error. */
  predicate OldNewOrError(after: Option<string>, old0: Option<string>, new0: Option<string>) {
    after.None? || after == old0 || after == new0
  }

  /** After reopening what is left, every token read gives its old answer, its new one or an error. */
  ghost predicate CrashSafe(s: Store, final: Store, up: bool, left: Disk) {
    Open(left).Some? ==>
      forall url :: OldNewOrError(Token(Open(left).value, up, url), Token(s, up, url), Token(final, up, url))
  }

  // Memory and metadata file agree, as after any successful save.
  ghost predicate Synced(s: Store) {
    Open(s.disk) == Some(s)
  }

  /**
   A token hidden behind the keychain: the file holds a different value for the same
   key, left from a time when the keychain was unavailable.
   */
  predicate Shadowed(s: Store, up: bool, key: string) {
    up && key in s.sites && key in s.disk.keychain && key in LoadTokens(s.disk) &&
    s.disk.keychain[key] != LoadTokens(s.disk)[key]
  }

  // The metadata stands between the first and the last write of an operation.
  predicate MetaPending(d: Disk, left: Disk) {
    left.metaFile == d.metaFile || left.metaFile.Torn?
  }

  // A reopened disk whose metadata is still the old one and whose secrets are old, new or gone.
  lemma PendingIsSafe(s: Store, final: Store, up: bool, left: Disk)
    requires Synced(s) && MetaPending(s.disk, left)
    requires forall key :: key in s.sites ==>
               OldNewOrError(SecretAt(left, up, key), Token(s, up, key), Token(final, up, key))
    ensures CrashSafe(s, final, up, left)
  {
  }

  lemma FinishedIsSafe(s: Store, final: Store, up: bool)
    requires final.disk.metaFile == Json(Serialised(final.sites))
    ensures CrashSafe(s, final, up, final.disk)
  {
  }

  // --- AddSite ---

  // The secrets while AddSite is under way.
  predicate Growing(s: Store, site: PairedSite, up: bool, left: Disk) {
    left == s.disk ||
    (site.siteToken != "" &&
     (left == PutSecret(s.disk, up, Done, site.siteURL, site.siteToken).0 ||
      (!up && left == s.disk.(tokenFile := Torn))))
  }

  lemma AddCrashCases(s: Store, site: PairedSite, up: bool, left: Disk)
    requires CrashLeaves(s.disk, AddWrites(s, site, up), left)
    ensures left == AddSite(s, site, AllWell(up)).0.disk ||
            exists d :: Growing(s, site, up, d) && (left == d || left == d.(metaFile := Torn))
  {
    var ws := AddWrites(s, site, up);
    AddIsItsWrites(s, site, up);
    var d := s.disk;
    if site.siteToken == "" {
      assert ws[1..] == [];
      assert Growing(s, site, up, d);
    } else {
      var d1 := Apply(d, ws[0]);
      assert ws[1..] == [ws[1]] && ws[1..][1..] == [];
      assert ApplyAll(d, ws) == ApplyAll(d1, ws[1..]);
      ApplyOne(d1, ws[1]);
      assert left == d || left == Tear(d, ws[0]) || CrashLeaves(d1, ws[1..], left);
      assert CrashLeaves(d1, ws[1..], left) ==>
          left == d1 || left == Tear(d1, ws[1]) || CrashLeaves(Apply(d1, ws[1]), [], left);
      assert Growing(s, site, up, d) && Growing(s, site, up, d1) && Growing(s, site, up, Tear(d, ws[0]));
    }
  }

  /** A crash anywhere in AddSite leaves every token old, new or unreadable. */
  lemma AddCrashSafe(s: Store, site: PairedSite, up: bool, left: Disk)
    requires Synced(s) && CrashLeaves(s.disk, AddWrites(s, site, up), left)
    ensures CrashSafe(s, AddSite(s, site, AllWell(up)).0, up, left)
  {
    var final := AddSite(s, site, AllWell(up)).0;
    AddCrashCases(s, site, up, left);
    if left == final.disk {
      FinishedIsSafe(s, final, up);
    } else {
      forall key | key in s.sites
        ensures OldNewOrError(SecretAt(left, up, key), Token(s, up, key), Token(final, up, key))
      {
        PutThenRead(s.disk, up, Done, site.siteURL, site.siteToken, key);
      }
      PendingIsSafe(s, final, up, left);
    }
  }

  // --- RemoveSite ---

  predicate SubSecrets(a: Secrets, b: Secrets) {
    forall key :: key in a ==> key in b && a[key] == b[key]
  }

  /** Nothing was added to either tier. */
  predicate Shrunk(d: Disk, left: Disk) {
    SubSecrets(left.keychain, d.keychain) && SubSecrets(LoadTokens(left), LoadTokens(d))
  }

  predicate Shrinks(d: Disk, w: Write) {
    w.KeychainDrop? || w.TokenFileRemoved? || (w.TokenFile? && SubSecrets(w.tokens, LoadTokens(d)))
  }

  lemma {:induction false} ShrinkingCrash(d0: Disk, d: Disk, ws: seq<Write>, sites: Sites, left: Disk)
    requires Shrunk(d0, d) && MetaPending(d0, d) && forall w :: w in ws ==> Shrinks(d0, w)
    requires CrashLeaves(d, ws + [MetaFile(sites)], left)
    ensures left == ApplyAll(d, ws + [MetaFile(sites)]) || (Shrunk(d0, left) && MetaPending(d0, left))
    decreases |ws|
  {
    var all := ws + [MetaFile(sites)];
    if ws == [] {
      assert all[1..] == [];
    } else {
      assert ws[0] in ws && forall w :: w in ws[1..] ==> w in ws;
      assert all[1..] == ws[1..] + [MetaFile(sites)];
      if left != d && left != Tear(d, ws[0]) {
        ShrinkingCrash(d0, Apply(d, ws[0]), ws[1..], sites, left);
      }
    }
  }

  lemma FileDropShrinks(d: Disk, d': Disk, key: string)
    requires SubSecrets(LoadTokens(d'), LoadTokens(d))
    ensures forall w :: w in FileDropWrites(d', key) ==> Shrinks(d, w)
  {
  }

  lemma SecretWritesShrink(s: Store, url: string, up: bool)
    ensures forall w :: w in SecretWrites(s, url, up) ==> Shrinks(s.disk, w)
  {
    var f1, d1 := FileDropWrites(s.disk, url), DropFromFile(s.disk, Done, url);
    var f2 := FileDropWrites(d1, HmacKey(url));
    FileDropShrinks(s.disk, s.disk, url);
    forall key | key in LoadTokens(d1)
      ensures key in LoadTokens(s.disk) && LoadTokens(d1)[key] == LoadTokens(s.disk)[key]
    {
      DropFileThenRead(s.disk, Done, url, key);
    }
    FileDropShrinks(s.disk, d1, HmacKey(url));
    forall w | w in SecretWrites(s, url, up) ensures Shrinks(s.disk, w) {
      assert w in KeychainDropWrites(url, up) || w in f1 || w in f2;
    }
  }

  // What a crash in RemoveSite leaves: the finished operation, or less than there was under the old metadata.
  lemma RemoveCrashCases(s: Store, url: string, up: bool, left: Disk)
    requires CrashLeaves(s.disk, RemoveWrites(s, url, up), left)
    ensures left == RemoveSite(s, url, AllWell(up)).0.disk || (Shrunk(s.disk, left) && MetaPending(s.disk, left))
    ensures KeepsKeychain(s, url, left)
  {
    SecretWritesShrink(s, url, up);
    ShrinkingCrash(s.disk, s.disk, SecretWrites(s, url, up), Serialised(s.sites - {url}), left);
    RemoveIsItsWrites(s, url, up);
    RemoveDropsOnly(s, url, up);
    CrashKeepsKeychain(s, url, s.disk, RemoveWrites(s, url, up), left);
  }

  // Without shadows, a shrunk disk answers as before or not at all.
  lemma ShrunkReads(s: Store, up: bool, left: Disk, key: string)
    requires Shrunk(s.disk, left) && key in s.sites && !Shadowed(s, up, key)
    ensures SecretAt(left, up, key).None? || SecretAt(left, up, key) == SecretAt(s.disk, up, key)
  {
  }

  // Keys other than the removed two keep both tiers' entries until the file is torn or rewritten whole.
  ghost predicate KeepsKeychain(s: Store, url: string, left: Disk) {
    forall key :: key in s.disk.keychain && key != url && key != HmacKey(url) ==> key in left.keychain
  }

  predicate DropsOnly(w: Write, url: string) {
    w.KeychainDrop? ==> w.key == url || w.key == HmacKey(url)
  }

  lemma {:induction false} CrashKeepsKeychain(s: Store, url: string, d: Disk, ws: seq<Write>, left: Disk)
    requires KeepsKeychain(s, url, d) && CrashLeaves(d, ws, left)
    requires forall w :: w in ws ==> DropsOnly(w, url)
    ensures KeepsKeychain(s, url, left)
    decreases |ws|
  {
    if left != d && ws != [] {
      assert ws[0] in ws && forall w :: w in ws[1..] ==> w in ws;
      if left != Tear(d, ws[0]) {
        CrashKeepsKeychain(s, url, Apply(d, ws[0]), ws[1..], left);
      }
    }
  }

  lemma RemoveDropsOnly(s: Store, url: string, up: bool)
    ensures forall w :: w in RemoveWrites(s, url, up) ==> DropsOnly(w, url)
  {
  }

  /** A crash anywhere in RemoveSite, in a store that shadows neither key, leaves every token old, new or unreadable. */
  lemma RemoveCrashSafe(s: Store, url: string, up: bool, left: Disk)
    requires Synced(s) && CrashLeaves(s.disk, RemoveWrites(s, url, up), left)
    requires !Shadowed(s, up, url) && !Shadowed(s, up, HmacKey(url))
    ensures CrashSafe(s, RemoveSite(s, url, AllWell(up)).0, up, left)
  {
    var final := RemoveSite(s, url, AllWell(up)).0;
    RemoveCrashCases(s, url, up, left);
    if left == final.disk {
      FinishedIsSafe(s, final, up);
    } else {
      forall key | key in s.sites
        ensures OldNewOrError(SecretAt(left, up, key), Token(s, up, key), Token(final, up, key))
      {
        if key == url || key == HmacKey(url) {
          ShrunkReads(s, up, left, key);
        } else {
          assert key in s.disk.keychain ==> key in left.keychain;
        }
      }
      PendingIsSafe(s, final, up, left);
    }
  }

  // Dropping a shadowed keychain entry brings the hidden value back.
  lemma ShadowResurfaces(s: Store, url: string, up: bool, key: string, left: Disk)
    requires Synced(s) && Shadowed(s, up, key) && (key == url || key == HmacKey(url))
    requires key !in left.keychain && LoadTokens(left) == LoadTokens(s.disk) && left.metaFile == s.disk.metaFile
    ensures !CrashSafe(s, RemoveSite(s, url, AllWell(up)).0, up, left)
  {
    var final := RemoveSite(s, url, AllWell(up)).0;
    HmacKeys(url, url);
    RemoveThenRead(s.disk, url, AllWell(up), key);
    assert Open(left).value.sites == s.sites;
    assert Token(Open(left).value, up, key) == Some(LoadTokens(s.disk)[key]);
    assert Token(final, up, key) == None;
  }

  lemma ShadowedRemoveUnsafe(s: Store, url: string, up: bool)
    requires Synced(s) && (Shadowed(s, up, url) || Shadowed(s, up, HmacKey(url)))
    ensures exists left :: CrashLeaves(s.disk, RemoveWrites(s, url, up), left) &&
                           !CrashSafe(s, RemoveSite(s, url, AllWell(up)).0, up, left)
  {
    var ws := RemoveWrites(s, url, up);
    assert ws[0] == KeychainDrop(url) && ws[1] == KeychainDrop(HmacKey(url));
    var d1 := Apply(s.disk, ws[0]);
    var d2 := Apply(d1, ws[1]);
    assert CrashLeaves(d1, ws[1..], d1);
    assert CrashLeaves(s.disk, ws, d1);
    assert CrashLeaves(d2, ws[1..][1..], d2);
    assert CrashLeaves(d1, ws[1..], d2);
    assert CrashLeaves(s.disk, ws, d2);
    if Shadowed(s, up, url) {
      ShadowResurfaces(s, url, up, url, d1);
    } else {
      ShadowResurfaces(s, url, up, HmacKey(url), d2);
    }
  }

  /** RemoveSite survives a crash at any point exactly when neither of the two keys it drops is shadowed. */
  lemma RemoveCrashExact(s: Store, url: string, up: bool)
    requires Synced(s)
    ensures (forall left :: CrashLeaves(s.disk, RemoveWrites(s, url, up), left) ==>
                            CrashSafe(s, RemoveSite(s, url, AllWell(up)).0, up, left)) <==>
            !Shadowed(s, up, url) && !Shadowed(s, up, HmacKey(url))
  {
    if Shadowed(s, up, url) || Shadowed(s, up, HmacKey(url)) {
      ShadowedRemoveUnsafe(s, url, up);
    } else {
      forall left | CrashLeaves(s.disk, RemoveWrites(s, url, up), left)
        ensures CrashSafe(s, RemoveSite(s, url, AllWell(up)).0, up, left)
      {
        RemoveCrashSafe(s, url, up, left);
      }
    }
  }

  // --- Stores that never saw the availability change ---

  /**
   From an empty installation, with the keychain available throughout or unavailable
   throughout and every save reaching the file, no reachable store shadows anything and
   a crash in the next AddSite or RemoveSite leaves every token old, new or unreadable.
   */
  lemma ReachableCrashSafe(up: bool, ops: seq<Op>, site: PairedSite, url: string, left: Disk)
    requires forall op :: op in ops ==> PlainOp(op) && Saves(op)
    ensures var q := Run(NEW_PROCESS, up, ops).0;
      q.Running? && Synced(q.store) &&
      (CrashLeaves(q.store.disk, AddWrites(q.store, site, up), left) ==>
       CrashSafe(q.store, AddSite(q.store, site, AllWell(up)).0, up, left)) &&
      (CrashLeaves(q.store.disk, RemoveWrites(q.store, url, up), left) ==>
       CrashSafe(q.store, RemoveSite(q.store, url, AllWell(up)).0, up, left))
  {
    ReloadIsExact(up, ops);
    var s := Run(NEW_PROCESS, up, ops).0.store;
    OneTierRuns(NEW_PROCESS, up, ops);
    if CrashLeaves(s.disk, AddWrites(s, site, up), left) {
      AddCrashSafe(s, site, up, left);
    }
    if CrashLeaves(s.disk, RemoveWrites(s, url, up), left) {
      RemoveCrashSafe(s, url, up, left);
    }
  }
  // --- The order of the writes ---

  /** The token is written before the metadata: refused, the save leaves what all but the last write leave. */
  lemma AddSavesLast(s: Store, site: PairedSite, up: bool)
    ensures var ws := AddWrites(s, site, up);
      AddSite(s, site, AllWell(up).(metaWrite := Refused)).0.disk == ApplyAll(s.disk, ws[..|ws| - 1])
  {
    var ws := AddWrites(s, site, up);
    if site.siteToken == "" {
      assert ws[..|ws| - 1] == [];
    } else {
      assert ws[..|ws| - 1] == [ws[0]];
      ApplyOne(s.disk, ws[0]);
    }
  }

  /** And every secret is erased before it. */
  lemma RemoveSavesLast(s: Store, url: string, up: bool)
    ensures var ws := RemoveWrites(s, url, up);
      RemoveSite(s, url, AllWell(up).(metaWrite := Refused)).0.disk == ApplyAll(s.disk, ws[..|ws| - 1])
  {
    var ws, secrets := RemoveWrites(s, url, up), SecretWrites(s, url, up);
    assert ws[..|ws| - 1] == secrets;
    SecretsAreTheirWrites(s, url, up);
    RemoveKeepsMetadata(s.disk, url, AllWell(up));
  }
}
