/**
 The bridge's store of paired sites: metadata in memory and in a JSON file, secrets
 in the operating system's keychain or, where that fails, in a second JSON file. What each operation means,
 on values.
 */
module KeystoreSpec {
  import opened Common

  // Secrets of both kinds share one key space; this prefix tells them apart.
  const HMAC_PREFIX := "hmac:"

  function HmacKey(url: string): string {
    HMAC_PREFIX + url
  }

  datatype PairedSite = PairedSite(siteURL: string, siteToken: string, pairedOn: string, agentRegistration: string)

  type Sites = map<string, PairedSite>
  type Secrets = map<string, string>

  /** A JSON file; Torn is one whose writing was interrupted, which no longer parses. */
  datatype File<T> = Absent | Torn | Json(content: T)

  /** Everything that survives the process. */
  datatype Disk = Disk(keychain: Secrets, tokenFile: File<Secrets>, metaFile: File<Sites>)

  /** The keystore in memory, with the disk it stands on. */
  datatype Store = Store(sites: Sites, disk: Disk)

  /**
   How os.WriteFile can end, which truncates the file, writes and closes it: done;
   refused before the file was touched; failed with the file cut short; or complete,
   and an error reported on closing.
   */
  datatype WriteResult = Done | Refused | CutShort | Unconfirmed {
    predicate Lands() {
      Done? || Unconfirmed?
    }
  }

  // A file after such an attempt to give it new content.
  function Written<T>(f: File<T>, write: WriteResult, content: T): File<T> {
    if write.Lands() then Json(content) else if write.CutShort? then Torn else f
  }

  /** What the outside world answers one operation: is the keychain available, and how the file writes end. */
  datatype Io = Io(keychainUp: bool, tokenWrite: WriteResult, hmacWrite: WriteResult, metaWrite: WriteResult)

  // A JSON round trip of the metadata: the token field is never serialised.
  function Serialised(sites: Sites): Sites {
    map url | url in sites :: sites[url].(siteToken := "")
  }

  // loadTokenFile: an absent or unreadable file is an empty map.
  function LoadTokens(d: Disk): Secrets {
    if d.tokenFile.Json? then d.tokenFile.content else map[]
  }

  function PutSecret(d: Disk, up: bool, write: WriteResult, key: string, secret: string): (Disk, bool) {
    if up then (d.(keychain := d.keychain[key := secret]), true)
    else (d.(tokenFile := Written(d.tokenFile, write, LoadTokens(d)[key := secret])), write.Done?)
  }

  function DropFromKeychain(d: Disk, up: bool, key: string): Disk {
    if up then d.(keychain := d.keychain - {key}) else d
  }

  // The file is rewritten, or removed with its last key; a removal happens or does not.
  function DropFromFile(d: Disk, write: WriteResult, key: string): Disk {
    var tokens := LoadTokens(d);
    if key !in tokens then d
    else if tokens - {key} == map[] then (if write.Lands() then d.(tokenFile := Absent) else d)
    else d.(tokenFile := Written(d.tokenFile, write, tokens - {key}))
  }

  function Save(s: Store, write: WriteResult): Store {
    s.(disk := s.disk.(metaFile := Written(s.disk.metaFile, write, Serialised(s.sites))))
  }

  function AddSite(s: Store, site: PairedSite, io: Io): (Store, bool) {
    var (d, stored) := if site.siteToken == "" then (s.disk, true)
                       else PutSecret(s.disk, io.keychainUp, io.tokenWrite, site.siteURL, site.siteToken);
    if !stored then (s.(disk := d), false)
    else (Save(Store(s.sites[site.siteURL := site.(siteToken := "")], d), io.metaWrite), io.metaWrite.Done?)
  }

  function SetHMACSecret(s: Store, url: string, secret: string, io: Io): (Store, bool) {
    if secret == "" then (s, true)
    else
      var (d, stored) := PutSecret(s.disk, io.keychainUp, io.hmacWrite, HmacKey(url), secret);
      (s.(disk := d), stored)
  }

  function RemoveSecrets(d: Disk, url: string, io: Io): Disk {
    var d1 := DropFromKeychain(DropFromKeychain(d, io.keychainUp, url), io.keychainUp, HmacKey(url));
    DropFromFile(DropFromFile(d1, io.tokenWrite, url), io.hmacWrite, HmacKey(url))
  }

  function RemoveSite(s: Store, url: string, io: Io): (Store, bool) {
    (Save(Store(s.sites - {url}, RemoveSecrets(s.disk, url, io)), io.metaWrite), io.metaWrite.Done?)
  }

  /** What a read of a key finds: the keychain first, the file if the keychain fails or lacks the key. */
  function SecretAt(d: Disk, up: bool, key: string): Option<string> {
    if up && key in d.keychain then Some(d.keychain[key]) else Lookup(LoadTokens(d), key)
  }

  /** Token; None is an error. */
  function Token(s: Store, up: bool, url: string): Option<string> {
    if url in s.sites then SecretAt(s.disk, up, url) else None
  }

  /** HMACSecret; None is an error, the empty string a site without a secret. */
  function HMACSecret(s: Store, up: bool, url: string): Option<string> {
    if url !in s.sites then None
    else if SecretAt(s.disk, up, HmacKey(url)).Some? then SecretAt(s.disk, up, HmacKey(url))
    else Some("")
  }

  /** NewKeystore; None is the error for metadata that does not parse. */
  function Open(d: Disk): Option<Store> {
    match d.metaFile
    case Absent => Some(Store(map[], d))
    case Torn => None
    case Json(sites) => Some(Store(Serialised(sites), d))
  }
}
