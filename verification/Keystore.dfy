/** The keystore as the bridge runs it: an object whose map and files the operations change step by step. */
module Keystores {
  import opened Common
  import opened KeystoreSpec
  import Spec = KeystoreSpec

  class Keystore {
    var sites: Sites
    var keychain: Secrets
    var tokenFile: File<Secrets>
    var metaFile: File<Sites>

    /** The value this object stands for. */
    function Now(): Store
      reads this
    {
      Store(sites, Disk(keychain, tokenFile, metaFile))
    }

    constructor (sites: Sites, d: Disk)
      ensures Now() == Store(sites, d)
    {
      this.sites := sites;
      keychain, tokenFile, metaFile := d.keychain, d.tokenFile, d.metaFile;
    }

    method LoadTokenFile() returns (tokens: Secrets)
      ensures tokens == LoadTokens(Now().disk)
    {
      tokens := map[];
      if tokenFile.Json? {
        tokens := tokenFile.content;
      }
    }

    /** os.WriteFile on the token file. */
    method WriteTokenFile(tokens: Secrets, write: WriteResult) returns (ok: bool)
      modifies this`tokenFile
      ensures ok <==> write.Done?
      ensures Now().disk == old(Now().disk).(tokenFile := Written(old(tokenFile), write, tokens))
    {
      if write.Refused? {
        return false;
      }
      tokenFile := Torn;
      if write.CutShort? {
        return false;
      }
      tokenFile := Json(tokens);
      return write.Done?;
    }

    method SetTokenFile(key: string, secret: string, write: WriteResult) returns (ok: bool)
      modifies this`tokenFile
      ensures (Now().disk, ok) == PutSecret(old(Now().disk), false, write, key, secret)
    {
      var tokens := LoadTokenFile();
      tokens := tokens[key := secret];
      ok := WriteTokenFile(tokens, write);
    }

    method DeleteTokenFile(key: string, write: WriteResult)
      modifies this`tokenFile
      ensures Now().disk == DropFromFile(old(Now().disk), write, key)
    {
      var tokens := LoadTokenFile();
      if key !in tokens {
        return;
      }
      tokens := tokens - {key};
      if tokens == map[] {
        if write.Lands() {
          tokenFile := Absent;
        }
      } else {
        var _ := WriteTokenFile(tokens, write);
      }
    }

    method SaveMetadata(write: WriteResult) returns (ok: bool)
      modifies this`metaFile
      ensures (ok <==> write.Done?) && Now() == Save(old(Now()), write)
    {
      var data := Serialised(sites);
      if write.Refused? {
        return false;
      }
      metaFile := Torn;
      if write.CutShort? {
        return false;
      }
      metaFile := Json(data);
      return write.Done?;
    }

    method AddSite(site: PairedSite, io: Io) returns (ok: bool)
      modifies this
      ensures (Now(), ok) == Spec.AddSite(old(Now()), site, io)
      ensures ok && site.siteToken != "" ==> Spec.Token(Now(), io.keychainUp, site.siteURL) == Some(site.siteToken)
    {
      if site.siteToken != "" {
        if io.keychainUp {
          keychain := keychain[site.siteURL := site.siteToken];
        } else {
          var stored := SetTokenFile(site.siteURL, site.siteToken, io.tokenWrite);
          if !stored {
            return false;
          }
        }
      }
      var stripped := site.(siteToken := "");
      sites := sites[site.siteURL := stripped];
      ok := SaveMetadata(io.metaWrite);
    }

    method Token(url: string, up: bool) returns (token: Option<string>)
      ensures token == Spec.Token(Now(), up, url)
    {
      if url !in sites {
        return None;
      }
      if up && url in keychain {
        return Some(keychain[url]);
      }
      var tokens := LoadTokenFile();
      if url in tokens {
        return Some(tokens[url]);
      }
      return None;
    }

    method ValidateToken(url: string, token: string, up: bool) returns (ok: bool)
      ensures ok <==> Spec.Token(Now(), up, url) == Some(token)
    {
      var stored := Token(url, up);
      if stored.None? {
        return false;
      }
      return stored.value == token;
    }

    method SetHMACSecret(url: string, secret: string, io: Io) returns (ok: bool)
      modifies this`keychain, this`tokenFile
      ensures (Now(), ok) == Spec.SetHMACSecret(old(Now()), url, secret, io)
      ensures ok && secret != "" && url in sites ==> Spec.HMACSecret(Now(), io.keychainUp, url) == Some(secret)
    {
      if secret == "" {
        return true;
      }
      var key := HmacKey(url);
      if io.keychainUp {
        keychain := keychain[key := secret];
        return true;
      }
      ok := SetTokenFile(key, secret, io.hmacWrite);
    }

    method HMACSecret(url: string, up: bool) returns (secret: Option<string>)
      ensures secret == Spec.HMACSecret(Now(), up, url)
    {
      if url !in sites {
        return None;
      }
      var key := HmacKey(url);
      if up && key in keychain {
        return Some(keychain[key]);
      }
      var tokens := LoadTokenFile();
      if key in tokens {
        return Some(tokens[key]);
      }
      return Some("");
    }

    method RemoveSite(url: string, io: Io) returns (ok: bool)
      modifies this
      ensures (Now(), ok) == Spec.RemoveSite(old(Now()), url, io)
    {
      sites := sites - {url};
      var hmacKey := HmacKey(url);
      if io.keychainUp {
        keychain := keychain - {url};
        keychain := keychain - {hmacKey};
      }
      DeleteTokenFile(url, io.tokenWrite);
      DeleteTokenFile(hmacKey, io.hmacWrite);
      ok := SaveMetadata(io.metaWrite);
    }
  }

  /** NewKeystore; null is the error. */
  method NewKeystore(d: Disk) returns (ks: Keystore?)
    ensures ks == null <==> Open(d).None?
    ensures ks != null ==> fresh(ks) && ks.Now() == Open(d).value
  {
    match d.metaFile {
      case Absent =>
        ks := new Keystore(map[], d);
      case Torn =>
        ks := null;
      case Json(sites) =>
        ks := new Keystore(Serialised(sites), d);
    }
  }
}
