/** The server side of pairing as it runs, over a cache and a database that its calls change. */
module Pairing {
  import opened Common
  import opened PairingSpec
  import PairingProofs

  class Site {
    var now: nat
    var cache: map<string, CodeEntry>
    var registrations: map<string, Registration>
    var secret: string
    ghost var issued: map<string, CodeEntry>
    ghost var redeemed: map<string, Redemption>
    ghost var lost: set<string>
    ghost var granted: map<string, string>
    ghost var epoch: nat

    ghost function Now(): Server
      reads this
    {
      Server(now, cache, registrations, secret, issued, redeemed, lost, granted, epoch)
    }

    constructor ()
      ensures Now() == NEW
    {
      now, cache, registrations, secret := 0, map[], map[], "";
      issued, redeemed, lost, granted, epoch := map[], map[], {}, map[], 0;
    }

    /** generate_pairing_code, with the random code and the resolved user as parameters. */
    method GeneratePairingCode(ghost hash: string -> string, code: string, user: string, siteURL: string)
      modifies this
      ensures Now() == Generate(old(Now()), code, user, siteURL)
      ensures old(PairingProofs.Inv(hash, Now()) && code !in issued) ==> PairingProofs.Inv(hash, Now())
    {
      if PairingProofs.Inv(hash, Now()) && code !in issued {
        PairingProofs.IssueKeepsInv(hash, Now(), code, user, siteURL);
      }
      var payload := CodeEntry(user, siteURL, now);
      cache := cache[code := payload];
      issued := issued[code := payload];
    }

    method GetOrCreateHmacSecret(draw: string) returns (current: string)
      modifies this`secret
      ensures current == secret == SecretFor(old(Now()), draw)
    {
      if secret != "" {
        return secret;
      }
      secret := draw;
      return draw;
    }

    /** validate_pairing_code; the invariant of codes, registrations, secrets and tokens is kept. */
    method ValidatePairingCode(hash: string -> string, code: string, agentFP: string, draw: Draw, db: Database)
      returns (grant: Option<Grant>)
      modifies this
      ensures (Now(), grant) == Validate(hash, old(Now()), code, agentFP, draw, db)
      ensures old(PairingProofs.Inv(hash, Now()) && FreshDraw(Now(), draw)) ==> PairingProofs.Inv(hash, Now())
    {
      ghost var before := Now();
      grant := RedeemCode(hash, code, agentFP, draw, db);
      if PairingProofs.Inv(hash, before) && FreshDraw(before, draw) {
        PairingProofs.RedeemKeepsInv(hash, before, code, agentFP, draw, db);
      }
    }

    // Its steps.
    method RedeemCode(hash: string -> string, code: string, agentFP: string, draw: Draw, db: Database)
      returns (grant: Option<Grant>)
      modifies this
      ensures (Now(), grant) == Validate(hash, old(Now()), code, agentFP, draw, db)
    {
      if code !in cache || now >= cache[code].createdAt + PAIRING_TTL_SECONDS {
        return None;
      }
      var data := cache[code];
      cache := cache - {code};
      var tokenHash := hash(draw.token);
      if db.InsertFails? {
        lost := lost + {code};
        return None;
      }
      registrations := registrations[draw.name := Registration(data.user, agentFP, tokenHash, true, now)];
      granted := granted[draw.name := draw.token];
      if db.SecretFails? {
        redeemed := redeemed[code := Redemption(draw.name, now, "", epoch)];
        return None;
      }
      var hmacSecret := GetOrCreateHmacSecret(draw.secret);
      redeemed := redeemed[code := Redemption(draw.name, now, hmacSecret, epoch)];
      return Some(Grant(draw.token, draw.name, hmacSecret));
    }

    method VerifySiteToken(hash: string -> string, token: string, agentFP: string) returns (name: Option<string>)
      modifies this`registrations
      ensures MayVerify(hash, old(Now()), token, agentFP, name)
      ensures Now() == if name.Some? then Seen(old(Now()), name.value) else old(Now())
    {
      if token == "" {
        return None;
      }
      var tokenHash := hash(token);
      var matching := set n | n in registrations && registrations[n].tokenHash == tokenHash &&
                              registrations[n].active && (agentFP != "" ==> registrations[n].agentFP == agentFP);
      if matching == {} {
        assert forall n :: n in registrations ==> n !in matching;
        return None;
      }
      var found :| found in matching;
      registrations := registrations[found := registrations[found].(lastSeen := now)];
      return Some(found);
    }
  }
}
