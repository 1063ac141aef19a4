/** The bridge's in-memory PIN cache, keyed by certificate fingerprint. */
module PinCaches {
  import opened Common

  type Pins = map<string, string>

  function Cached(pins: Pins, fingerprint: string): Option<string> {
    if fingerprint == "" then None else Lookup(pins, fingerprint)
  }

  function Remember(pins: Pins, fingerprint: string, pin: string): Pins {
    if fingerprint == "" || pin == "" then pins else pins[fingerprint := pin]
  }

  function Forget(pins: Pins, fingerprint: string): Pins {
    pins - {fingerprint}
  }

  /** What every sequence of cache operations keeps: neither fingerprints nor PINs are empty. */
  ghost predicate Proper(pins: Pins) {
    forall f :: f in pins ==> f != "" && pins[f] != ""
  }

  class PINCache {
    var pins: Pins

    constructor ()
      ensures pins == map[]
    {
      pins := map[];
    }

    method Get(fingerprint: string) returns (pin: Option<string>)
      ensures pin == Cached(pins, fingerprint)
    {
      if fingerprint == "" {
        return None;
      }
      if fingerprint in pins {
        return Some(pins[fingerprint]);
      }
      return None;
    }

    method Set(fingerprint: string, pin: string)
      modifies this
      ensures pins == Remember(old(pins), fingerprint, pin)
      ensures old(Proper(pins)) ==> Proper(pins)
    {
      if fingerprint == "" || pin == "" {
        return;
      }
      pins := pins[fingerprint := pin];
    }

    method Drop(fingerprint: string)
      requires Proper(pins)
      modifies this
      ensures pins == Forget(old(pins), fingerprint) && Proper(pins)
    {
      if fingerprint == "" {
        assert "" !in pins;
        return;
      }
      pins := pins - {fingerprint};
    }
  }
}
