/** The PKCS#11 handler as it runs: open a session, log in, choose the mechanism, sign. */
module Pkcs11Handlers {
  import opened Common
  import opened Pkcs11
  import Spec = Pkcs11

  class PKCS11Handler {
    var device: Device

    constructor (d: Device)
      ensures device == d
    {
      device := d;
    }

    /** SignHash: open a session, log in, choose the mechanism by key type, sign. */
    method SignHash(token: string, hash: Bytes, pin: string, oracle: Oracle) returns (r: Result, data: Option<Bytes>)
      requires token in device.tokens
      modifies this
      ensures (device, r) == Spec.SignHash(old(device), token, pin, oracle)
      ensures data == DataGiven(old(device), token, hash, pin, oracle)
    {
      data := None;
      if oracle.openFault.Some? {
        return Err(oracle.openFault.value), data;
      }
      if oracle.loginFault.Some? {
        return Err(oracle.loginFault.value), data;
      }
      var t := device.tokens[token];
      var refused: Option<nat> := None;
      if t.retries == 0 {
        refused := Some(CKR_PIN_LOCKED);
      } else if pin == t.pin {
        t := t.(retries := t.maxRetries);
      } else {
        t := t.(retries := t.retries - 1);
        refused := Some(oracle.refusal.Ckr());
      }
      device := device.(tokens := device.tokens[token := t]);
      if refused.Some? {
        return Err(Returned(refused.value)), data;
      }
      match t.key {
        case Rsa =>
          data := Some(Sha256DigestInfoPrefix() + hash);
        case Ec =>
          data := Some(hash);
        case OtherKey =>
          return Err(Other), data;
      }
      r := oracle.afterLogin;
    }
  }
}
