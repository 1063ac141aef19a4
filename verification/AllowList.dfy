/**
 The server's certificate decisions: is a certificate required for an approval, is
 this one accepted for approval, for signing, and at login. Each is a separate
 early-return program in the repository.
 */
module AllowList {
  import opened Common

  datatype Certificate = Certificate(fingerprint: string, users: seq<string>)
  type Certificates = map<string, Certificate>

  // A row of approval users; an empty reference assigns no certificate.
  datatype UserRow = UserRow(user: string, certificate: string)

  /** The settings of one document type: rows of users, and a list of allowed certificates. */
  datatype Settings = Settings(users: seq<UserRow>, allowed: seq<string>)

  // The active settings, by document type.
  type Table = map<string, Settings>

  datatype Verdict =
    | Accepted
    | MissingFingerprint | MissingDoctype
    | NotAuthorisedForCertificate | NotAssigned | NotForDoctype
    | NotOnThisDevice

  function FindUser(rows: seq<UserRow>, user: string): Option<UserRow> {
    if rows == [] then None
    else if rows[0].user == user then Some(rows[0])
    else FindUser(rows[1..], user)
  }

  // What get_value finds for a certificate's fingerprint; "" when there is no such certificate.
  function Assigned(certs: Certificates, name: string): string {
    if name in certs then certs[name].fingerprint else ""
  }

  function Users(certs: Certificates, name: string): seq<string> {
    if name in certs then certs[name].users else []
  }

  // --- Approvals: workflow_approval.py ---

  /** is_dsc_required */
  predicate IsRequired(table: Table, user: string, doctype: string) {
    if user == "Administrator" then false
    else if doctype == "" then false
    else if doctype !in table then false
    else
      var row := FindUser(table[doctype].users, user);
      if row.Some? then row.value.certificate != "" else |table[doctype].allowed| > 0
  }

  function SearchApproval(certs: Certificates, names: seq<string>, fingerprint: string, user: string): Verdict {
    if names == [] then NotForDoctype
    else
      var itsPrint := Assigned(certs, names[0]);
      if itsPrint != "" && Upper(itsPrint) == fingerprint then
        var users := Users(certs, names[0]);
        if users != [] && user !in users then NotAuthorisedForCertificate else Accepted
      else SearchApproval(certs, names[1..], fingerprint, user)
  }

  /** verify_workflow_certificate */
  function VerifyApproval(certs: Certificates, table: Table, user: string, fingerprint: string,
    doctype: string): Verdict {
    if fingerprint == "" then MissingFingerprint
    else if doctype == "" then MissingDoctype
    else if doctype !in table then Accepted
    else
      var fp := Upper(fingerprint);
      var row := FindUser(table[doctype].users, user);
      if row.Some? then
        if row.value.certificate == "" then Accepted
        else
          var itsPrint := Assigned(certs, row.value.certificate);
          if itsPrint != "" && Upper(itsPrint) == fp then
            var users := Users(certs, row.value.certificate);
            if users != [] && user !in users then NotAuthorisedForCertificate else Accepted
          else NotAssigned
      else if table[doctype].allowed == [] then Accepted
      else SearchApproval(certs, table[doctype].allowed, fp, user)
  }

  // --- Signing: direct_dsc.py ---

  function SearchSigning(certs: Certificates, names: seq<string>, fingerprint: string, user: string): Verdict {
    if names == [] then NotForDoctype
    else if Assigned(certs, names[0]) != "" && Upper(Assigned(certs, names[0])) == fingerprint then
      if Users(certs, names[0]) != [] && user !in Users(certs, names[0]) then NotAuthorisedForCertificate
      else Accepted
    else SearchSigning(certs, names[1..], fingerprint, user)
  }

  /** verify_direct_certificate */
  function VerifySigning(certs: Certificates, table: Table, user: string, fingerprint: string,
    doctype: string): Verdict {
    if user == "Administrator" then Accepted
    else if fingerprint == "" then MissingFingerprint
    else if doctype == "" then MissingDoctype
    else if doctype !in table then Accepted
    else
      var s, fp := table[doctype], Upper(fingerprint);
      match FindUser(s.users, user)
      case Some(row) =>
        if row.certificate == "" then Accepted
        else if Assigned(certs, row.certificate) != "" && Upper(Assigned(certs, row.certificate)) == fp then
          var users := Users(certs, row.certificate);
          if users != [] && user !in users then NotAuthorisedForCertificate else Accepted
        else NotAssigned
      case None =>
        if s.allowed == [] then Accepted else SearchSigning(certs, s.allowed, fp, user)
  }

  // --- Login: login.py ---

  /** A device's settings: is a certificate demanded, for whom, and which ones. */
  datatype DeviceMap = DeviceMap(required: bool, users: seq<string>, roles: seq<string>, allowed: seq<string>)

  /** How the database compares fingerprints: its collation may ignore case. */
  predicate SamePrint(ignoreCase: bool, a: string, b: string) {
    if ignoreCase then Upper(a) == Upper(b) else a == b
  }

  // The first certificate, in the table's own order, that is on the list and has the fingerprint.
  function FindOnList(certs: Certificates, order: seq<string>, names: seq<string>, fingerprint: string,
    ignoreCase: bool): Option<string> {
    if order == [] then None
    else if order[0] in names && order[0] in certs && SamePrint(ignoreCase, certs[order[0]].fingerprint, fingerprint)
    then Some(order[0])
    else FindOnList(certs, order[1..], names, fingerprint, ignoreCase)
  }

  /** _check_cert_allowed; `order` is the order of the certificate table. */
  function CheckOnDevice(certs: Certificates, order: seq<string>, names: seq<string>, fingerprint: string, user: string,
                         ignoreCase: bool): Verdict
  {
    if names == [] then NotOnThisDevice
    else
      match FindOnList(certs, order, names, fingerprint, ignoreCase)
      case None => NotOnThisDevice
      case Some(name) => if user in Users(certs, name) then Accepted else NotAuthorisedForCertificate
  }

  /** check_user_or_role_access */
  predicate MayUseDevice(d: DeviceMap, user: string, roles: set<string>) {
    (d.users == [] && d.roles == []) || user in d.users || exists r :: r in d.roles && r in roles
  }

  /** is_dsc_required of the login */
  predicate IsRequiredAtLogin(device: Option<DeviceMap>, user: string, roles: set<string>) {
    user != "Administrator" && user != "" && device.Some? && device.value.required && device.value.allowed != [] &&
    MayUseDevice(device.value, user, roles)
  }

  /** verify_certificate_mapping */
  function VerifyAtLogin(certs: Certificates, order: seq<string>, device: Option<DeviceMap>, user: string,
                         roles: set<string>, fingerprint: string, ignoreCase: bool): Verdict
  {
    if user == "" || fingerprint == "" then MissingFingerprint
    else if device.None? || !device.value.required then Accepted
    else if !MayUseDevice(device.value, user, roles) then NotOnThisDevice
    else if device.value.allowed == [] then Accepted
    else CheckOnDevice(certs, order, device.value.allowed, Upper(fingerprint), user, ignoreCase)
  }
}
