/** Which answer the certificate decisions give, reason by reason. */
module AllowListAnswers {
  import opened Common
  import opened AllowList
  import opened AllowListProofs

  // --- Fingerprints in either case ---

  // A small letter of the alphabet and its capital.
  predicate CaseOf(small: char, capital: char) {
    'a' <= small <= 'z' && 'A' <= capital <= 'Z' && small as int - 'a' as int == capital as int - 'A' as int
  }

  /** The same text but for the case of letters. */
  predicate SameText(a: string, b: string) {
    |a| == |b| && forall i :: 0 <= i < |a| ==> a[i] == b[i] || CaseOf(a[i], b[i]) || CaseOf(b[i], a[i])
  }

  lemma UpperExactly(a: string, b: string)
    ensures Upper(a) == Upper(b) <==> SameText(a, b)
  {
    if Upper(a) == Upper(b) {
      forall i | 0 <= i < |a| ensures a[i] == b[i] || CaseOf(a[i], b[i]) || CaseOf(b[i], a[i]) {
        assert Upper(a)[i] == Upper(b)[i];
      }
    }
  }

  /** A certificate matches exactly the texts of its fingerprint in any case, if it has one. */
  lemma MatchesExactly(certs: Certificates, name: string, fingerprint: string)
    ensures Matches(certs, name, Upper(fingerprint)) <==>
            name in certs && certs[name].fingerprint != "" && SameText(certs[name].fingerprint, fingerprint)
  {
    if name in certs {
      UpperExactly(certs[name].fingerprint, fingerprint);
    }
  }

  /** No decision depends on the case in which the fingerprint is presented. */
  lemma CaseIsIgnored(certs: Certificates, table: Table, order: seq<string>, device: Option<DeviceMap>, user: string,
                      roles: set<string>, doctype: string, a: string, b: string, ignoreCase: bool)
    requires SameText(a, b)
    ensures VerifyApproval(certs, table, user, a, doctype) == VerifyApproval(certs, table, user, b, doctype)
    ensures VerifySigning(certs, table, user, a, doctype) == VerifySigning(certs, table, user, b, doctype)
    ensures VerifyAtLogin(certs, order, device, user, roles, a, ignoreCase) ==
            VerifyAtLogin(certs, order, device, user, roles, b, ignoreCase)
  {
    UpperExactly(a, b);
  }

  // --- Approval and signing ---

  predicate NoneMatches(certs: Certificates, names: seq<string>, fp: string) {
    forall name :: name in names ==> !Matches(certs, name, fp)
  }

  /** The first certificate on the list with the fingerprint names users, and not this one. */
  predicate FirstMatchRefuses(certs: Certificates, names: seq<string>, fp: string, user: string) {
    exists k {:trigger names[k]} ::
      0 <= k < |names| && Matches(certs, names[k], fp) && !Permits(certs, names[k], user) &&
      forall i :: 0 <= i < k ==> !Matches(certs, names[i], fp)
  }

  // The settings have a row of the user's own.
  predicate HasRow(table: Table, user: string, doctype: string) {
    doctype in table && exists row :: row in table[doctype].users && row.user == user
  }

  /** What is answered where these certificates are demanded, each answer exactly for its own reason. */
  predicate AnswersRightly(certs: Certificates, names: seq<string>, fp: string, user: string, ownRow: bool,
                           v: Verdict)
  {
    (v == Accepted <==> names == [] || FirstMatchPermits(certs, names, fp, user)) &&
    (v == NotAuthorisedForCertificate <==> FirstMatchRefuses(certs, names, fp, user)) &&
    (v == NotAssigned <==> names != [] && NoneMatches(certs, names, fp) && ownRow) &&
    (v == NotForDoctype <==> names != [] && NoneMatches(certs, names, fp) && !ownRow) &&
    v != MissingFingerprint && v != MissingDoctype
  }

  lemma SearchAnswered(certs: Certificates, names: seq<string>, fp: string, user: string)
    ensures AnswersRightly(certs, names, fp, user, false,
                           if names == [] then Accepted else SearchApproval(certs, names, fp, user))
  {
    SearchExactly(certs, names, fp, user);
    if exists name :: name in names && Matches(certs, name, fp) {
      var k := FirstMatch(certs, names, fp);
      SearchIsFirstMatch(certs, names, fp, user, k);
      assert names[k] in names;
    } else {
      SearchWithoutMatch(certs, names, fp, user);
    }
  }

  lemma RowAnswered(certs: Certificates, name: string, fp: string, user: string, v: Verdict)
    requires v == if !Matches(certs, name, fp) then NotAssigned
                  else if Permits(certs, name, user) then Accepted else NotAuthorisedForCertificate
    ensures AnswersRightly(certs, [name], fp, user, true, v)
  {
    assert [name][0] == name;
  }

  /**
   Each answer of an approval is given exactly for its own reason: no fingerprint, no
   document type, a certificate of other users, one that is not the user's, one that is
   not on the list.
   */
  lemma ApprovalAnsweredExactly(certs: Certificates, table: Table, user: string, fingerprint: string, doctype: string)
    ensures var v := VerifyApproval(certs, table, user, fingerprint, doctype);
      (v == MissingFingerprint <==> fingerprint == "") &&
      (v == MissingDoctype <==> fingerprint != "" && doctype == "") &&
      (fingerprint != "" && doctype != "" ==>
       AnswersRightly(certs, Demanded(table, user, doctype), Upper(fingerprint), user, HasRow(table, user, doctype), v))
  {
    var v := VerifyApproval(certs, table, user, fingerprint, doctype);
    if doctype in table && doctype != "" && fingerprint != "" {
      DemandedByRow(table, user, doctype);
      FindUserExactly(table[doctype].users, user);
      match FindUser(table[doctype].users, user) {
        case Some(row) =>
          if row.certificate != "" {
            RowAnswered(certs, row.certificate, Upper(fingerprint), user, v);
          }
        case None => SearchAnswered(certs, table[doctype].allowed, Upper(fingerprint), user);
      }
    }
  }

  /** Signing gives everyone the answer of an approval, but accepts the Administrator in any case. */
  lemma SigningAnsweredExactly(certs: Certificates, table: Table, user: string, fingerprint: string, doctype: string)
    ensures VerifySigning(certs, table, user, fingerprint, doctype) ==
            if user == "Administrator" then Accepted else VerifyApproval(certs, table, user, fingerprint, doctype)
  {
    ApprovalAndSigningAgreeExactly(certs, table, user, fingerprint, doctype);
  }

  // --- Login ---

  predicate Demands(device: Option<DeviceMap>) {
    device.Some? && device.value.required
  }

  /** The certificate is on the list and has the fingerprint, as the database compares it. */
  predicate OnList(certs: Certificates, names: seq<string>, fp: string, ignoreCase: bool, name: string) {
    name in names && name in certs &&
    if ignoreCase then SameText(certs[name].fingerprint, fp) else certs[name].fingerprint == fp
  }

  predicate FirstOnList(certs: Certificates, order: seq<string>, names: seq<string>, fp: string, ignoreCase: bool,
                        name: string)
  {
    exists k :: 0 <= k < |order| && order[k] == name && OnList(certs, names, fp, ignoreCase, name) &&
                forall i :: 0 <= i < k ==> !OnList(certs, names, fp, ignoreCase, order[i])
  }

  lemma {:induction false} FirstFound(certs: Certificates, order: seq<string>, names: seq<string>, fp: string,
                                      ignoreCase: bool)
    ensures FindOnList(certs, order, names, fp, ignoreCase).None? <==>
            forall name :: name in order ==> !OnList(certs, names, fp, ignoreCase, name)
    ensures forall name :: FindOnList(certs, order, names, fp, ignoreCase) == Some(name) <==>
                           FirstOnList(certs, order, names, fp, ignoreCase, name)
  {
    if order == [] {
    } else {
      var head, rest := order[0], order[1..];
      if head in certs {
        UpperExactly(certs[head].fingerprint, fp);
      }
      assert order == [head] + rest;
      FirstFound(certs, rest, names, fp, ignoreCase);
      forall name ensures FirstOnList(certs, order, names, fp, ignoreCase, name) <==>
                          if OnList(certs, names, fp, ignoreCase, head) then name == head
                          else FirstOnList(certs, rest, names, fp, ignoreCase, name)
      {
        FirstUnfolds(certs, order, names, fp, ignoreCase, name);
      }
    }
  }

  lemma FirstUnfolds(certs: Certificates, order: seq<string>, names: seq<string>, fp: string, ignoreCase: bool,
                     name: string)
    requires order != []
    ensures FirstOnList(certs, order, names, fp, ignoreCase, name) <==>
            if OnList(certs, names, fp, ignoreCase, order[0]) then name == order[0]
            else FirstOnList(certs, order[1..], names, fp, ignoreCase, name)
  {
    var rest := order[1..];
    assert forall i :: 0 < i < |order| ==> order[i] == rest[i - 1];
    assert forall i :: 0 <= i < |rest| ==> rest[i] == order[i + 1];
  }

  /**
   Each answer at login likewise: no user or fingerprint; a device for others, or a
   certificate that is not on its list; a certificate on the list that does not name the
   user. Of certificates with one fingerprint the first in the table decides.
   */
  lemma LoginAnsweredExactly(certs: Certificates, order: seq<string>, device: Option<DeviceMap>, user: string,
                             roles: set<string>, fingerprint: string, ignoreCase: bool)
    ensures var v := VerifyAtLogin(certs, order, device, user, roles, fingerprint, ignoreCase);
      var given, names, fp := user != "" && fingerprint != "", ListOf(device), Upper(fingerprint);
      var barred := Demands(device) && Barred(device.value, user, roles);
      (v == MissingFingerprint <==> !given) &&
      (v == Accepted <==>
       given && !barred &&
       (names == [] || exists n :: FirstOnList(certs, order, names, fp, ignoreCase, n) && user in certs[n].users)) &&
      (v == NotAuthorisedForCertificate <==>
       given && !barred &&
       exists n :: FirstOnList(certs, order, names, fp, ignoreCase, n) && user !in certs[n].users) &&
      (v == NotOnThisDevice <==>
       given && (barred || (names != [] && forall n :: n in order ==> !OnList(certs, names, fp, ignoreCase, n))))
  {
    FirstFound(certs, order, ListOf(device), Upper(fingerprint), ignoreCase);
  }

  // The certificates a device demands one of.
  function ListOf(device: Option<DeviceMap>): seq<string> {
    if Demands(device) then device.value.allowed else []
  }

  /** A certificate is required at login exactly on a device with such a list, of the named users it is meant for. */
  lemma RequiredAtLoginExactly(device: Option<DeviceMap>, user: string, roles: set<string>)
    ensures IsRequiredAtLogin(device, user, roles) <==>
            ListOf(device) != [] && user !in {"", "Administrator"} && !Barred(device.value, user, roles)
  {
  }
}
