/** One declarative reading for the separate certificate decisions. */
module AllowListProofs {
  import opened Common
  import opened AllowList

  // --- The declarative reading ---

  predicate Matches(certs: Certificates, name: string, fp: string) {
    name in certs && certs[name].fingerprint != "" && Upper(certs[name].fingerprint) == fp
  }

  // An empty list of users permits everyone.
  predicate Permits(certs: Certificates, name: string, user: string) {
    name in certs ==> certs[name].users == [] || user in certs[name].users
  }

  /** Some allowed certificate has the fingerprint and permits the user. */
  predicate Entitled(certs: Certificates, names: seq<string>, fp: string, user: string) {
    exists name :: name in names && Matches(certs, name, fp) && Permits(certs, name, user)
  }

  /** All certificates on the list with the fingerprint agree about the user. */
  predicate MatchesAgree(certs: Certificates, names: seq<string>, fp: string, user: string) {
    forall m, n | m in names && n in names && Matches(certs, m, fp) && Matches(certs, n, fp) ::
      Permits(certs, m, user) <==> Permits(certs, n, user)
  }

  /** No two certificates on the list share a fingerprint. */
  predicate DistinctPrints(certs: Certificates, names: seq<string>) {
    forall m, n | m in names && n in names && Assigned(certs, m) != "" && Assigned(certs, n) != "" ::
      Upper(Assigned(certs, m)) == Upper(Assigned(certs, n)) ==> m == n
  }

  predicate Accept(v: Verdict) {
    v.Accepted?
  }

  // --- The first-match search ---

  lemma {:induction false} SearchesAgree(certs: Certificates, names: seq<string>, fp: string, user: string)
    ensures SearchApproval(certs, names, fp, user) == SearchSigning(certs, names, fp, user)
  {
    if names == [] {
    } else {
      SearchesAgree(certs, names[1..], fp, user);
    }
  }

  /** The search stops at the first certificate with the fingerprint, and that one decides. */
  lemma {:induction false} SearchIsFirstMatch(certs: Certificates, names: seq<string>, fp: string, user: string, k: nat)
    requires k < |names| && Matches(certs, names[k], fp)
    requires forall i :: 0 <= i < k ==> !Matches(certs, names[i], fp)
    ensures SearchApproval(certs, names, fp, user) ==
            if Permits(certs, names[k], user) then Accepted else NotAuthorisedForCertificate
  {
    if k == 0 {
    } else {
      assert !Matches(certs, names[0], fp);
      assert forall i :: 0 <= i < k - 1 ==> names[1..][i] == names[i + 1];
      SearchIsFirstMatch(certs, names[1..], fp, user, k - 1);
    }
  }

  lemma {:induction false} SearchWithoutMatch(certs: Certificates, names: seq<string>, fp: string, user: string)
    requires forall name :: name in names ==> !Matches(certs, name, fp)
    ensures SearchApproval(certs, names, fp, user) == NotForDoctype
  {
    if names == [] {
    } else {
      assert names[0] in names && forall name :: name in names[1..] ==> name in names;
      SearchWithoutMatch(certs, names[1..], fp, user);
    }
  }

  lemma {:induction false} FirstMatch(certs: Certificates, names: seq<string>, fp: string) returns (k: nat)
    requires exists name :: name in names && Matches(certs, name, fp)
    ensures k < |names| && Matches(certs, names[k], fp)
    ensures forall i :: 0 <= i < k ==> !Matches(certs, names[i], fp)
  {
    if Matches(certs, names[0], fp) {
      return 0;
    }
    var name :| name in names && Matches(certs, name, fp);
    assert name in names[1..];
    var j := FirstMatch(certs, names[1..], fp);
    forall i | 0 <= i < j + 1 ensures !Matches(certs, names[i], fp) {
      assert i > 0 ==> names[i] == names[1..][i - 1];
    }
    return j + 1;
  }

  /** The first certificate on the list with the fingerprint permits the user. */
  predicate FirstMatchPermits(certs: Certificates, names: seq<string>, fp: string, user: string) {
    exists k {:trigger names[k]} ::
      0 <= k < |names| && Matches(certs, names[k], fp) && Permits(certs, names[k], user) &&
      forall i :: 0 <= i < k ==> !Matches(certs, names[i], fp)
  }

  /** The search accepts exactly then. */
  lemma SearchExactly(certs: Certificates, names: seq<string>, fp: string, user: string)
    ensures Accept(SearchApproval(certs, names, fp, user)) <==> FirstMatchPermits(certs, names, fp, user)
  {
    if exists name :: name in names && Matches(certs, name, fp) {
      var k := FirstMatch(certs, names, fp);
      SearchIsFirstMatch(certs, names, fp, user, k);
    } else {
      SearchWithoutMatch(certs, names, fp, user);
    }
  }

  /** Where all matches agree, the search accepts exactly the entitled users. */
  lemma SearchIsEntitlement(certs: Certificates, names: seq<string>, fp: string, user: string)
    requires MatchesAgree(certs, names, fp, user)
    ensures Accept(SearchApproval(certs, names, fp, user)) <==> Entitled(certs, names, fp, user)
  {
    if exists name :: name in names && Matches(certs, name, fp) {
      var k := FirstMatch(certs, names, fp);
      SearchIsFirstMatch(certs, names, fp, user, k);
      assert names[k] in names;
    } else {
      SearchWithoutMatch(certs, names, fp, user);
    }
  }

  /** Pairwise distinct fingerprints make all matches agree, for every fingerprint and user. */
  lemma DistinctPrintsSuffice(certs: Certificates, names: seq<string>, fp: string, user: string)
    requires DistinctPrints(certs, names)
    ensures MatchesAgree(certs, names, fp, user)
    ensures Accept(SearchApproval(certs, names, fp, user)) <==> Entitled(certs, names, fp, user)
  {
    forall m, n | m in names && n in names && Matches(certs, m, fp) && Matches(certs, n, fp) ensures m == n {
    }
    SearchIsEntitlement(certs, names, fp, user);
  }

  lemma MoveToFront(names: seq<string>, k: nat)
    requires k < |names|
    ensures multiset([names[k]] + (names[..k] + names[k + 1..])) == multiset(names)
  {
    assert names == names[..k] + [names[k]] + names[k + 1..];
  }

  lemma SameMembers(a: seq<string>, b: seq<string>)
    requires multiset(a) == multiset(b)
    ensures forall x :: x in a <==> x in b
  {
    forall x ensures x in a <==> x in b {
      assert x in a <==> x in multiset(a);
      assert x in b <==> x in multiset(b);
    }
  }

  lemma FrontDecides(certs: Certificates, names: seq<string>, fp: string, user: string, name: string)
    returns (moved: seq<string>)
    requires name in names && Matches(certs, name, fp)
    ensures multiset(moved) == multiset(names)
    ensures Accept(SearchApproval(certs, moved, fp, user)) <==> Permits(certs, name, user)
  {
    var k :| 0 <= k < |names| && names[k] == name;
    MoveToFront(names, k);
    moved := [names[k]] + (names[..k] + names[k + 1..]);
    SearchIsFirstMatch(certs, moved, fp, user, 0);
  }

  /**
   The decision is the same under every reordering of the list exactly when the
   matching certificates agree about the user.
   */
  lemma OrderIndependentExactly(certs: Certificates, names: seq<string>, fp: string, user: string)
    ensures (forall p :: multiset(p) == multiset(names) ==>
              (Accept(SearchApproval(certs, p, fp, user)) <==> Accept(SearchApproval(certs, names, fp, user)))) <==>
            MatchesAgree(certs, names, fp, user)
  {
    if MatchesAgree(certs, names, fp, user) {
      forall p | multiset(p) == multiset(names)
        ensures Accept(SearchApproval(certs, p, fp, user)) <==> Accept(SearchApproval(certs, names, fp, user))
      {
        SameMembers(p, names);
        SearchIsEntitlement(certs, p, fp, user);
        SearchIsEntitlement(certs, names, fp, user);
      }
    } else {
      var m, n :| m in names && n in names && Matches(certs, m, fp) && Matches(certs, n, fp) &&
                  !(Permits(certs, m, user) <==> Permits(certs, n, user));
      var p := FrontDecides(certs, names, fp, user, m);
      var q := FrontDecides(certs, names, fp, user, n);
    }
  }

  // --- One reading for the three decisions on a document type ---

  // The user's own row is the first that names the user.
  predicate OwnRow(rows: seq<UserRow>, user: string, k: int) {
    0 <= k < |rows| && rows[k].user == user && forall i :: 0 <= i < k ==> rows[i].user != user
  }

  /**
   The certificates the settings demand of a user: the one in the user's own row, if it
   names one, and the list for everybody without a row.
   */
  ghost function Demanded(table: Table, user: string, doctype: string): seq<string> {
    if doctype !in table then []
    else if forall row :: row in table[doctype].users ==> row.user != user then table[doctype].allowed
    else if k :| OwnRow(table[doctype].users, user, k) then
      var certificate := table[doctype].users[k].certificate;
      if certificate == "" then [] else [certificate]
    else []
  }

  /** The row found is the user's own, and none is found exactly without one. */
  lemma {:induction false} FindUserExactly(rows: seq<UserRow>, user: string)
    ensures FindUser(rows, user).None? <==> forall row :: row in rows ==> row.user != user
    ensures FindUser(rows, user).Some? ==> exists k :: OwnRow(rows, user, k)
    ensures forall k :: OwnRow(rows, user, k) ==> FindUser(rows, user) == Some(rows[k])
  {
    if rows == [] {
    } else if rows[0].user == user {
      assert OwnRow(rows, user, 0);
      assert rows[0] in rows;
    } else {
      var rest := rows[1..];
      FindUserExactly(rest, user);
      assert rows == [rows[0]] + rest;
      if FindUser(rest, user).Some? {
        var k :| OwnRow(rest, user, k);
        assert rows[k + 1] == rest[k];
        assert OwnRow(rows, user, k + 1);
      }
      forall k | OwnRow(rows, user, k) ensures FindUser(rows, user) == Some(rows[k]) {
        RowBehind(rows, user, k);
      }
    }
  }

  lemma RowBehind(rows: seq<UserRow>, user: string, k: int)
    requires OwnRow(rows, user, k) && k > 0
    ensures OwnRow(rows[1..], user, k - 1) && rows[1..][k - 1] == rows[k]
  {
    forall i | 0 <= i < k - 1 ensures rows[1..][i].user != user {
      assert rows[1..][i] == rows[i + 1];
    }
  }

  // What is demanded, by the row that is found.
  lemma DemandedByRow(table: Table, user: string, doctype: string)
    requires doctype in table
    ensures Demanded(table, user, doctype) ==
            match FindUser(table[doctype].users, user)
            case Some(row) => if row.certificate == "" then [] else [row.certificate]
            case None => table[doctype].allowed
  {
    FindUserExactly(table[doctype].users, user);
  }

  lemma OnlyCertificate(certs: Certificates, name: string, fp: string, user: string)
    ensures FirstMatchPermits(certs, [name], fp, user) <==> Matches(certs, name, fp) && Permits(certs, name, user)
  {
    assert [name][0] == name;
  }

  /**
   Approval accepts exactly when nothing is demanded of the user or the first demanded
   certificate with the fingerprint permits the user; and never without a fingerprint
   or document type.
   */
  lemma ApprovalExactly(certs: Certificates, table: Table, user: string, fingerprint: string, doctype: string)
    ensures Accept(VerifyApproval(certs, table, user, fingerprint, doctype)) <==>
            fingerprint != "" && doctype != "" &&
            (Demanded(table, user, doctype) == [] ||
             FirstMatchPermits(certs, Demanded(table, user, doctype), Upper(fingerprint), user))
  {
    if doctype in table {
      DemandedByRow(table, user, doctype);
      match FindUser(table[doctype].users, user) {
        case Some(row) => OnlyCertificate(certs, row.certificate, Upper(fingerprint), user);
        case None => SearchExactly(certs, table[doctype].allowed, Upper(fingerprint), user);
      }
    }
  }

  lemma OneCertificate(certs: Certificates, name: string, fp: string, user: string)
    ensures Entitled(certs, [name], fp, user) <==> Matches(certs, name, fp) && Permits(certs, name, user)
    ensures MatchesAgree(certs, [name], fp, user)
  {
    assert name in [name];
  }

  /**
   Requirement, approval and signing are one decision for everyone but the
   Administrator: something is required when something is demanded, and a fingerprint
   is accepted when nothing is demanded or a demanded certificate entitles the user.
   Where demanded certificates share the fingerprint, they must agree about the user.
   */
  lemma OneReading(certs: Certificates, table: Table, user: string, fingerprint: string, doctype: string)
    requires user != "Administrator" && fingerprint != "" && doctype != ""
    requires MatchesAgree(certs, Demanded(table, user, doctype), Upper(fingerprint), user)
    ensures IsRequired(table, user, doctype) <==> Demanded(table, user, doctype) != []
    ensures Accept(VerifyApproval(certs, table, user, fingerprint, doctype)) <==>
            Demanded(table, user, doctype) == [] ||
            Entitled(certs, Demanded(table, user, doctype), Upper(fingerprint), user)
    ensures Accept(VerifySigning(certs, table, user, fingerprint, doctype)) <==>
            Demanded(table, user, doctype) == [] ||
            Entitled(certs, Demanded(table, user, doctype), Upper(fingerprint), user)
  {
    ApprovalAndSigningAgreeExactly(certs, table, user, fingerprint, doctype);
    if doctype in table {
      DemandedByRow(table, user, doctype);
      match FindUser(table[doctype].users, user) {
        case Some(row) => OneCertificate(certs, row.certificate, Upper(fingerprint), user);
        case None => SearchIsEntitlement(certs, table[doctype].allowed, Upper(fingerprint), user);
      }
    }
  }

  // --- Approval and signing ---

  /**
   On equal tables approval and signing decide alike for everyone but the Administrator,
   whom signing always accepts: for the Administrator they agree exactly when fingerprint
   and document type are given and either nothing is demanded or the first demanded
   certificate with the fingerprint permits the Administrator.
   */
  lemma ApprovalAndSigningAgreeExactly(certs: Certificates, table: Table, user: string, fingerprint: string,
          doctype: string)
    ensures Accept(VerifyApproval(certs, table, user, fingerprint, doctype)) ==
            Accept(VerifySigning(certs, table, user, fingerprint, doctype)) <==>
            (user == "Administrator" ==>
             fingerprint != "" && doctype != "" &&
             (Demanded(table, user, doctype) == [] ||
              FirstMatchPermits(certs, Demanded(table, user, doctype), Upper(fingerprint), user)))
    ensures user != "Administrator" ==>
              VerifyApproval(certs, table, user, fingerprint, doctype) ==
              VerifySigning(certs, table, user, fingerprint, doctype)
  {
    ApprovalExactly(certs, table, user, fingerprint, doctype);
    if doctype in table {
      DemandedByRow(table, user, doctype);
      SearchesAgree(certs, table[doctype].allowed, Upper(fingerprint), user);
    }
  }

  /** A fingerprint longer than every certificate's, so equal to none. */
  lemma {:induction false} FreshPrint(certs: Certificates, names: set<string>) returns (fp: string)
    ensures fp != "" && forall name :: name in names ==> |Assigned(certs, name)| < |fp|
    decreases names
  {
    if names == {} {
      return "A";
    }
    var name :| name in names;
    var rest := FreshPrint(certs, names - {name});
    fp := rest + Assigned(certs, name);
    assert forall n :: n in names && n != name ==> n in names - {name};
  }

  /**
   "Not required for an approval" means "every fingerprint is accepted" exactly for a
   named document type, and for the Administrator, of whom nothing is ever required, only
   where nothing is demanded.
   */
  lemma RequiredExactly(certs: Certificates, table: Table, user: string, doctype: string)
    ensures (!IsRequired(table, user, doctype) <==>
             forall fp :: fp != "" ==> Accept(VerifyApproval(certs, table, user, fp, doctype))) <==>
            doctype != "" && (user == "Administrator" ==> Demanded(table, user, doctype) == [])
  {
    if doctype == "" {
      assert !Accept(VerifyApproval(certs, table, user, "A", doctype));
    } else if Demanded(table, user, doctype) != [] {
      var demanded := Demanded(table, user, doctype);
      var fp := FreshPrint(certs, set n | n in demanded);
      forall k | 0 <= k < |demanded| ensures !Matches(certs, demanded[k], Upper(fp)) {
        assert |Assigned(certs, demanded[k])| < |fp|;
      }
      ApprovalExactly(certs, table, user, fp, doctype);
      assert !Accept(VerifyApproval(certs, table, user, fp, doctype));
      DemandedByRow(table, user, doctype);
    } else {
      forall fp | fp != "" ensures Accept(VerifyApproval(certs, table, user, fp, doctype)) {
        ApprovalExactly(certs, table, user, fp, doctype);
      }
      if doctype in table {
        DemandedByRow(table, user, doctype);
      }
    }
  }

  // --- Login ---

  lemma {:induction false} FoundOnList(certs: Certificates, order: seq<string>, names: seq<string>, fp: string,
          ignoreCase: bool)
    ensures var r := FindOnList(certs, order, names, fp, ignoreCase);
      (r.Some? ==> r.value in names && r.value in certs && SamePrint(ignoreCase, certs[r.value].fingerprint, fp)) &&
      (r.None? ==>
       forall n :: n in order && n in names && n in certs ==> !SamePrint(ignoreCase, certs[n].fingerprint, fp))
  {
    if order == [] {
    } else {
      FoundOnList(certs, order[1..], names, fp, ignoreCase);
      assert order == [order[0]] + order[1..];
    }
  }

  /** The order lists every certificate of the table. */
  predicate Complete(certs: Certificates, order: seq<string>) {
    forall n :: n in certs ==> n in order
  }

  /**
   Whatever the login check accepts, approval's search accepts on the same list, if no
   two listed certificates share a fingerprint.
   */
  lemma LoginImpliesApproval(certs: Certificates, order: seq<string>, names: seq<string>, fingerprint: string,
                             user: string, ignoreCase: bool)
    requires DistinctPrints(certs, names) && fingerprint != ""
    requires Accept(CheckOnDevice(certs, order, names, fingerprint, user, ignoreCase))
    ensures Accept(SearchApproval(certs, names, Upper(fingerprint), user))
  {
    FoundOnList(certs, order, names, fingerprint, ignoreCase);
    var name := FindOnList(certs, order, names, fingerprint, ignoreCase).value;
    assert Matches(certs, name, Upper(fingerprint)) && Permits(certs, name, user);
    DistinctPrintsSuffice(certs, names, Upper(fingerprint), user);
  }

  /**
   Login accepts exactly what approval's search accepts where, besides, the certificate
   names the user and its fingerprint equals the presented one in the database's own
   comparison: login has no "names nobody, so everyone", and a collation that respects
   case misses fingerprints stored in another case.
   */
  lemma LoginExactly(certs: Certificates, order: seq<string>, names: seq<string>, fingerprint: string, user: string,
                     ignoreCase: bool)
    requires DistinctPrints(certs, names) && Complete(certs, order) && fingerprint != ""
    ensures Accept(CheckOnDevice(certs, order, names, fingerprint, user, ignoreCase)) <==>
            Accept(SearchApproval(certs, names, Upper(fingerprint), user)) &&
            exists name :: name in names && user in Users(certs, name) &&
                           SamePrint(ignoreCase, Assigned(certs, name), fingerprint)
  {
    FoundOnList(certs, order, names, fingerprint, ignoreCase);
    DistinctPrintsSuffice(certs, names, Upper(fingerprint), user);
    var found := FindOnList(certs, order, names, fingerprint, ignoreCase);
    if found.Some? {
      assert Matches(certs, found.value, Upper(fingerprint));
    }
    forall name | name in names && SamePrint(ignoreCase, Assigned(certs, name), fingerprint)
      ensures found == Some(name)
    {
      assert Matches(certs, name, Upper(fingerprint)) && name in order;
    }
  }

  /** The device is meant for certain users or roles: the user is none of them and has none of the roles. */
  predicate Barred(d: DeviceMap, user: string, roles: set<string>) {
    |d.users| + |d.roles| > 0 && (forall u :: u in d.users ==> u != user) && (forall r :: r in d.roles ==> r !in roles)
  }

  /**
   At login, "not required" means "every fingerprint is accepted" exactly for a named
   user, except on a device that demands a certificate of users it is not meant for, where
   nothing is required and nothing accepted, and for the Administrator on one that demands
   a certificate from a list: that is never required of the Administrator, yet checked.
   */
  lemma LoginRequiredExactly(certs: Certificates, order: seq<string>, device: Option<DeviceMap>, user: string,
                             roles: set<string>, ignoreCase: bool)
    ensures (!IsRequiredAtLogin(device, user, roles) <==>
             forall fp :: fp != "" ==> Accept(VerifyAtLogin(certs, order, device, user, roles, fp, ignoreCase))) <==>
            user != "" &&
            !(device.Some? && device.value.required &&
              (Barred(device.value, user, roles) || (user == "Administrator" && device.value.allowed != [])))
  {
    if user == "" || (device.Some? && device.value.required && Barred(device.value, user, roles)) {
      assert !Accept(VerifyAtLogin(certs, order, device, user, roles, "A", ignoreCase));
    } else if device.Some? && device.value.required && device.value.allowed != [] {
      var fp := RejectedPrint(certs, order, device.value.allowed, user, ignoreCase);
      assert !Accept(VerifyAtLogin(certs, order, device, user, roles, fp, ignoreCase));
    }
  }

  // Some fingerprint is on no list.
  lemma RejectedPrint(certs: Certificates, order: seq<string>, names: seq<string>, user: string, ignoreCase: bool)
    returns (fp: string)
    requires names != []
    ensures fp != "" && !Accept(CheckOnDevice(certs, order, names, Upper(fp), user, ignoreCase))
  {
    fp := FreshPrint(certs, set n | n in names);
    forall n | n in names && n in certs ensures !SamePrint(ignoreCase, certs[n].fingerprint, Upper(fp)) {
      assert |Assigned(certs, n)| < |fp|;
      assert |Upper(certs[n].fingerprint)| < |Upper(Upper(fp))|;
    }
    FoundOnList(certs, order, names, Upper(fp), ignoreCase);
    assert FindOnList(certs, order, names, Upper(fp), ignoreCase).None?;
  }
}
