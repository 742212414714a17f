/**
 Coverage from this project's own tables, and how the transactions move it.
 */
module Status {
  import opened Wrappers
  import opened Text
  import opened Cla

  datatype Via = ByIcla | ByCcla(corporateId: nat) | ByWaiver

  datatype ClaStatus = ClaStatus(satisfied: bool, via: Option<Via>, needsResign: bool)

  predicate Names(ghId: Option<int>, ghLogin: Text, account: int, login: Text)
  {
    ghId == Some(account) || ghLogin == login
  }

  predicate Waived(t: Tables, account: int, login: Text)
  {
    exists i :: 0 <= i < |t.waivers| && t.waivers[i].active && Names(t.waivers[i].ghId, t.waivers[i].ghLogin, account, login)
  }

  predicate VersionStands(t: Tables, versionId: nat)
  {
    versionId < |t.versions| && !t.versions[versionId].resignRequired
  }

  predicate IsIclaOf(s: Signature, account: int)
  {
    s.kind == Icla && s.active && s.ghId == account
  }

  predicate SignedAny(t: Tables, account: int)
  {
    exists i :: 0 <= i < |t.signatures| && IsIclaOf(t.signatures[i], account)
  }

  predicate SignedValid(t: Tables, account: int)
  {
    exists i :: 0 <= i < |t.signatures| && IsIclaOf(t.signatures[i], account) && VersionStands(t, t.signatures[i].versionId)
  }

  /** The company is in effect and its signatory signed a text that stands; the signature's own status is not asked. */
  predicate CompanyStands(t: Tables, corporateId: nat)
  {
    corporateId < |t.corporates| && t.corporates[corporateId].status == Effective &&
    t.corporates[corporateId].signatureId < |t.signatures| &&
    VersionStands(t, t.signatures[t.corporates[corporateId].signatureId].versionId)
  }

  predicate Covers(t: Tables, m: Member, account: int, login: Text)
  {
    m.status == Listed && Names(m.ghId, m.ghLogin, account, login) && CompanyStands(t, m.corporateId)
  }

  predicate CompanyCovers(t: Tables, account: int, login: Text)
  {
    exists i :: 0 <= i < |t.roster| && Covers(t, t.roster[i], account, login)
  }

  /** The first roster row that covers, from `from` on. */
  function FirstCovering(t: Tables, account: int, login: Text, from: nat): (r: Option<nat>)
    requires from <= |t.roster|
    ensures r.Some? ==> from <= r.value < |t.roster| && Covers(t, t.roster[r.value], account, login)
    ensures r.None? ==> forall i :: from <= i < |t.roster| ==> !Covers(t, t.roster[i], account, login)
    decreases |t.roster| - from
  {
    if from == |t.roster| then None
    else if Covers(t, t.roster[from], account, login) then Some(from)
    else FirstCovering(t, account, login, from + 1)
  }

  function LocalStatus(t: Tables, account: int, ghLogin: Text): ClaStatus
  {
    var login := Lower(ghLogin);
    if Waived(t, account, login) then ClaStatus(true, Some(ByWaiver), false)
    else if SignedValid(t, account) then ClaStatus(true, Some(ByIcla), false)
    else if SignedAny(t, account) then ClaStatus(false, Some(ByIcla), true)
    else
      match FirstCovering(t, account, login, 0)
      case Some(i) => ClaStatus(true, Some(ByCcla(t.roster[i].corporateId)), false)
      case None => ClaStatus(false, None, false)
  }

  function Satisfied(t: Tables, account: int, ghLogin: Text): bool { LocalStatus(t, account, ghLogin).satisfied }

  // ---- the documented rule, and exactly where the code departs from it ----

  /** Covered if any of the three paths covers, as the documentation says. */
  predicate AnyPathCovers(t: Tables, account: int, ghLogin: Text)
  {
    Waived(t, account, Lower(ghLogin)) || SignedValid(t, account) || CompanyCovers(t, account, Lower(ghLogin))
  }

  /** The account's individual signatures are all out of date. */
  predicate OnlyStaleSignatures(t: Tables, account: int)
  {
    SignedAny(t, account) && !SignedValid(t, account)
  }

  lemma StatusDepartsFromRule(t: Tables, account: int, ghLogin: Text)
    ensures Satisfied(t, account, ghLogin) ==> AnyPathCovers(t, account, ghLogin)
    ensures Satisfied(t, account, ghLogin) == AnyPathCovers(t, account, ghLogin) <==>
      !(OnlyStaleSignatures(t, account) && !Waived(t, account, Lower(ghLogin)) && CompanyCovers(t, account, Lower(ghLogin)))
    ensures LocalStatus(t, account, ghLogin).needsResign <==>
      OnlyStaleSignatures(t, account) && !Waived(t, account, Lower(ghLogin))
  {
    var r := FirstCovering(t, account, Lower(ghLogin), 0);
    if r.Some? {
      assert Covers(t, t.roster[r.value], account, Lower(ghLogin));
    }
  }

  /** A covered company member with one out-of-date individual signature: the rule says covered, the code not. */
  lemma StaleSignatureHidesCompany() returns (t: Tables)
    ensures Inv(t) && AnyPathCovers(t, 7, []) && !Satisfied(t, 7, [])
  {
    t := Tables(
      [Version(Icla, 1, true), Version(Icla, 2, false), Version(Ccla, 1, false)],
      [Signature(Icla, 0, 7, [], true), Signature(Ccla, 2, 8, [], true)],
      [Corporate(2, 1, Effective)], [Member(0, [], Some(7), Listed)], [], Some(1), Some(2));
    var v := t.versions;
    assert v[..1] == [v[0]] && v[..2] == [v[0], v[1]] && v[..3] == v;
    assert v[..2][..1] == v[..1] && v[..1][..0] == [];
    assert CountKind(v[..1], Icla) == 1 && CountKind(v[..1], Ccla) == 0;
    assert CountKind(v[..2], Icla) == 2 && CountKind(v[..2], Ccla) == 0;
    assert Numbered(v) && CurrentIsNewest(t, Icla) && CurrentIsNewest(t, Ccla);
    assert IsIclaOf(t.signatures[0], 7);
    assert Lower([]) == [];
    assert Covers(t, t.roster[0], 7, []);
  }

  // ---- what a transaction does to the answers ----

  /** Signing is open exactly when some individual agreement has been published. */
  lemma SigningIsOpen(t: Tables, account: int, ghLogin: Text)
    requires Inv(t)
    ensures SignIclaChange(t, account, ghLogin).Success? <==> exists i :: 0 <= i < |t.versions| && t.versions[i].kind == Icla
  {
    LastOfKindExists(t.versions, Icla);
  }

  lemma {:induction false} LastOfKindExists(versions: seq<Version>, kind: DocKind)
    ensures LastOfKind(versions, kind).Some? <==> exists i :: 0 <= i < |versions| && versions[i].kind == kind
    decreases |versions|
  {
    if versions != [] {
      var init := versions[..|versions| - 1];
      LastOfKindExists(init, kind);
      if versions[|versions| - 1].kind != kind {
        if LastOfKind(init, kind).Some? {
          var i :| 0 <= i < |init| && init[i].kind == kind;
          assert versions[i].kind == kind;
        }
        if i :| 0 <= i < |versions| && versions[i].kind == kind {
          assert init[i].kind == kind;
        }
      }
    }
  }

  /** What an account holds other than one individual signature. */
  predicate OtherIcla(t: Tables, id: nat, account: int)
  {
    exists i :: 0 <= i < |t.signatures| && i != id && IsIclaOf(t.signatures[i], account)
  }

  /**
   Revoking a signature covers an account that was not covered exactly when it was the
   account's only individual signature, out of date, and a company covers the account.
   */
  lemma RevokingCanRestore(t: Tables, id: nat, account: int, ghLogin: Text)
    requires Inv(t) && RevokeSignatureChange(t, id).Success?
    ensures var t' := RevokeSignatureChange(t, id).value.tables; var s := t.signatures[id];
      !Satisfied(t, account, ghLogin) && Satisfied(t', account, ghLogin) <==>
      (IsIclaOf(s, account) && !VersionStands(t, s.versionId) && !OtherIcla(t, id, account) &&
       !Waived(t, account, Lower(ghLogin)) && CompanyCovers(t, account, Lower(ghLogin)))
  {
    var t' := RevokeSignatureChange(t, id).value.tables;
    var login := Lower(ghLogin);
    assert Waived(t', account, login) == Waived(t, account, login);
    RevokingKeepsCompanies(t, id, account, login);
    RevokingIndividual(t, id, account);
    StatusDepartsFromRule(t, account, ghLogin);
    StatusDepartsFromRule(t', account, ghLogin);
  }

  lemma RevokingKeepsCompanies(t: Tables, id: nat, account: int, login: Text)
    requires RevokeSignatureChange(t, id).Success?
    ensures CompanyCovers(RevokeSignatureChange(t, id).value.tables, account, login) == CompanyCovers(t, account, login)
  {
    var t' := RevokeSignatureChange(t, id).value.tables;
    forall i | 0 <= i < |t.roster| ensures Covers(t', t'.roster[i], account, login) == Covers(t, t.roster[i], account, login) {
    }
  }

  lemma RevokingIndividual(t: Tables, id: nat, account: int)
    requires RevokeSignatureChange(t, id).Success?
    ensures var t' := RevokeSignatureChange(t, id).value.tables; var s := t.signatures[id];
      SignedAny(t', account) == OtherIcla(t, id, account) &&
      (SignedAny(t, account) <==> OtherIcla(t, id, account) || IsIclaOf(s, account)) &&
      (SignedValid(t', account) ==> SignedValid(t, account)) &&
      (SignedValid(t, account) ==> SignedValid(t', account) || (IsIclaOf(s, account) && VersionStands(t, s.versionId))) &&
      (IsIclaOf(s, account) && VersionStands(t, s.versionId) ==> SignedValid(t, account))
  {
    var t' := RevokeSignatureChange(t, id).value.tables;
    forall i | 0 <= i < |t.signatures| && i != id ensures t'.signatures[i] == t.signatures[i] {
    }
    assert !IsIclaOf(t'.signatures[id], account);
    assert t'.versions == t.versions;
    if SignedAny(t', account) {
      var i :| 0 <= i < |t'.signatures| && IsIclaOf(t'.signatures[i], account);
      assert i != id && IsIclaOf(t.signatures[i], account);
    }
    if OtherIcla(t, id, account) {
      var i :| 0 <= i < |t.signatures| && i != id && IsIclaOf(t.signatures[i], account);
      assert IsIclaOf(t'.signatures[i], account);
    }
    if SignedValid(t', account) {
      var i :| 0 <= i < |t'.signatures| && IsIclaOf(t'.signatures[i], account) && VersionStands(t', t'.signatures[i].versionId);
      assert IsIclaOf(t.signatures[i], account) && VersionStands(t, t.signatures[i].versionId);
    }
    if SignedValid(t, account) {
      var i :| 0 <= i < |t.signatures| && IsIclaOf(t.signatures[i], account) && VersionStands(t, t.signatures[i].versionId);
      if i != id {
        assert IsIclaOf(t'.signatures[i], account) && VersionStands(t', t'.signatures[i].versionId);
      }
    }
  }
}
