/**
 Checking pull requests again after coverage changed: whom a transaction reports as affected,
 whether that is everyone whose answer changed, and what the two passes over the rows do.
 */
module Regate {
  import opened Wrappers
  import opened Text
  import opened Cla
  import opened Status

  // ---- whom a change of versions reports ----

  predicate SignsOn(s: Signature, ids: seq<nat>)
  {
    s.kind == Icla && s.active && s.versionId in ids
  }

  function IclaSigners(t: Tables, ids: seq<nat>): set<int>
  {
    set i | 0 <= i < |t.signatures| && SignsOn(t.signatures[i], ids) :: t.signatures[i].ghId
  }

  /** A company in effect whose signatory's signature is active and on one of the versions. */
  predicate CompanySignedOn(t: Tables, corporateId: nat, ids: seq<nat>)
  {
    corporateId < |t.corporates| && t.corporates[corporateId].status == Effective &&
    t.corporates[corporateId].signatureId < |t.signatures| &&
    var s := t.signatures[t.corporates[corporateId].signatureId];
    s.active && s.versionId in ids
  }

  /** A listed row that carries an account id, under such a company. */
  predicate ReportsMember(t: Tables, m: Member, ids: seq<nat>)
  {
    m.status == Listed && m.ghId.Some? && CompanySignedOn(t, m.corporateId, ids)
  }

  function CclaMembers(t: Tables, ids: seq<nat>): set<int>
  {
    set i | 0 <= i < |t.roster| && ReportsMember(t, t.roster[i], ids) :: t.roster[i].ghId.value
  }

  lemma NotReported(t: Tables, ids: seq<nat>, account: int)
    requires account !in IclaSigners(t, ids)
    ensures forall i :: 0 <= i < |t.signatures| && SignsOn(t.signatures[i], ids) ==> t.signatures[i].ghId != account
  {
  }

  lemma MemberIsReported(t: Tables, ids: seq<nat>, i: nat)
    requires i < |t.roster| && ReportsMember(t, t.roster[i], ids)
    ensures t.roster[i].ghId.value in CclaMembers(t, ids)
  {
  }

  function ActiveSigners(t: Tables, kind: DocKind, ids: seq<nat>): set<int>
  {
    match kind case Icla => IclaSigners(t, ids) case Ccla => CclaMembers(t, ids)
  }

  /** `u` differs from `t` in re-sign flags of the versions `ids`, all of `kind`, and in versions nobody signed yet. */
  ghost predicate FlagsChanged(t: Tables, u: Tables, kind: DocKind, ids: seq<nat>)
  {
    |t.versions| <= |u.versions| && u.signatures == t.signatures && u.corporates == t.corporates &&
    u.roster == t.roster && u.waivers == t.waivers &&
    (forall i :: 0 <= i < |t.versions| ==> VersionKept(t, u, kind, ids, i))
  }

  ghost predicate VersionKept(t: Tables, u: Tables, kind: DocKind, ids: seq<nat>, i: nat)
    requires i < |t.versions| && i < |u.versions|
  {
    u.versions[i].kind == t.versions[i].kind &&
    (u.versions[i] == t.versions[i] || (t.versions[i].kind == kind && i in ids))
  }

  lemma PublishChangesFlags(t: Tables, kind: DocKind, requireResign: bool, resignIds: seq<nat>)
    requires Inv(t)
    ensures var stale := StaleIds(t.versions, kind, requireResign, resignIds);
      FlagsChanged(t, PublishChange(t, kind, requireResign, resignIds).tables, kind, stale)
  {
  }

  /** The kind a call to set flags is about: that of the versions it names. */
  predicate ResignsKind(t: Tables, resigns: seq<(nat, bool)>, kind: DocKind)
  {
    forall i :: i in WantedFlags(resigns) && i < |t.versions| ==> t.versions[i].kind == kind
  }

  lemma ResignChangesFlags(t: Tables, resigns: seq<(nat, bool)>, kind: DocKind)
    requires SetResignChange(t, resigns).Success? && ResignsKind(t, resigns, kind)
    ensures var ids := FlippedIds(t.versions, WantedFlags(resigns));
      FlagsChanged(t, SetResignChange(t, resigns).value.tables, kind, ids)
  {
  }

  lemma SignatureKeepsVersion(t: Tables, u: Tables, kind: DocKind, ids: seq<nat>, i: nat)
    requires Inv(t) && FlagsChanged(t, u, kind, ids) && i < |t.signatures|
    requires !(t.signatures[i].kind == kind && t.signatures[i].versionId in ids)
    ensures VersionStands(u, u.signatures[i].versionId) == VersionStands(t, t.signatures[i].versionId)
  {
    assert SignatureRefers(t, t.signatures[i]);
    assert VersionKept(t, u, kind, ids, t.signatures[i].versionId);
  }

  lemma FlagsKeepWaivers(t: Tables, u: Tables, kind: DocKind, ids: seq<nat>, account: int, login: Text)
    requires FlagsChanged(t, u, kind, ids)
    ensures Waived(u, account, login) == Waived(t, account, login) && SignedAny(u, account) == SignedAny(t, account)
  {
  }

  lemma IclaFlagsKeepCompanies(t: Tables, u: Tables, ids: seq<nat>, account: int, login: Text)
    requires Inv(t) && FlagsChanged(t, u, Icla, ids)
    ensures CompanyCovers(u, account, login) == CompanyCovers(t, account, login)
  {
    forall i | 0 <= i < |t.roster| ensures Covers(u, u.roster[i], account, login) == Covers(t, t.roster[i], account, login) {
      var c := t.roster[i].corporateId;
      assert CorporateRefers(t, t.corporates[c]);
      SignatureKeepsVersion(t, u, Icla, ids, t.corporates[c].signatureId);
    }
  }

  lemma IclaFlagsMatterToSigners(t: Tables, u: Tables, ids: seq<nat>, account: int)
    requires Inv(t) && FlagsChanged(t, u, Icla, ids) && account !in IclaSigners(u, ids)
    ensures SignedValid(u, account) == SignedValid(t, account)
  {
    NotReported(u, ids, account);
    forall i | 0 <= i < |t.signatures| && IsIclaOf(t.signatures[i], account)
      ensures VersionStands(u, u.signatures[i].versionId) == VersionStands(t, t.signatures[i].versionId)
    {
      SignatureKeepsVersion(t, u, Icla, ids, i);
    }
    forall i | 0 <= i < |t.signatures|
      ensures (IsIclaOf(u.signatures[i], account) && VersionStands(u, u.signatures[i].versionId)) ==
        (IsIclaOf(t.signatures[i], account) && VersionStands(t, t.signatures[i].versionId))
    {
    }
  }

  /** After any change of individual-agreement flags, whoever is not reported has the answer they had. */
  lemma IclaReportIsComplete(t: Tables, u: Tables, ids: seq<nat>, account: int, ghLogin: Text)
    requires Inv(t) && FlagsChanged(t, u, Icla, ids)
    requires LocalStatus(u, account, ghLogin).satisfied != LocalStatus(t, account, ghLogin).satisfied
    ensures account in ActiveSigners(u, Icla, ids)
  {
    var login := Lower(ghLogin);
    FlagsKeepWaivers(t, u, Icla, ids, account, login);
    IclaFlagsKeepCompanies(t, u, ids, account, login);
    StatusDepartsFromRule(t, account, ghLogin);
    StatusDepartsFromRule(u, account, ghLogin);
    if account !in IclaSigners(u, ids) {
      IclaFlagsMatterToSigners(t, u, ids, account);
    }
  }

  // ---- corporate agreements: what completeness needs ----

  /** A row that covers the account through one of the versions. */
  predicate ReliesOn(t: Tables, m: Member, ids: seq<nat>, account: int, login: Text)
  {
    m.status == Listed && Names(m.ghId, m.ghLogin, account, login) && RestsOn(t, m.corporateId, ids)
  }

  /** Every such row names the account by its id, and its company's signature is active. */
  predicate NamedByActiveCompanies(t: Tables, ids: seq<nat>, account: int, login: Text)
  {
    forall i :: 0 <= i < |t.roster| && ReliesOn(t, t.roster[i], ids, account, login) ==>
      t.roster[i].ghId == Some(account) && CompanySignedOn(t, t.roster[i].corporateId, ids)
  }

  /** The company is in effect and its signature, active or not, is on one of the versions. */
  predicate RestsOn(t: Tables, corporateId: nat, ids: seq<nat>)
  {
    corporateId < |t.corporates| && t.corporates[corporateId].status == Effective &&
    t.corporates[corporateId].signatureId < |t.signatures| &&
    t.signatures[t.corporates[corporateId].signatureId].versionId in ids
  }

  lemma CclaFlagsKeepIndividuals(t: Tables, u: Tables, ids: seq<nat>, account: int)
    requires Inv(t) && FlagsChanged(t, u, Ccla, ids)
    ensures SignedValid(u, account) == SignedValid(t, account)
  {
    forall i | 0 <= i < |t.signatures|
      ensures (IsIclaOf(u.signatures[i], account) && VersionStands(u, u.signatures[i].versionId)) ==
        (IsIclaOf(t.signatures[i], account) && VersionStands(t, t.signatures[i].versionId))
    {
      if t.signatures[i].kind == Icla {
        SignatureKeepsVersion(t, u, Ccla, ids, i);
      }
    }
  }

  lemma RowsElsewhereStay(t: Tables, u: Tables, ids: seq<nat>, account: int, login: Text, i: nat)
    requires Inv(t) && FlagsChanged(t, u, Ccla, ids) && i < |t.roster| && !RestsOn(t, t.roster[i].corporateId, ids)
    ensures Covers(u, u.roster[i], account, login) == Covers(t, t.roster[i], account, login)
  {
    var c := t.roster[i].corporateId;
    assert CorporateRefers(t, t.corporates[c]);
    if t.corporates[c].status == Effective {
      SignatureKeepsVersion(t, u, Ccla, ids, t.corporates[c].signatureId);
    }
  }

  /** A row lists the account by id under a company that rests on one of the versions, its signature active. */
  predicate KnownOn(t: Tables, ids: seq<nat>, account: int)
  {
    exists i :: 0 <= i < |t.roster| && KnowsAccount(t, t.roster[i], ids, account)
  }

  predicate KnowsAccount(t: Tables, m: Member, ids: seq<nat>, account: int)
  {
    m.status == Listed && m.ghId == Some(account) && RestsOn(t, m.corporateId, ids) &&
    t.signatures[t.corporates[m.corporateId].signatureId].active
  }

  lemma ReportedIsKnown(t: Tables, u: Tables, ids: seq<nat>, account: int)
    requires FlagsChanged(t, u, Ccla, ids)
    ensures account in CclaMembers(u, ids) <==> KnownOn(t, ids, account)
  {
    if KnownOn(t, ids, account) {
      var i :| 0 <= i < |t.roster| && KnowsAccount(t, t.roster[i], ids, account);
      MemberIsReported(u, ids, i);
    }
    if account in CclaMembers(u, ids) {
      var i :| 0 <= i < |u.roster| && ReportsMember(u, u.roster[i], ids) && u.roster[i].ghId.value == account;
      assert KnowsAccount(t, t.roster[i], ids, account);
    }
  }

  /** Corporate flags change the answer of exactly those without waiver and individual signature whom companies cover on one side only. */
  lemma CclaFlagsChangeAnswer(t: Tables, u: Tables, ids: seq<nat>, account: int, ghLogin: Text)
    requires Inv(t) && FlagsChanged(t, u, Ccla, ids)
    ensures var login := Lower(ghLogin);
      Satisfied(u, account, ghLogin) != Satisfied(t, account, ghLogin) <==>
      !Waived(t, account, login) && !SignedAny(t, account) && CompanyCovers(t, account, login) != CompanyCovers(u, account, login)
  {
    FlagsKeepWaivers(t, u, Ccla, ids, account, Lower(ghLogin));
    CclaFlagsKeepIndividuals(t, u, ids, account);
    StatusDepartsFromRule(t, account, ghLogin);
    StatusDepartsFromRule(u, account, ghLogin);
  }

  /**
   Whatever corporate flags change: an account's answer changes without a report exactly when it
   has no waiver and no individual signature, companies cover it on one side only, and no company
   that rests on one of the versions, its signature active, lists it by id.
   */
  lemma CclaReportIsExact(t: Tables, u: Tables, ids: seq<nat>, account: int, ghLogin: Text)
    requires Inv(t) && FlagsChanged(t, u, Ccla, ids)
    ensures var login := Lower(ghLogin);
      (Satisfied(u, account, ghLogin) != Satisfied(t, account, ghLogin) && account !in ActiveSigners(u, Ccla, ids)) <==>
      (!Waived(t, account, login) && !SignedAny(t, account) &&
       CompanyCovers(t, account, login) != CompanyCovers(u, account, login) && !KnownOn(t, ids, account))
  {
    CclaFlagsChangeAnswer(t, u, ids, account, ghLogin);
    ReportedIsKnown(t, u, ids, account);
  }

  /** So the report is complete where rows carry account ids and signatures are active. */
  lemma CclaReportIsComplete(t: Tables, u: Tables, ids: seq<nat>, account: int, ghLogin: Text)
    requires Inv(t) && FlagsChanged(t, u, Ccla, ids) && NamedByActiveCompanies(t, ids, account, Lower(ghLogin))
    requires Satisfied(u, account, ghLogin) != Satisfied(t, account, ghLogin)
    ensures account in ActiveSigners(u, Ccla, ids)
  {
    var login := Lower(ghLogin);
    CclaReportIsExact(t, u, ids, account, ghLogin);
    forall i | 0 <= i < |t.roster| && ReliesOn(t, t.roster[i], ids, account, login) ensures KnownOn(t, ids, account) {
      assert KnowsAccount(t, t.roster[i], ids, account);
    }
    if !KnownOn(t, ids, account) {
      forall i | 0 <= i < |t.roster| ensures Covers(u, u.roster[i], account, login) == Covers(t, t.roster[i], account, login) {
        if !RestsOn(t, t.roster[i].corporateId, ids) {
          RowsElsewhereStay(t, u, ids, account, login, i);
        }
      }
    }
  }

  // ---- exactly whom a corporate publish and a corporate re-flag miss ----

  /** A company in effect, whose signatory signed a text that stands in the sense of `stands`, lists the account. */
  ghost predicate CoveredWhere(t: Tables, stands: nat -> bool, account: int, login: Text)
  {
    exists i :: 0 <= i < |t.roster| && CoversWhere(t, stands, t.roster[i], account, login)
  }

  predicate CoversWhere(t: Tables, stands: nat -> bool, m: Member, account: int, login: Text)
  {
    m.status == Listed && Names(m.ghId, m.ghLogin, account, login) && m.corporateId < |t.corporates| &&
    var c := t.corporates[m.corporateId];
    c.status == Effective && c.signatureId < |t.signatures| && stands(t.signatures[c.signatureId].versionId)
  }

  lemma CompanyCoversWhere(t: Tables, u: Tables, ids: seq<nat>, stands: nat -> bool, account: int, login: Text)
    requires Inv(t) && FlagsChanged(t, u, Ccla, ids)
    requires forall v: nat :: v < |t.versions| ==> stands(v) == VersionStands(u, v)
    ensures CompanyCovers(u, account, login) <==> CoveredWhere(t, stands, account, login)
  {
    forall i | 0 <= i < |t.roster| ensures Covers(u, u.roster[i], account, login) == CoversWhere(t, stands, t.roster[i], account, login) {
      var c := t.corporates[t.roster[i].corporateId];
      assert CorporateRefers(t, c) && SignatureRefers(t, t.signatures[c.signatureId]);
    }
  }

  /** The versions that stand after a publish, and after flags are set as asked. */
  function StandsAfterPublish(t: Tables, kind: DocKind, requireResign: bool, resignIds: seq<nat>): nat -> bool
  {
    (v: nat) => VersionStands(t, v) && !(t.versions[v].kind == kind && (requireResign || v in resignIds))
  }

  function StandsAfterResign(t: Tables, resigns: seq<(nat, bool)>): nat -> bool
  {
    var wanted := WantedFlags(resigns);
    (v: nat) => if v in wanted then !wanted[v] else VersionStands(t, v)
  }

  /** Neither a waiver nor an individual signature, and no company that would report the account. */
  predicate Unreportable(t: Tables, ids: seq<nat>, account: int, login: Text)
  {
    !Waived(t, account, login) && !SignedAny(t, account) && !KnownOn(t, ids, account)
  }

  /** Publishing a corporate text misses exactly the unreportable accounts that only companies it makes stale covered. */
  lemma CorporatePublishMisses(t: Tables, requireResign: bool, resignIds: seq<nat>, account: int, ghLogin: Text)
    requires Inv(t)
    ensures var t' := PublishChange(t, Ccla, requireResign, resignIds).tables;
      var stale := StaleIds(t.versions, Ccla, requireResign, resignIds); var login := Lower(ghLogin);
      (Satisfied(t', account, ghLogin) != Satisfied(t, account, ghLogin) && account !in ActiveSigners(t', Ccla, stale)) <==>
      (Unreportable(t, stale, account, login) && CompanyCovers(t, account, login) &&
       !CoveredWhere(t, StandsAfterPublish(t, Ccla, requireResign, resignIds), account, login))
  {
    var t' := PublishChange(t, Ccla, requireResign, resignIds).tables;
    var stale := StaleIds(t.versions, Ccla, requireResign, resignIds);
    var stands := StandsAfterPublish(t, Ccla, requireResign, resignIds);
    PublishChangesFlags(t, Ccla, requireResign, resignIds);
    CclaReportIsExact(t, t', stale, account, ghLogin);
    PublishStands(t, requireResign, resignIds);
    CompanyCoversWhere(t, t', stale, stands, account, Lower(ghLogin));
    if CoveredWhere(t, stands, account, Lower(ghLogin)) {
      PublishCoversNoMore(t, stands, account, Lower(ghLogin));
    }
  }

  lemma PublishStands(t: Tables, requireResign: bool, resignIds: seq<nat>)
    ensures var t' := PublishChange(t, Ccla, requireResign, resignIds).tables;
      forall v: nat :: v < |t.versions| ==> StandsAfterPublish(t, Ccla, requireResign, resignIds)(v) == VersionStands(t', v)
  {
    var stale := StaleIds(t.versions, Ccla, requireResign, resignIds);
    var marked, versions := MarkResign(t.versions, stale), PublishChange(t, Ccla, requireResign, resignIds).tables.versions;
    forall v: nat | v < |t.versions|
      ensures StandsAfterPublish(t, Ccla, requireResign, resignIds)(v) ==
        VersionStands(PublishChange(t, Ccla, requireResign, resignIds).tables, v)
    {
      assert versions[v] == marked[v];
    }
  }

  lemma PublishCoversNoMore(t: Tables, stands: nat -> bool, account: int, login: Text)
    requires forall v: nat :: stands(v) ==> VersionStands(t, v)
    requires CoveredWhere(t, stands, account, login)
    ensures CompanyCovers(t, account, login)
  {
    var i :| 0 <= i < |t.roster| && CoversWhere(t, stands, t.roster[i], account, login);
    assert Covers(t, t.roster[i], account, login);
  }

  /** Setting corporate flags misses exactly the unreportable accounts that companies cover on one side only, in either direction. */
  lemma CorporateResignMisses(t: Tables, resigns: seq<(nat, bool)>, account: int, ghLogin: Text)
    requires Inv(t) && SetResignChange(t, resigns).Success? && ResignsKind(t, resigns, Ccla)
    ensures var t' := SetResignChange(t, resigns).value.tables;
      var ids := FlippedIds(t.versions, WantedFlags(resigns)); var login := Lower(ghLogin);
      (Satisfied(t', account, ghLogin) != Satisfied(t, account, ghLogin) && account !in ActiveSigners(t', Ccla, ids)) <==>
      (Unreportable(t, ids, account, login) &&
       CompanyCovers(t, account, login) != CoveredWhere(t, StandsAfterResign(t, resigns), account, login))
  {
    var t' := SetResignChange(t, resigns).value.tables;
    var ids := FlippedIds(t.versions, WantedFlags(resigns));
    ResignChangesFlags(t, resigns, Ccla);
    CclaReportIsExact(t, t', ids, account, ghLogin);
    ResignStands(t, resigns);
    CompanyCoversWhere(t, t', ids, StandsAfterResign(t, resigns), account, Lower(ghLogin));
  }

  lemma ResignStands(t: Tables, resigns: seq<(nat, bool)>)
    requires SetResignChange(t, resigns).Success?
    ensures var t' := SetResignChange(t, resigns).value.tables;
      forall v: nat :: v < |t.versions| ==> StandsAfterResign(t, resigns)(v) == VersionStands(t', v)
  {
    var wanted := WantedFlags(resigns);
    forall v: nat | v < |t.versions|
      ensures StandsAfterResign(t, resigns)(v) == VersionStands(SetResignChange(t, resigns).value.tables, v)
    {
      if FlippedIds(t.versions, wanted) == [] {
        assert v !in FlippedIds(t.versions, wanted);
      }
    }
  }

  /** One company that covers account 7: the row names it by login only, or the signatory's signature was revoked. */
  lemma SomeoneIsMissed(loginOnly: bool) returns (t: Tables)
    ensures Inv(t) && Satisfied(t, 7, [97])
    ensures var t' := PublishChange(t, Ccla, true, []).tables;
      !Satisfied(t', 7, [97]) && 7 !in ActiveSigners(t', Ccla, StaleIds(t.versions, Ccla, true, []))
  {
    t := Tables([Version(Ccla, 1, false)], [Signature(Ccla, 0, 8, [], loginOnly)], [Corporate(0, 0, Effective)],
                [Member(0, [97], if loginOnly then None else Some(7), Listed)], [], None, Some(0));
    assert t.versions[..1] == t.versions && t.versions[..0] == [];
    assert Numbered(t.versions) && CurrentIsNewest(t, Icla) && CurrentIsNewest(t, Ccla);
    assert Lower([97]) == [97];
    assert Covers(t, t.roster[0], 7, [97]);
    StatusDepartsFromRule(t, 7, [97]);
    CorporatePublishMisses(t, true, [], 7, [97]);
  }
}
