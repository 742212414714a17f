/** Reports of affected signers that were drawn up before the commit: exactly whom they miss. */
module Reports {
  import opened Wrappers
  import opened Text
  import opened Cla
  import opened Runs
  import opened Status
  import opened Regate
  import opened Overlap

  /** The versions a change of flags names. */
  function NamedIn(changes: seq<ResignChange>): (ids: seq<nat>)
    ensures |ids| == |changes|
  {
    seq(|changes|, i requires 0 <= i < |changes| => changes[i].versionId)
  }

  lemma FlagsChangeFlags(t: Tables, kind: DocKind, changes: seq<ResignChange>)
    requires Fits(t, SetFlags(kind, changes))
    ensures FlagsChanged(t, FinishFlags(t, kind, changes).tables, kind, NamedIn(changes))
  {
    var u, ids := FinishFlags(t, kind, changes).tables, NamedIn(changes);
    forall i: nat | i < |t.versions| ensures VersionKept(t, u, kind, ids, i) {
      UnnamedStays(t.versions, changes, i);
      if i in ids {
        var j :| 0 <= j < |ids| && ids[j] == i;
        assert FlagFits(t, kind, changes[j]);
      }
    }
  }

  lemma {:induction false} UnnamedStays(versions: seq<Version>, changes: seq<ResignChange>, id: nat)
    requires id < |versions|
    ensures VersionStays(versions[id], ApplyResigns(versions, changes)[id])
    ensures id !in NamedIn(changes) ==> ApplyResigns(versions, changes)[id] == versions[id]
    decreases |changes|
  {
    if changes != [] {
      var init := changes[..|changes| - 1];
      UnnamedStays(versions, init, id);
      assert NamedIn(changes) == NamedIn(init) + [changes[|changes| - 1].versionId];
    }
  }

  /** The account's active signatures on those versions were all recorded after the first `n`. */
  ghost predicate SignedOnlySince(t: Tables, ids: seq<nat>, account: int, n: nat)
  {
    (exists i :: 0 <= i < |t.signatures| && SignedOn(t, ids, account, i)) &&
    (forall i :: 0 <= i < |t.signatures| && SignedOn(t, ids, account, i) ==> i >= n)
  }

  predicate SignedOn(t: Tables, ids: seq<nat>, account: int, i: nat)
    requires i < |t.signatures|
  {
    SignsOn(t.signatures[i], ids) && t.signatures[i].ghId == account
  }

  lemma SignedThenOrSince(t: Tables, u: Tables, ids: seq<nat>, account: int)
    requires RowsStay(t, u) && account in IclaSigners(u, ids)
    ensures account in IclaSigners(t, ids) || SignedOnlySince(u, ids, account, |t.signatures|)
  {
    var k :| 0 <= k < |u.signatures| && SignsOn(u.signatures[k], ids) && u.signatures[k].ghId == account;
    assert SignedOn(u, ids, account, k);
    forall i | 0 <= i < |t.signatures| && SignedOn(u, ids, account, i) ensures account in IclaSigners(t, ids) {
      assert SignatureStays(t.signatures[i], u.signatures[i]);
      assert SignsOn(t.signatures[i], ids);
    }
  }

  predicate SignedOnSome(t: Tables, ids: seq<nat>, account: int)
  {
    exists i :: 0 <= i < |t.signatures| && SignedOn(t, ids, account, i)
  }

  lemma ReportedSigned(t: Tables, ids: seq<nat>, account: int)
    ensures account in IclaSigners(t, ids) <==> SignedOnSome(t, ids, account)
  {
    if SignedOnSome(t, ids, account) {
      var i :| 0 <= i < |t.signatures| && SignedOn(t, ids, account, i);
      assert SignsOn(t.signatures[i], ids);
    }
    if account in IclaSigners(t, ids) {
      var i :| 0 <= i < |t.signatures| && SignsOn(t.signatures[i], ids) && t.signatures[i].ghId == account;
      assert SignedOn(t, ids, account, i);
    }
  }

  /** Individual flags change the answer of exactly those without a waiver for whom having a signature that stands changes. */
  lemma IclaFlagsChangeAnswer(t: Tables, u: Tables, ids: seq<nat>, account: int, login: Text)
    requires Inv(t) && FlagsChanged(t, u, Icla, ids)
    ensures Satisfied(u, account, login) != Satisfied(t, account, login) <==>
      !Waived(t, account, Lower(login)) && SignedValid(t, account) != SignedValid(u, account)
  {
    FlagsKeepWaivers(t, u, Icla, ids, account, Lower(login));
    IclaFlagsKeepCompanies(t, u, ids, account, Lower(login));
    StatusDepartsFromRule(t, account, login);
    StatusDepartsFromRule(u, account, login);
    ValidIsSigned(t, account);
    ValidIsSigned(u, account);
  }

  lemma ValidIsSigned(t: Tables, account: int)
    ensures SignedValid(t, account) ==> SignedAny(t, account)
  {
    if SignedValid(t, account) {
      var i :| 0 <= i < |t.signatures| && IsIclaOf(t.signatures[i], account) && VersionStands(t, t.signatures[i].versionId);
      assert IsIclaOf(t.signatures[i], account);
    }
  }

  /**
   Whatever individual-agreement flags a commit changes: if its report names the signers as they
   were in an earlier state, an answer changes and is not reported exactly for an account without a
   waiver whose having a signature that stands changes, and who had signed none of the versions by
   then; all such signatures it has are then newer than the report.
   */
  lemma EarlyReportMisses(early: State, between: seq<TxStep>, u: Tables, ids: seq<nat>, account: int, login: Text)
    requires Inv(Run(early, between).tables) && FlagsChanged(Run(early, between).tables, u, Icla, ids)
    ensures var t := Run(early, between).tables;
      var missed := Satisfied(u, account, login) != Satisfied(t, account, login) && account !in IclaSigners(early.tables, ids);
      (missed <==>
        !Waived(t, account, Lower(login)) && SignedValid(t, account) != SignedValid(u, account) &&
        !SignedOnSome(early.tables, ids, account)) &&
      (missed ==> SignedOnlySince(t, ids, account, |early.tables.signatures|))
  {
    var t := Run(early, between).tables;
    IclaFlagsChangeAnswer(t, u, ids, account, login);
    ReportedSigned(early.tables, ids, account);
    if Satisfied(u, account, login) != Satisfied(t, account, login) {
      IclaReportIsComplete(t, u, ids, account, login);
      RunKeepsRows(early, between);
      SignedThenOrSince(early.tables, t, ids, account);
    }
  }

  /** An active individual signature on a version that stands once the changes are applied. */
  predicate SignedWhere(t: Tables, changes: seq<ResignChange>, account: int)
  {
    exists i :: 0 <= i < |t.signatures| && StandsWhere(t, changes, account, i)
  }

  predicate StandsWhere(t: Tables, changes: seq<ResignChange>, account: int, i: nat)
    requires i < |t.signatures|
  {
    IsIclaOf(t.signatures[i], account) && t.signatures[i].versionId < |t.versions| &&
    !ApplyResigns(t.versions, changes)[t.signatures[i].versionId].resignRequired
  }

  lemma SignedAfterFlags(t: Tables, u: Tables, changes: seq<ResignChange>, account: int)
    requires u == t.(versions := ApplyResigns(t.versions, changes))
    ensures SignedValid(u, account) <==> SignedWhere(t, changes, account)
  {
    forall i | 0 <= i < |t.signatures|
      ensures (IsIclaOf(u.signatures[i], account) && VersionStands(u, u.signatures[i].versionId)) <==> StandsWhere(t, changes, account, i)
    {
    }
  }

  /** A re-flag reads the signers before it holds the row, in state `early`, and commits later: exactly whom its report misses. */
  lemma EarlyReflagMisses(early: State, between: seq<TxStep>, p: Plan, account: int, login: Text)
    requires p.SetFlags? && p.kind == Icla && !early.moved && Sane(Run(early, between)) && p in Run(early, between).plans
    ensures var late := Run(early, between); var done := Take(late, Write(p)); var ids := NamedIn(p.changes);
      var missed :=
        Satisfied(done.tables, account, login) != Satisfied(late.tables, account, login) && account !in IclaSigners(early.tables, ids);
      (missed <==>
        !Waived(late.tables, account, Lower(login)) &&
        SignedValid(late.tables, account) != SignedWhere(late.tables, p.changes, account) &&
        !SignedOnSome(early.tables, ids, account)) &&
      (missed ==> SignedOnlySince(late.tables, ids, account, |early.tables.signatures|))
  {
    var late := Run(early, between);
    RunOnlyAdds(early, between);
    var u := FinishFlags(late.tables, p.kind, p.changes).tables;
    assert Take(late, Write(p)).tables == u && (p.changes == [] ==> u == late.tables.(versions := ApplyResigns(late.tables.versions, [])));
    FlagsChangeFlags(late.tables, p.kind, p.changes);
    EarlyReportMisses(early, between, u, NamedIn(p.changes), account, login);
    SignedAfterFlags(late.tables, u, p.changes, account);
  }

  /** The same for a corporate re-flag, which reads the listed members of the companies before it holds the row. */
  lemma EarlyCorporateReflagMisses(early: State, between: seq<TxStep>, p: Plan, account: int, ghLogin: Text)
    requires p.SetFlags? && p.kind == Ccla && !early.moved && Sane(Run(early, between)) && p in Run(early, between).plans
    ensures var late := Run(early, between); var done := Take(late, Write(p));
      var ids := NamedIn(p.changes); var login := Lower(ghLogin);
      (Satisfied(done.tables, account, ghLogin) != Satisfied(late.tables, account, ghLogin) &&
       account !in ActiveSigners(early.tables, Ccla, ids)) <==>
      (UnreportableThen(early.tables, late.tables, ids, account, login) &&
       CompanyCovers(late.tables, account, login) != CoveredWhere(late.tables, StandsOnce(late.tables, p.changes), account, login))
  {
    var late := Run(early, between);
    RunOnlyAdds(early, between);
    var ids, stands := NamedIn(p.changes), StandsOnce(late.tables, p.changes);
    var u := FinishFlags(late.tables, p.kind, p.changes).tables;
    assert Take(late, Write(p)).tables == u && (p.changes == [] ==> u == late.tables.(versions := ApplyResigns(late.tables.versions, [])));
    FlagsChangeFlags(late.tables, p.kind, p.changes);
    CclaFlagsChangeAnswer(late.tables, u, ids, account, ghLogin);
    CompanyCoversWhere(late.tables, u, ids, stands, account, Lower(ghLogin));
    ReportedIsKnown(early.tables, early.tables, ids, account);
  }

  /** The versions that stand once the changes are applied. */
  function StandsOnce(t: Tables, changes: seq<ResignChange>): nat -> bool
  {
    (v: nat) => v < |t.versions| && !ApplyResigns(t.versions, changes)[v].resignRequired
  }

  /** Neither a waiver nor an individual signature at the commit, and no company that would have reported the account when it read. */
  predicate UnreportableThen(early: Tables, late: Tables, ids: seq<nat>, account: int, login: Text)
  {
    !Waived(late, account, login) && !SignedAny(late, account) && !KnownOn(early, ids, account)
  }

  /** Two texts in force, the older about to be signed by account 7 and about to be marked. */
  lemma TwoInForce() returns (steps: seq<TxStep>, s: State)
    ensures s == Run(Initial(true), steps) && !s.moved && s.tables.signatures == [] && s.tables.waivers == []
    ensures s.tables.versions == [Version(Icla, 1, false), Version(Icla, 2, false)] && s.tables.currentIcla == Some(1)
    ensures SignVersion(7, [], 0) in s.plans && SetFlags(Icla, [ResignChange(0, 1, true)]) in s.plans
  {
    var sign, publish := SignVersion(7, [], 0), PublishAs(Icla, 2, false, []);
    steps, s := OnePublished();
    SecondPublish(s.tables);
    steps, s := RunMore(true, steps, s, Read(SignIcla(7, [])));
    assert sign in s.plans && s.tables.versions == [Version(Icla, 1, false)] && !s.moved;
    steps, s := RunMore(true, steps, s, Read(Publish(Icla, false, [])));
    assert sign in s.plans && publish in s.plans && s.tables.versions == [Version(Icla, 1, false)] && !s.moved;
    steps, s := RunMore(true, steps, s, Write(publish));
    assert sign in s.plans && !s.moved && s.tables.versions == [Version(Icla, 1, false), Version(Icla, 2, false)];
    ReadsFlags(s.tables, [(0, true)]);
    steps, s := RunMore(true, steps, s, Read(SetResign([(0, true)])));
  }

  lemma SecondPublish(t: Tables)
    requires t.versions == [Version(Icla, 1, false)]
    ensures MaxNumber(t.versions, Icla) == 1
    ensures MarkResign(t.versions, StaleIds(t.versions, Icla, false, [])) == t.versions
  {
    assert t.versions[..0] == [];
    var stale := StaleIds(t.versions, Icla, false, []);
    assert MarkResign(t.versions, stale) == t.versions;
  }

  lemma ReadsFlags(t: Tables, resigns: seq<(nat, bool)>)
    requires resigns == [(0, true)] && |t.versions| == 2 && t.versions[0] == Version(Icla, 1, false) && t.currentIcla == Some(1)
    ensures PlanFlags(t, resigns) == Success(SetFlags(Icla, [ResignChange(0, 1, true)]))
  {
    assert resigns[..0] == [] && WantedFlags(resigns) == map[0 := true];
    var wanted := WantedFlags(resigns);
    var flips := (i: nat) => i < |t.versions| && i in wanted && wanted[i] != t.versions[i].resignRequired;
    assert Select(0, flips) == [] && Select(1, flips) == [0] && Select(2, flips) == [0];
    assert FlippedIds(t.versions, wanted) == [0];
    assert ResignChanges(t.versions, wanted, [0]) == [ResignChange(0, 1, true)];
  }

  /** Account 7's signature lands between the re-flag's read of signers and its commit: its coverage is lost and not reported. */
  lemma EarlyReflagMissesSomeone() returns (steps: seq<TxStep>, early: State, late: State, done: State)
    ensures early == Run(Initial(true), steps) && late == Take(early, Write(SignVersion(7, [], 0)))
    ensures done == Take(late, Write(SetFlags(Icla, [ResignChange(0, 1, true)])))
    ensures Satisfied(late.tables, 7, []) && !Satisfied(done.tables, 7, []) && 7 !in IclaSigners(early.tables, [0])
  {
    steps, early := TwoInForce();
    var changes := [ResignChange(0, 1, true)];
    late := Take(early, Write(SignVersion(7, [], 0)));
    CoveredByFirst(late.tables);
    done := Take(late, Write(SetFlags(Icla, changes)));
    assert changes[..0] == [] && done.tables.versions[0].resignRequired;
    CoveredByFirst(done.tables);
  }

  /** Account 7 is listed between a corporate re-flag's read of members and its commit: its coverage is lost and not reported. */
  lemma EarlyCorporateReflagMissesSomeone() returns (steps: seq<TxStep>, early: State, late: State, done: State)
    ensures early == Run(Initial(false), steps) && late == Take(early, Write(AddMembers(0, [RosterEntry([97], Some(7))])))
    ensures done == Take(late, Write(SetFlags(Ccla, [ResignChange(1, 1, true)])))
    ensures Satisfied(late.tables, 7, [97]) && !Satisfied(done.tables, 7, [97]) && 7 !in ActiveSigners(early.tables, Ccla, [1])
  {
    steps, early := ListingAndReflag();
    late := Take(early, Write(AddMembers(0, [RosterEntry([97], Some(7))])));
    assert Lower(Trim([97])) == [97] && late.tables == OlderText().(roster := [Member(0, [97], Some(7), Listed)]);
    CompanyCoversMember(late.tables);
    done := Take(late, Write(SetFlags(Ccla, [ResignChange(1, 1, true)])));
    FirstFlag(late.tables.versions);
    MarkedCompanyCoversNobody(done.tables, 7, [97]);
  }

  lemma MarkedCompanyCoversNobody(t: Tables, account: int, login: Text)
    requires |t.versions| > 1 && t.versions[1].resignRequired && t.waivers == []
    requires t.signatures == [Signature(Ccla, 1, 8, [], true)] && t.corporates == [Corporate(1, 0, Effective)]
    ensures !Satisfied(t, account, login)
  {
    StatusDepartsFromRule(t, account, login);
  }

  lemma FirstFlag(versions: seq<Version>)
    requires |versions| > 1
    ensures ApplyResigns(versions, [ResignChange(1, 1, true)]) == versions[1 := versions[1].(resignRequired := true)]
  {
    assert [ResignChange(1, 1, true)][..0] == [];
  }

  /** Account 7 is about to be listed and the older text about to be marked; nothing is committed yet. */
  lemma ListingAndReflag() returns (steps: seq<TxStep>, s: State)
    ensures s == Run(Initial(false), steps) && !s.moved && s.tables == OlderText()
    ensures AddMembers(0, [RosterEntry([97], Some(7))]) in s.plans && SetFlags(Ccla, [ResignChange(1, 1, true)]) in s.plans
  {
    var entries := [RosterEntry([97], Some(7))];
    steps, s := CompanyOnOlderText();
    var checks, reflag := CheckRoster(0, entries), SetFlags(Ccla, [ResignChange(1, 1, true)]);
    steps, s := RunMore(false, steps, s, Read(AddRoster(0, entries)));
    assert checks in s.plans && s.tables == OlderText() && !s.moved;
    steps, s := RunMore(false, steps, s, ReadOn(checks));
    assert AddMembers(0, entries) in s.plans && s.tables == OlderText() && !s.moved;
    CompanyReflag(s.tables);
    steps, s := RunMore(false, steps, s, Read(SetResign([(1, true)])));
  }

  /** A company in effect on the older of two corporate texts, and no member yet. */
  lemma CompanyOnOlderText() returns (steps: seq<TxStep>, s: State)
    ensures s == Run(Initial(false), steps) && !s.moved && s.tables == OlderText()
  {
    steps, s := TwoTexts();
    steps, s := MoreWhole(steps, s, SignCcla(8, []));
    SecondCcla(s.tables);
    steps, s := MoreWhole(steps, s, Publish(Ccla, false, []));
  }

  lemma SecondCcla(t: Tables)
    requires t == OlderText().(versions := OlderText().versions[..2], currentCcla := Some(1))
    ensures PublishChange(t, Ccla, false, []).tables == OlderText()
  {
    assert t.versions[..1] == [t.versions[0]] && t.versions[..1][..0] == [] && MaxNumber(t.versions[..1], Ccla) == 0;
    assert MaxNumber(t.versions, Ccla) == 1;
    var stale := StaleIds(t.versions, Ccla, false, []);
    assert MarkResign(t.versions, stale) == t.versions;
    assert PublishChange(t, Ccla, false, []).tables.versions == OlderText().versions;
  }

  function OlderText(): Tables
  {
    Tables([Version(Icla, 1, false), Version(Ccla, 1, false), Version(Ccla, 2, false)], [Signature(Ccla, 1, 8, [], true)],
           [Corporate(1, 0, Effective)], [], [], Some(0), Some(2))
  }

  lemma CompanyReflag(t: Tables)
    requires t == OlderText()
    ensures PlanFlags(t, [(1, true)]) == Success(SetFlags(Ccla, [ResignChange(1, 1, true)]))
  {
    assert [(1, true)][..0] == [] && WantedFlags([(1, true)]) == map[1 := true];
    CompanyFlip(t.versions);
  }

  lemma CompanyFlip(versions: seq<Version>)
    requires versions == OlderText().versions
    ensures FlippedIds(versions, map[1 := true]) == [1]
    ensures ResignChanges(versions, map[1 := true], [1]) == [ResignChange(1, 1, true)]
  {
    var wanted: map<nat, bool> := map[1 := true];
    var flips := (i: nat) => i < |versions| && i in wanted && wanted[i] != versions[i].resignRequired;
    assert Select(0, flips) == [] && Select(1, flips) == [] && Select(2, flips) == [1] && Select(3, flips) == [1];
    assert FlippedIds(versions, wanted) == Select(3, flips);
  }
}
