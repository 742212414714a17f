/**
 The stored check of each pull request, and the two passes that bring it up to date after
 coverage was lost or gained. A pass updates the rows in place, one at a time.
 */
module PullRequests {
  import opened Wrappers
  import opened Text
  import opened Cla
  import opened Runs
  import opened Status
  import opened Regate
  import opened Overlap
  import opened Reports
  import Gate

  datatype GateReason = ClaRequired | ClaStale | DcoMissing

  datatype CheckStatus = Passing | Bypassing | Waiting | Gated | Denied

  datatype PrRow = PrRow(repoId: nat, ghId: int, ghLogin: Text, status: CheckStatus, gateReason: Option<GateReason>)

  /** What a fresh decision reads besides the agreement tables. */
  datatype Setting = Setting(
    world: Gate.World, repos: seq<Gate.Repo>, now: int, collaboration: (nat, int) -> Gate.Collaboration)

  /** The row's repository is active and the app is installed there. */
  predicate InScope(e: Setting, row: PrRow)
  {
    row.repoId < |e.repos| && e.repos[row.repoId].active && e.repos[row.repoId].installationId.Some?
  }

  function AuthorOf(e: Setting, row: PrRow): Gate.Author
  {
    Gate.Author(row.ghLogin, row.ghId, false, e.collaboration(row.repoId, row.ghId))
  }

  /** What the gate would decide for the row now. */
  function Fresh(e: Setting, t: Tables, row: PrRow): Gate.Decision
    requires InScope(e, row)
  {
    Gate.Decide(e.world, e.repos[row.repoId], AuthorOf(e, row), e.now, LocalStatus(t, row.ghId, row.ghLogin))
  }

  predicate Allows(d: Gate.Decision) { d.Allowed? || d.BypassedBot? || d.BypassedCollaborator? }

  predicate HeldForCla(row: PrRow)
  {
    row.status == Gated && (row.gateReason == Some(ClaRequired) || row.gateReason == Some(ClaStale))
  }

  // ---- coverage lost ----

  predicate Regates(e: Setting, t: Tables, ghIds: set<int>, row: PrRow)
  {
    InScope(e, row) && row.ghId in ghIds && row.status == Passing && Fresh(e, t, row).CheckRequired?
  }

  function RegatedRow(e: Setting, t: Tables, ghIds: set<int>, succeeds: bool, row: PrRow): PrRow
  {
    if succeeds && Regates(e, t, ghIds, row) then
      row.(status := Gated, gateReason := Some(if Fresh(e, t, row).stale then ClaStale else ClaRequired))
    else row
  }

  // ---- coverage gained ----

  predicate Releases(e: Setting, t: Tables, ghId: int, row: PrRow)
  {
    InScope(e, row) && row.ghId == ghId && HeldForCla(row) && Allows(Fresh(e, t, row))
  }

  function ReleasedRow(e: Setting, t: Tables, ghId: int, succeeds: bool, row: PrRow): PrRow
  {
    if succeeds && Releases(e, t, ghId, row) then row.(status := Passing, gateReason := None) else row
  }

  ghost function Changed(a: seq<PrRow>, b: seq<PrRow>): set<nat>
    requires |a| == |b|
  {
    set i: nat | i < |a| && a[i] != b[i]
  }

  lemma ChangedOneMore(a: seq<PrRow>, b: seq<PrRow>, n: nat)
    requires |a| == |b| && n < |a|
    ensures |Changed(a[..n + 1], b[..n + 1])| == |Changed(a[..n], b[..n])| + if a[n] != b[n] then 1 else 0
  {
    assert Changed(a[..n + 1], b[..n + 1]) == Changed(a[..n], b[..n]) + if a[n] != b[n] then {n} else {};
  }

  /** `github[i]` says whether every call for row `i` succeeds; where one fails the row is left and the pass goes on. */
  method OnClaCoverageRevoked(
    rows: array<PrRow>, e: Setting, t: Tables, ghIds: set<int>, configured: bool, github: seq<bool>) returns (regated: nat)
    requires |github| == rows.Length
    modifies rows
    ensures forall i :: 0 <= i < rows.Length ==>
      rows[i] == if configured then RegatedRow(e, t, ghIds, github[i], old(rows[i])) else old(rows[i])
    ensures regated == |Changed(rows[..], old(rows[..]))|
  {
    ghost var before := rows[..];
    regated := 0;
    if !configured || ghIds == {} {
      assert Changed(rows[..], before) == {};
      return;
    }
    for i := 0 to rows.Length
      invariant forall j :: 0 <= j < i ==> rows[j] == RegatedRow(e, t, ghIds, github[j], before[j])
      invariant forall j :: i <= j < rows.Length ==> rows[j] == before[j]
      invariant regated == |Changed(rows[..i], before[..i])|
    {
      var row := rows[i];
      if InScope(e, row) && row.ghId in ghIds && row.status == Passing && github[i] {
        var decision := Fresh(e, t, row);
        if decision.CheckRequired? {
          rows[i] := row.(status := Gated, gateReason := Some(if decision.stale then ClaStale else ClaRequired));
          regated := regated + 1;
        }
      }
      ChangedOneMore(rows[..], before, i);
      assert rows[..][..i] == rows[..i] && rows[..][..i + 1] == rows[..i + 1];
    }
    assert rows[..rows.Length] == rows[..] && before[..rows.Length] == before;
  }

  method OnClaCoverageChanged(
    rows: array<PrRow>, e: Setting, t: Tables, ghId: int, configured: bool, github: seq<bool>) returns (rechecked: nat)
    requires |github| == rows.Length
    modifies rows
    ensures forall i :: 0 <= i < rows.Length ==>
      rows[i] == if configured then ReleasedRow(e, t, ghId, github[i], old(rows[i])) else old(rows[i])
    ensures rechecked == |Changed(rows[..], old(rows[..]))|
  {
    ghost var before := rows[..];
    rechecked := 0;
    if !configured {
      assert Changed(rows[..], before) == {};
      return;
    }
    for i := 0 to rows.Length
      invariant forall j :: 0 <= j < i ==> rows[j] == ReleasedRow(e, t, ghId, github[j], before[j])
      invariant forall j :: i <= j < rows.Length ==> rows[j] == before[j]
      invariant rechecked == |Changed(rows[..i], before[..i])|
    {
      var row := rows[i];
      if InScope(e, row) && row.ghId == ghId && HeldForCla(row) && github[i] {
        if Allows(Fresh(e, t, row)) {
          rows[i] := row.(status := Passing, gateReason := None);
          rechecked := rechecked + 1;
        }
      }
      ChangedOneMore(rows[..], before, i);
      assert rows[..][..i] == rows[..i] && rows[..][..i + 1] == rows[..i + 1];
    }
    assert rows[..rows.Length] == rows[..] && before[..rows.Length] == before;
  }

  // ---- what the passes keep ----

  /** A row in scope does not pass while the gate asks for the agreement, nor is it held once the gate lets it through. */
  ghost predicate SettledRow(e: Setting, t: Tables, row: PrRow)
  {
    InScope(e, row) ==>
      (row.status == Passing ==> !Fresh(e, t, row).CheckRequired?) && (HeldForCla(row) ==> !Allows(Fresh(e, t, row)))
  }

  ghost predicate Settled(e: Setting, t: Tables, rows: seq<PrRow>)
  {
    forall i :: 0 <= i < |rows| ==> SettledRow(e, t, rows[i])
  }

  /** Both passes over the reported accounts, every call succeeding: lost first, then gained. */
  function DrivenRow(e: Setting, t: Tables, ghIds: set<int>, row: PrRow): PrRow
  {
    var regated := RegatedRow(e, t, ghIds, true, row);
    if regated.ghId in ghIds then ReleasedRow(e, t, regated.ghId, true, regated) else regated
  }

  function Driven(e: Setting, t: Tables, ghIds: set<int>, rows: seq<PrRow>): (r: seq<PrRow>)
    ensures |r| == |rows|
  {
    seq(|rows|, i requires 0 <= i < |rows| => DrivenRow(e, t, ghIds, rows[i]))
  }

  lemma ReleasedTwice(e: Setting, t: Tables, ghId: int, row: PrRow)
    ensures ReleasedRow(e, t, ghId, true, ReleasedRow(e, t, ghId, true, row)) == ReleasedRow(e, t, ghId, true, row)
  {
  }

  /** Both directions for the reported accounts, as a change of flags drives them; every call to GitHub succeeds. */
  method DriveCoverage(rows: array<PrRow>, e: Setting, t: Tables, ghIds: seq<int>)
    modifies rows
    ensures rows[..] == Driven(e, t, set g | g in ghIds, old(rows[..]))
  {
    var all := set g | g in ghIds;
    var github := seq(rows.Length, _ => true);
    var _ := OnClaCoverageRevoked(rows, e, t, all, true, github);
    ghost var regated := rows[..];
    for k := 0 to |ghIds|
      invariant forall i :: 0 <= i < rows.Length ==>
        rows[i] == if regated[i].ghId in ghIds[..k] then ReleasedRow(e, t, regated[i].ghId, true, regated[i]) else regated[i]
    {
      var _ := OnClaCoverageChanged(rows, e, t, ghIds[k], true, github);
      forall i | 0 <= i < rows.Length
        ensures rows[i] == if regated[i].ghId in ghIds[..k + 1] then ReleasedRow(e, t, regated[i].ghId, true, regated[i]) else regated[i]
      {
        ReleasedTwice(e, t, ghIds[k], regated[i]);
      }
    }
    assert ghIds[..|ghIds|] == ghIds;
  }

  /** Where the answer is the same, so is whether the gate asks for the agreement, and whether it lets through. */
  lemma SameAnswerSameGate(e: Setting, t: Tables, u: Tables, row: PrRow)
    requires InScope(e, row) && Satisfied(t, row.ghId, row.ghLogin) == Satisfied(u, row.ghId, row.ghLogin)
    ensures Fresh(e, t, row).CheckRequired? == Fresh(e, u, row).CheckRequired?
    ensures Allows(Fresh(e, t, row)) == Allows(Fresh(e, u, row))
  {
    var repo, a := e.repos[row.repoId], AuthorOf(e, row);
    Gate.ClaGateIsExact(e.world, repo, a, e.now, LocalStatus(t, row.ghId, row.ghLogin));
    Gate.ClaGateIsExact(e.world, repo, a, e.now, LocalStatus(u, row.ghId, row.ghLogin));
  }

  ghost predicate ReportsAll(t: Tables, u: Tables, ghIds: set<int>)
  {
    forall account: int, login: Text :: Satisfied(t, account, login) != Satisfied(u, account, login) ==> account in ghIds
  }

  lemma DrivenRowIsSettled(e: Setting, t: Tables, u: Tables, ghIds: set<int>, row: PrRow)
    requires SettledRow(e, t, row) && ReportsAll(t, u, ghIds)
    ensures SettledRow(e, u, DrivenRow(e, u, ghIds, row))
  {
    if InScope(e, row) && row.ghId !in ghIds {
      assert Satisfied(t, row.ghId, row.ghLogin) == Satisfied(u, row.ghId, row.ghLogin);
      SameAnswerSameGate(e, t, u, row);
    }
  }

  lemma DrivenIsSettled(e: Setting, t: Tables, u: Tables, ghIds: set<int>, rows: seq<PrRow>)
    requires Settled(e, t, rows) && ReportsAll(t, u, ghIds)
    ensures Settled(e, u, Driven(e, u, ghIds, rows))
  {
    forall i | 0 <= i < |rows| ensures SettledRow(e, u, Driven(e, u, ghIds, rows)[i]) {
      DrivenRowIsSettled(e, t, u, ghIds, rows[i]);
    }
  }

  /** The passes never close a pull request: they touch only passing rows and rows held for the agreement. */
  lemma PassesCloseNothing(e: Setting, t: Tables, ghIds: set<int>, row: PrRow)
    ensures var r := DrivenRow(e, t, ghIds, row);
      r.repoId == row.repoId && r.ghId == row.ghId && r.ghLogin == row.ghLogin &&
      (r != row ==> (row.status == Passing || HeldForCla(row)) && (r.status == Passing || HeldForCla(r)))
  {
  }

  // ---- whom a transaction that commits reports ----

  /** The signature a signing adds. */
  ghost predicate SignedOnto(t: Tables, u: Tables, ghId: int, ghLogin: Text, v: nat)
  {
    u == t.(signatures := t.signatures + [Signature(Icla, v, ghId, ghLogin, true)])
  }

  lemma SigningChangesOnlySigner(t: Tables, u: Tables, ghId: int, ghLogin: Text, v: nat, account: int, login: Text)
    requires References(t) && SignedOnto(t, u, ghId, ghLogin, v) && account != ghId
    ensures Satisfied(u, account, login) == Satisfied(t, account, login)
  {
    assert forall i :: 0 <= i < |t.signatures| ==> u.signatures[i] == t.signatures[i];
    assert !IsIclaOf(u.signatures[|t.signatures|], account);
    SigningKeepsOthers(t, u, account);
    forall i | 0 <= i < |t.roster| ensures Covers(u, u.roster[i], account, Lower(login)) == Covers(t, t.roster[i], account, Lower(login)) {
      assert CorporateRefers(t, t.corporates[t.roster[i].corporateId]);
    }
    StatusDepartsFromRule(t, account, login);
    StatusDepartsFromRule(u, account, login);
  }

  lemma SigningKeepsOthers(t: Tables, u: Tables, account: int)
    requires u.versions == t.versions && |u.signatures| == |t.signatures| + 1
    requires forall i :: 0 <= i < |t.signatures| ==> u.signatures[i] == t.signatures[i]
    requires !IsIclaOf(u.signatures[|t.signatures|], account)
    ensures SignedAny(u, account) == SignedAny(t, account) && SignedValid(u, account) == SignedValid(t, account)
  {
    if SignedAny(t, account) {
      var i :| 0 <= i < |t.signatures| && IsIclaOf(t.signatures[i], account);
      assert IsIclaOf(u.signatures[i], account);
    }
    if SignedValid(t, account) {
      var i :| 0 <= i < |t.signatures| && IsIclaOf(t.signatures[i], account) && VersionStands(t, t.signatures[i].versionId);
      assert IsIclaOf(u.signatures[i], account) && VersionStands(u, u.signatures[i].versionId);
    }
  }

  /** A publish reports once it holds the row, a re-flag the signers it read before, a signing its signer; the rest name what is passed. */
  function Reported(t: Tables, p: Plan, signers: set<int>): set<int>
    requires Ready(p) && Finish(t, p).Success?
  {
    match p
    case PublishAs(kind, _, requireResign, ids) =>
      ActiveSigners(Finish(t, p).value.tables, kind, StaleIds(t.versions, kind, requireResign, ids))
    case SetFlags(_, _) => signers
    case SignVersion(ghId, _, _) => {ghId}
    case _ => signers
  }

  /** A report that names everybody: an individual publish, a re-flag nobody signed in the way of, a signing of a text that stands. */
  predicate OnTime(t: Tables, p: Plan, signers: set<int>)
  {
    match p
    case PublishAs(kind, _, _, _) => kind == Icla
    case SetFlags(kind, changes) => kind == Icla && IclaSigners(t, NamedIn(changes)) <= signers
    case SignVersion(_, _, v) => VersionStands(t, v)
    case _ => p.CheckRoster? || p.SetRequired?
  }

  /** Everyone whose answer the commit changes is reported, whatever was committed since the transaction read. */
  lemma ReportIsComplete(t: Tables, p: Plan, signers: set<int>)
    requires Inv(t) && Fits(t, p) && Ready(p) && Finish(t, p).Success? && OnTime(t, p, signers)
    ensures ReportsAll(t, Finish(t, p).value.tables, Reported(t, p, signers))
  {
    var u := Finish(t, p).value.tables;
    forall account: int, login: Text | Satisfied(t, account, login) != Satisfied(u, account, login)
      ensures account in Reported(t, p, signers)
    {
      match p
      case PublishAs(_, number, requireResign, ids) =>
        LatePublish(t, Icla, number, requireResign, ids);
        PublishChangesFlags(t, Icla, requireResign, ids);
        IclaReportIsComplete(t, u, StaleIds(t.versions, Icla, requireResign, ids), account, login);
      case SetFlags(_, changes) =>
        FlagsChangeFlags(t, Icla, changes);
        IclaReportIsComplete(t, u, NamedIn(changes), account, login);
      case SignVersion(ghId, ghLogin, v) =>
        if account != ghId {
          SigningChangesOnlySigner(t, u, ghId, ghLogin, v, account, login);
        }
      case _ =>
    }
  }

  // ---- which passes a caller drives, and exactly which rows they miss ----

  datatype Passes = BothWays | GainOnly | LossOnly | NoPass

  /** Changes of texts drive both passes; revoked signatures, waivers and single roster rows drive none. */
  function PassesOf(p: Plan): Passes
  {
    match p
    case PublishAs(_, _, _, _) => BothWays
    case SetFlags(_, _) => BothWays
    case SignVersion(_, _, _) => GainOnly
    case AddMembers(_, _) => GainOnly
    case DecideCompany(_, decision) => if decision == Approves then GainOnly else if decision == Withdraws then LossOnly else NoPass
    case _ => NoPass
  }

  function PassedRow(e: Setting, t: Tables, k: Passes, ghIds: set<int>, row: PrRow): PrRow
  {
    match k
    case BothWays => DrivenRow(e, t, ghIds, row)
    case GainOnly => if row.ghId in ghIds then ReleasedRow(e, t, row.ghId, true, row) else row
    case LossOnly => RegatedRow(e, t, ghIds, true, row)
    case NoPass => row
  }

  /** The passes look at rows in the status the row is in. */
  predicate Sees(k: Passes, row: PrRow)
  {
    if row.status == Passing then k in {BothWays, LossOnly} else k in {BothWays, GainOnly}
  }

  /** The row does not agree with the gate, and no pass that would put it right looks at its author. */
  ghost predicate MissedRow(e: Setting, t: Tables, k: Passes, ghIds: set<int>, row: PrRow)
  {
    !SettledRow(e, t, row) && !(row.ghId in ghIds && Sees(k, row))
  }

  lemma PassedRowIsSettled(e: Setting, t: Tables, k: Passes, ghIds: set<int>, row: PrRow)
    ensures SettledRow(e, t, PassedRow(e, t, k, ghIds, row)) <==> !MissedRow(e, t, k, ghIds, row)
  {
  }

  /** The agreement decides about the row: required, and its author otherwise let in. */
  predicate AgreementDecides(e: Setting, row: PrRow)
  {
    InScope(e, row) && e.world.settings.claEnabled && e.world.settings.claRequired &&
    Gate.BaseOf(e.world, e.repos[row.repoId], AuthorOf(e, row), e.now).Allowing?
  }

  /** The answer about the author turns against the row. */
  predicate TurnsAgainst(t: Tables, u: Tables, row: PrRow)
  {
    var before, after := Satisfied(t, row.ghId, row.ghLogin), Satisfied(u, row.ghId, row.ghLogin);
    (row.status == Passing && before && !after) || (HeldForCla(row) && !before && after)
  }

  /** A row that agreed with the gate is missed exactly if the agreement decides about it and the answer turns against it unseen. */
  lemma MissedIsChanged(e: Setting, t: Tables, u: Tables, k: Passes, ghIds: set<int>, row: PrRow)
    requires SettledRow(e, t, row)
    ensures MissedRow(e, u, k, ghIds, row) <==>
      AgreementDecides(e, row) && TurnsAgainst(t, u, row) && !(row.ghId in ghIds && Sees(k, row))
  {
    if InScope(e, row) {
      var repo, a := e.repos[row.repoId], AuthorOf(e, row);
      Gate.ClaGateIsExact(e.world, repo, a, e.now, LocalStatus(t, row.ghId, row.ghLogin));
      Gate.ClaGateIsExact(e.world, repo, a, e.now, LocalStatus(u, row.ghId, row.ghLogin));
      if Satisfied(t, row.ghId, row.ghLogin) == Satisfied(u, row.ghId, row.ghLogin) {
        SameAnswerSameGate(e, t, u, row);
      }
    }
  }

  // ---- after signing ----

  /** The pass after a signing misses a row that agreed with the gate exactly if it passes and the signing lost its author's coverage. */
  lemma SignedRow(e: Setting, t: Tables, u: Tables, ghId: int, ghLogin: Text, v: nat, row: PrRow)
    requires References(t) && SignedOnto(t, u, ghId, ghLogin, v) && SettledRow(e, t, row)
    ensures MissedRow(e, u, GainOnly, {ghId}, row) <==>
      AgreementDecides(e, row) && row.ghId == ghId && row.status == Passing &&
      Satisfied(t, row.ghId, row.ghLogin) && !Satisfied(u, row.ghId, row.ghLogin)
  {
    MissedIsChanged(e, t, u, GainOnly, {ghId}, row);
    if row.ghId != ghId {
      SigningChangesOnlySigner(t, u, ghId, ghLogin, v, row.ghId, row.ghLogin);
    }
  }

  /**
   Right after signing, the gate asks the signer for the agreement on a repository that otherwise
   lets them in and requires it exactly when the version they read was left marked by what was
   committed since, and neither a waiver nor another signature covers them.
   */
  lemma SignerIsAsked(e: Setting, s: State, op: Op, p: Plan, between: seq<TxStep>, r: State, row: PrRow)
    requires op.SignIcla? && op.ghId == row.ghId && Sane(s) && Waited(s, op, p, between, r) && !s.moved && InScope(e, row)
    ensures p.SignVersion? && (Fresh(e, Take(r, Write(p)).tables, row).CheckRequired? <==>
      Gate.BaseOf(e.world, e.repos[row.repoId], AuthorOf(e, row), e.now).Allowing? &&
      e.world.settings.claEnabled && e.world.settings.claRequired && FlagAfter(Since(s, r), p.versionId, false) &&
      !Waived(r.tables, row.ghId, Lower(row.ghLogin)) && !SignedValid(r.tables, row.ghId))
  {
    var u := Take(r, Write(p)).tables;
    LateSigningCovers(s, op, p, between, r, row.ghLogin);
    Gate.ClaGateIsExact(e.world, e.repos[row.repoId], AuthorOf(e, row), e.now, LocalStatus(u, row.ghId, row.ghLogin));
  }
}
