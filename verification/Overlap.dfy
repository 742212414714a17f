/**
 What overlapping transactions do to one another: what no run takes back, decisions taken twice,
 and a signature on a version that was marked meanwhile.
 */
module Overlap {
  import opened Wrappers
  import opened Text
  import opened Cla
  import opened Runs
  import opened Replay
  import opened Status
  import opened Regate

  // ---- what no run takes back ----

  /** The same signature, and once revoked always revoked. */
  predicate SignatureStays(a: Signature, b: Signature) { b.(active := a.active) == a && (b.active ==> a.active) }

  predicate WaiverStays(a: Waiver, b: Waiver) { b.(active := a.active) == a && (b.active ==> a.active) }

  /** The same row, and once off the list never on it again. */
  predicate MemberStays(a: Member, b: Member) { b.(status := a.status) == a && (b.status == Listed ==> a.status == Listed) }

  /** The same company, and once decided never waiting again. */
  predicate CompanyStays(a: Corporate, b: Corporate)
  {
    b.(status := a.status) == a && (b.status == Pending ==> a.status == Pending)
  }

  predicate VersionStays(a: Version, b: Version) { b.(resignRequired := a.resignRequired) == a }

  ghost predicate RowsStay(t: Tables, u: Tables)
  {
    |t.versions| <= |u.versions| && |t.signatures| <= |u.signatures| && |t.corporates| <= |u.corporates| &&
    |t.roster| <= |u.roster| && |t.waivers| <= |u.waivers| &&
    (forall i :: 0 <= i < |t.versions| ==> VersionStays(t.versions[i], u.versions[i])) &&
    (forall i :: 0 <= i < |t.signatures| ==> SignatureStays(t.signatures[i], u.signatures[i])) &&
    (forall i :: 0 <= i < |t.corporates| ==> CompanyStays(t.corporates[i], u.corporates[i])) &&
    (forall i :: 0 <= i < |t.roster| ==> MemberStays(t.roster[i], u.roster[i])) &&
    (forall i :: 0 <= i < |t.waivers| ==> WaiverStays(t.waivers[i], u.waivers[i]))
  }

  lemma RowsStayOn(t: Tables, u: Tables, v: Tables)
    requires RowsStay(t, u) && RowsStay(u, v)
    ensures RowsStay(t, v)
  {
    forall i | 0 <= i < |t.signatures| ensures SignatureStays(t.signatures[i], v.signatures[i]) {
      assert SignatureStays(u.signatures[i], v.signatures[i]);
    }
    forall i | 0 <= i < |t.corporates| ensures CompanyStays(t.corporates[i], v.corporates[i]) {
      assert CompanyStays(u.corporates[i], v.corporates[i]);
    }
    forall i | 0 <= i < |t.roster| ensures MemberStays(t.roster[i], v.roster[i]) {
      assert MemberStays(u.roster[i], v.roster[i]);
    }
  }

  lemma VersionsKeepRows(t: Tables, p: Plan)
    requires (p.PublishAs? || p.SetFlags?) && Finish(t, p).Success?
    ensures RowsStay(t, Finish(t, p).value.tables)
  {
    if p.SetFlags? {
      ResignsKeep(t.versions, p.changes);
    }
  }

  lemma InsertKeepsRows(t: Tables, p: Plan)
    requires p.SignVersion? || p.SignCompany? || p.Waive? || p.CheckRoster? || p.SetRequired?
    requires Ready(p)
    ensures RowsStay(t, Finish(t, p).value.tables)
  {
  }

  lemma RosterKeepsRows(t: Tables, p: Plan)
    requires p.AddMembers? && Ready(p)
    ensures RowsStay(t, Finish(t, p).value.tables)
  {
    AddEntriesAre(t.roster + [Enlisted(p.corporateId, p.entries[0])], p.corporateId, p.entries[1..]);
  }

  lemma StatusKeepsRows(t: Tables, p: Plan)
    requires (p.DecideCompany? || p.CloseMember? || p.CloseSignature? || p.CloseWaiver?) && Finish(t, p).Success?
    ensures RowsStay(t, Finish(t, p).value.tables)
  {
  }

  lemma FinishKeepsRows(t: Tables, p: Plan)
    requires Ready(p) && Finish(t, p).Success?
    ensures RowsStay(t, Finish(t, p).value.tables)
  {
    if p.PublishAs? || p.SetFlags? {
      VersionsKeepRows(t, p);
    } else if p.AddMembers? {
      RosterKeepsRows(t, p);
    } else if p.DecideCompany? || p.CloseMember? || p.CloseSignature? || p.CloseWaiver? {
      StatusKeepsRows(t, p);
    } else {
      InsertKeepsRows(t, p);
    }
  }

  lemma NothingMoves(t: Tables)
    ensures RowsStay(t, t)
  {
  }

  lemma TakeKeepsRows(s: State, step: TxStep)
    ensures RowsStay(s.tables, Take(s, step).tables)
  {
    if step.Write? && step.plan in s.plans && Ready(step.plan) && Written(s, step.plan).Success? {
      FinishKeepsRows(s.tables, step.plan);
      assert Take(s, step).tables == Finish(s.tables, step.plan).value.tables;
    } else {
      NothingMoves(s.tables);
    }
  }

  /**
   Over every run, however transactions overlap: no row is lost, a row keeps whom and what it is
   about, a revoked signature or waiver stays revoked, a member off the list stays off it, and a
   decided company never waits again.
   */
  lemma {:induction false} RunKeepsRows(s: State, steps: seq<TxStep>)
    ensures RowsStay(s.tables, Run(s, steps).tables)
    decreases |steps|
  {
    if steps != [] {
      var init := steps[..|steps| - 1];
      RunKeepsRows(s, init);
      TakeKeepsRows(Run(s, init), steps[|steps| - 1]);
      RowsStayOn(s.tables, Run(s, init).tables, Run(s, steps).tables);
    }
  }

  lemma {:induction false} RunOnlyAdds(s: State, steps: seq<TxStep>)
    ensures var r := Run(s, steps); s.plans <= r.plans && s.log <= r.log && r.moved == s.moved
    decreases |steps|
  {
    if steps != [] {
      RunOnlyAdds(s, steps[..|steps| - 1]);
      StepOnlyAdds(Run(s, steps[..|steps| - 1]), steps[|steps| - 1]);
    }
  }

  /** What was recorded between two states of a run. */
  function Since(s: State, r: State): seq<Event>
  {
    if |s.log| <= |r.log| then r.log[|s.log|..] else []
  }

  lemma SinceOneMore(s: State, steps: seq<TxStep>)
    requires steps != []
    ensures var mid, r := Run(s, steps[..|steps| - 1]), Run(s, steps);
      s.log <= mid.log <= r.log && Since(s, r) == Since(s, mid) + Since(mid, r)
  {
    var init := steps[..|steps| - 1];
    RunOnlyAdds(s, init);
    StepOnlyAdds(Run(s, init), steps[|steps| - 1]);
  }

  /** A step records nothing, or what the transaction it completes records. */
  lemma StepRecords(s: State, step: TxStep)
    ensures var r := Take(s, step);
      (r.tables == s.tables && Since(s, r) == []) ||
      (step.Write? && Ready(step.plan) && Finish(s.tables, step.plan).Success? &&
       r.tables == Finish(s.tables, step.plan).value.tables && Since(s, r) == Finish(s.tables, step.plan).value.events)
  {
    if step.Write? && step.plan in s.plans && Ready(step.plan) && Written(s, step.plan).Success? {
      var c := Finish(s.tables, step.plan).value;
      assert (s.log + c.events)[|s.log|..] == c.events;
    }
  }

  // ---- decisions about a company ----

  lemma DecidedConcat(a: seq<Event>, b: seq<Event>, c: nat)
    ensures DecidedIn(a + b, c) <==> DecidedIn(a, c) || DecidedIn(b, c)
  {
    var all := a + b;
    assert forall i :: 0 <= i < |a| ==> all[i] == a[i];
    if DecidedIn(b, c) {
      var i :| 0 <= i < |b| && DecidesOn(b[i], c);
      assert all[|a| + i] == b[i];
    }
  }

  predicate StatusIs(t: Tables, c: nat, status: CorporateStatus) { c < |t.corporates| && t.corporates[c].status == status }

  lemma RosterAddsOnly(t: Tables, p: Plan)
    requires p.AddMembers? && Ready(p)
    ensures var u := Finish(t, p).value; forall i :: 0 <= i < |u.events| ==> u.events[i].RosterAdded?
  {
    AddEntriesAre(t.roster + [Enlisted(p.corporateId, p.entries[0])], p.corporateId, p.entries[1..]);
    var u := Finish(t, p).value;
    forall i | 0 <= i < |u.events| ensures u.events[i].RosterAdded? {
      var n, r := |t.roster|, u.tables.roster;
      if i > 0 {
        var k := n + i;
        assert u.events[i] == RosterAdded(k, p.corporateId, r[k].ghLogin, r[k].ghId);
      }
    }
  }

  lemma FinishDecides(t: Tables, p: Plan, c: nat)
    requires Ready(p) && Finish(t, p).Success? && c < |t.corporates|
    ensures var u := Finish(t, p).value;
      (DecidedIn(u.events, c) <==> p.DecideCompany? && p.corporateId == c) && c < |u.tables.corporates| &&
      (DecidedIn(u.events, c) ==> u.tables.corporates[c].status == Decided(p.decision)) &&
      (!DecidedIn(u.events, c) ==> u.tables.corporates[c] == t.corporates[c])
  {
    if p.AddMembers? {
      RosterAddsOnly(t, p);
    } else if p.DecideCompany? && p.corporateId == c {
      assert DecidesOn(Finish(t, p).value.events[0], c);
    }
  }

  /** From `t` to `u` the company changed only by a decision among the events, and waits no more if there was one. */
  ghost predicate DecidedBetween(t: Tables, u: Tables, events: seq<Event>, c: nat)
  {
    c < |t.corporates| <= |u.corporates| && (!DecidedIn(events, c) ==> u.corporates[c] == t.corporates[c]) &&
    (DecidedIn(events, c) ==> u.corporates[c].status != Pending)
  }

  lemma StepDecides(s: State, step: TxStep, c: nat)
    requires c < |s.tables.corporates|
    ensures DecidedBetween(s.tables, Take(s, step).tables, Since(s, Take(s, step)), c)
  {
    var r := Take(s, step);
    StepRecords(s, step);
    TakeKeepsRows(s, step);
    if Since(s, r) != [] || r.tables != s.tables {
      FinishDecides(s.tables, step.plan, c);
    }
  }

  lemma DecidedOn(t: Tables, u: Tables, v: Tables, a: seq<Event>, b: seq<Event>, c: nat)
    requires DecidedBetween(t, u, a, c) && DecidedBetween(u, v, b, c)
    requires CompanyStays(u.corporates[c], v.corporates[c])
    ensures DecidedBetween(t, v, a + b, c)
  {
    DecidedConcat(a, b, c);
  }

  /** A company's status changes only by a decision recorded on it, and one that was waiting waits exactly until one is. */
  lemma {:induction false} StatusFollowsDecisions(s: State, steps: seq<TxStep>, c: nat)
    requires c < |s.tables.corporates|
    ensures DecidedBetween(s.tables, Run(s, steps).tables, Since(s, Run(s, steps)), c)
    decreases |steps|
  {
    if steps != [] {
      var mid, r := Run(s, steps[..|steps| - 1]), Run(s, steps);
      StatusFollowsDecisions(s, steps[..|steps| - 1], c);
      SinceOneMore(s, steps);
      StepDecides(mid, steps[|steps| - 1], c);
      TakeKeepsRows(mid, steps[|steps| - 1]);
      DecidedOn(s.tables, mid.tables, r.tables, Since(s, mid), Since(mid, r), c);
    }
  }

  /** What is left of a transaction that has read and then waited while `between` ran. */
  ghost predicate Waited(s: State, op: Op, p: Plan, between: seq<TxStep>, r: State)
  {
    PlanOf(s.tables, s.requiresApproval, op) == Success(p) && r == Run(Take(s, Read(op)), between)
  }

  /**
   An approval or rejection commits whatever became of the company since it was read: it then
   decides one that was no longer waiting exactly when another decision was recorded in between.
   */
  lemma LateDecision(s: State, op: Op, p: Plan, between: seq<TxStep>, r: State)
    requires (op.ApproveCorporate? || op.RejectCorporate?) && Waited(s, op, p, between, r) && !s.moved
    ensures var c := op.corporateId; var done := Take(r, Write(p));
      c < |r.tables.corporates| && (r.tables.corporates[c].status == Pending <==> !DecidedIn(Since(s, r), c)) &&
      done.tables == r.tables.(corporates := r.tables.corporates[c := r.tables.corporates[c].(status := Decided(p.decision))]) &&
      done.log == r.log + [DecisionEvent(c, p.decision)]
  {
    var read := Take(s, Read(op));
    RunOnlyAdds(read, between);
    StatusFollowsDecisions(read, between, op.corporateId);
    assert Since(read, r) == Since(s, r);
  }

  /** Nothing overlapping, a rejected or revoked company keeps its status. */
  lemma StepKeepsEnded(s: State, op: Op, c: nat)
    requires StatusIs(s.tables, c, Rejected) || StatusIs(s.tables, c, Withdrawn)
    ensures c < |Step(s, op).tables.corporates| && Step(s, op).tables.corporates[c] == s.tables.corporates[c]
  {
    ChangeAtOnce(s.tables, s.requiresApproval, op);
    if Attempted(s, op).Success? {
      var p := ReadAll(s.tables, PlanOf(s.tables, s.requiresApproval, op).value);
      FinishDecides(s.tables, p, c);
    }
  }

  lemma OneWaiting() returns (steps: seq<TxStep>, s: State)
    ensures s == Run(Initial(true), steps) && !s.moved && s.tables.corporates == [Corporate(0, 0, Pending)]
  {
    steps := RunThenStep(true, [], Initial(true), Publish(Ccla, false, []));
    var s1 := Step(Initial(true), Publish(Ccla, false, []));
    assert |s1.tables.versions| == 1 && s1.tables.versions[0].kind == Ccla && s1.tables.currentCcla == Some(0);
    assert s1.tables.corporates == [] && !s1.moved && s1.requiresApproval;
    steps := RunThenStep(true, steps, s1, SignCcla(1, []));
    s := Run(Initial(true), steps);
  }

  lemma RunMore(flag: bool, steps: seq<TxStep>, s: State, step: TxStep) returns (more: seq<TxStep>, r: State)
    requires s == Run(Initial(flag), steps)
    ensures r == Run(Initial(flag), more) && r == Take(s, step) && more == steps + [step]
  {
    RunAppend(Initial(flag), steps, step);
    more, r := steps + [step], Take(s, step);
  }

  /** Two reviewers at once, one rejecting and one approving: both are recorded, and the rejected company is in effect. */
  lemma RejectedIsApproved() returns (steps: seq<TxStep>, s: State)
    ensures s == Run(Initial(true), steps) && s.tables.corporates == [Corporate(0, 0, Effective)]
    ensures |s.log| >= 2 && s.log[|s.log| - 2..] == [CclaRejected(0), CclaApproved(0)]
  {
    var before;
    steps, before := OneWaiting();
    var yes, no := DecideCompany(0, Approves), DecideCompany(0, Rejects);
    steps, s := RunMore(true, steps, before, Read(ApproveCorporate(0)));
    assert yes in s.plans && s.tables == before.tables && s.log == before.log && !s.moved;
    steps, s := RunMore(true, steps, s, Read(RejectCorporate(0)));
    assert yes in s.plans && no in s.plans && s.tables == before.tables && s.log == before.log && !s.moved;
    steps, s := RunMore(true, steps, s, Write(no));
    assert yes in s.plans && s.tables.corporates == [Corporate(0, 0, Rejected)] && s.log == before.log + [CclaRejected(0)] && !s.moved;
    steps, s := RunMore(true, steps, s, Write(yes));
    assert s.log == before.log + [CclaRejected(0)] + [CclaApproved(0)];
    assert s.log == before.log + [CclaRejected(0), CclaApproved(0)] && s.log[|before.log|..] == [CclaRejected(0), CclaApproved(0)];
  }

  // ---- a signature on a version read before ----

  /** The flag some changes leave a version with. */
  function FlagOf(changes: seq<ResignChange>, id: nat, before: bool): bool
  {
    if changes == [] then before
    else
      var last := changes[|changes| - 1];
      if last.versionId == id then last.resignRequired else FlagOf(changes[..|changes| - 1], id, before)
  }

  function FlagStep(e: Event, id: nat, before: bool): bool
  {
    match e
    case DocPublished(_, _, _, resignIds) => before || id in resignIds
    case ResignSet(_, changes) => FlagOf(changes, id, before)
    case _ => before
  }

  /** The flag some events leave a version with: the last publish that marks it or re-sign change that names it decides. */
  function FlagAfter(events: seq<Event>, id: nat, before: bool): bool
  {
    if events == [] then before else FlagStep(events[|events| - 1], id, FlagAfter(events[..|events| - 1], id, before))
  }

  lemma {:induction false} FlagAfterConcat(a: seq<Event>, b: seq<Event>, id: nat, before: bool)
    ensures FlagAfter(a + b, id, before) == FlagAfter(b, id, FlagAfter(a, id, before))
    decreases |b|
  {
    if b == [] {
      assert a + b == a;
    } else {
      assert (a + b)[..|a + b| - 1] == a + b[..|b| - 1];
      FlagAfterConcat(a, b[..|b| - 1], id, before);
    }
  }

  lemma {:induction false} FlagOfIsApplied(versions: seq<Version>, changes: seq<ResignChange>, id: nat)
    requires id < |versions|
    ensures ApplyResigns(versions, changes)[id].resignRequired == FlagOf(changes, id, versions[id].resignRequired)
    decreases |changes|
  {
    if changes != [] {
      FlagOfIsApplied(versions, changes[..|changes| - 1], id);
    }
  }

  lemma OneEventFlag(e: Event, id: nat, before: bool)
    ensures FlagAfter([e], id, before) == FlagStep(e, id, before)
  {
    assert [e][..0] == [];
  }

  lemma {:induction false} OtherEventsKeepFlag(events: seq<Event>, id: nat, before: bool)
    requires forall i :: 0 <= i < |events| ==> !events[i].DocPublished? && !events[i].ResignSet?
    ensures FlagAfter(events, id, before) == before
    decreases |events|
  {
    if events != [] {
      OtherEventsKeepFlag(events[..|events| - 1], id, before);
    }
  }

  lemma FinishFlag(t: Tables, p: Plan, id: nat)
    requires Ready(p) && Finish(t, p).Success? && id < |t.versions|
    ensures var u := Finish(t, p).value;
      id < |u.tables.versions| && u.tables.versions[id].resignRequired == FlagAfter(u.events, id, t.versions[id].resignRequired)
  {
    var u, flag := Finish(t, p).value, t.versions[id].resignRequired;
    match p
    case PublishAs(_, _, _, _) => OneEventFlag(u.events[0], id, flag);
    case SetFlags(_, changes) =>
      FlagOfIsApplied(t.versions, changes, id);
      if changes != [] { OneEventFlag(u.events[0], id, flag); }
    case AddMembers(_, _) =>
      RosterAddsOnly(t, p);
      OtherEventsKeepFlag(u.events, id, flag);
    case _ => OtherEventsKeepFlag(u.events, id, flag);
  }

  /** A version's flag is the one the recorded events leave it with. */
  lemma {:induction false} FlagsFollowEvents(s: State, steps: seq<TxStep>, id: nat)
    requires id < |s.tables.versions|
    ensures var r := Run(s, steps);
      id < |r.tables.versions| &&
      r.tables.versions[id].resignRequired == FlagAfter(Since(s, r), id, s.tables.versions[id].resignRequired)
    decreases |steps|
  {
    if steps != [] {
      var mid, r := Run(s, steps[..|steps| - 1]), Run(s, steps);
      FlagsFollowEvents(s, steps[..|steps| - 1], id);
      SinceOneMore(s, steps);
      FlagAfterConcat(Since(s, mid), Since(mid, r), id, s.tables.versions[id].resignRequired);
      StepRecords(mid, steps[|steps| - 1]);
      if Since(mid, r) != [] || r.tables != mid.tables {
        FinishFlag(mid.tables, steps[|steps| - 1].plan, id);
      }
    }
  }

  lemma NewSignature(t: Tables, u: Tables, v: nat, ghId: int, ghLogin: Text)
    requires u == t.(signatures := t.signatures + [Signature(Icla, v, ghId, ghLogin, true)])
    ensures SignedAny(u, ghId) && (SignedValid(u, ghId) <==> VersionStands(t, v) || SignedValid(t, ghId))
  {
    var n := |t.signatures|;
    assert forall i :: 0 <= i < n ==> u.signatures[i] == t.signatures[i];
    assert IsIclaOf(u.signatures[n], ghId) && u.signatures[n].versionId == v;
    if SignedValid(t, ghId) {
      var i :| 0 <= i < n && IsIclaOf(t.signatures[i], ghId) && VersionStands(t, t.signatures[i].versionId);
      assert IsIclaOf(u.signatures[i], ghId) && VersionStands(u, u.signatures[i].versionId);
    }
    if SignedValid(u, ghId) && !VersionStands(t, v) {
      var i :| 0 <= i < |u.signatures| && IsIclaOf(u.signatures[i], ghId) && VersionStands(u, u.signatures[i].versionId);
      assert i < n && IsIclaOf(t.signatures[i], ghId);
    }
  }

  lemma SigningIsWritten(s: State, op: Op, p: Plan, between: seq<TxStep>, r: State)
    requires op.SignIcla? && Sane(s) && Waited(s, op, p, between, r) && !s.moved
    ensures p == SignVersion(op.ghId, op.ghLogin, p.versionId) && p.versionId < |s.tables.versions| && !r.moved
    ensures Take(r, Write(p)).tables == r.tables.(signatures :=
        r.tables.signatures + [Signature(Icla, p.versionId, op.ghId, op.ghLogin, true)])
    ensures VersionStands(r.tables, p.versionId) <==> !FlagAfter(Since(s, r), p.versionId, false)
  {
    var read := Take(s, Read(op));
    RunOnlyAdds(read, between);
    assert CurrentIsNewest(s.tables, Icla);
    FlagsFollowEvents(read, between, p.versionId);
    assert Since(read, r) == Since(s, r);
  }

  /**
   Signing covers exactly when the version it read was not left marked by what was committed
   since, or the signer was covered anyway by a waiver or another signature.
   */
  lemma LateSigningCovers(s: State, op: Op, p: Plan, between: seq<TxStep>, r: State, login: Text)
    requires op.SignIcla? && Sane(s) && Waited(s, op, p, between, r) && !s.moved
    ensures p.SignVersion? && (Satisfied(Take(r, Write(p)).tables, op.ghId, login) <==>
      !FlagAfter(Since(s, r), p.versionId, false) || Waived(r.tables, op.ghId, Lower(login)) || SignedValid(r.tables, op.ghId))
  {
    var u := Take(r, Write(p)).tables;
    SigningIsWritten(s, op, p, between, r);
    NewSignature(r.tables, u, p.versionId, op.ghId, op.ghLogin);
    assert Waived(u, op.ghId, Lower(login)) == Waived(r.tables, op.ghId, Lower(login));
  }

  /**
   Signing takes coverage away exactly from somebody a company covered, who had no individual
   signature, when the version read was left marked by what was committed since.
   */
  lemma LateSigningUncovers(s: State, op: Op, p: Plan, between: seq<TxStep>, r: State, login: Text)
    requires op.SignIcla? && Sane(s) && Waited(s, op, p, between, r) && !s.moved && Sane(r)
    ensures p.SignVersion? && (Satisfied(r.tables, op.ghId, login) && !Satisfied(Take(r, Write(p)).tables, op.ghId, login) <==>
      FlagAfter(Since(s, r), p.versionId, false) && !Waived(r.tables, op.ghId, Lower(login)) &&
      !SignedAny(r.tables, op.ghId) && CompanyCovers(r.tables, op.ghId, Lower(login)))
  {
    LateSigningCovers(s, op, p, between, r, login);
    SigningIsWritten(s, op, p, between, r);
    StatusDepartsFromRule(r.tables, op.ghId, login);
    if SignedValid(r.tables, op.ghId) {
      var i :| 0 <= i < |r.tables.signatures| &&
        IsIclaOf(r.tables.signatures[i], op.ghId) && VersionStands(r.tables, r.tables.signatures[i].versionId);
      assert SignedAny(r.tables, op.ghId);
    }
  }

  lemma OnePublished() returns (steps: seq<TxStep>, s: State)
    ensures s == Run(Initial(true), steps) && !s.moved && s.tables == EMPTY.(versions := [Version(Icla, 1, false)], currentIcla := Some(0))
  {
    var op := Publish(Icla, false, []);
    var c := PublishChange(EMPTY, Icla, false, []);
    assert c.tables.versions == [Version(Icla, 1, false)];
    steps := RunThenStep(true, [], Initial(true), op);
    s := Run(Initial(true), steps);
  }

  /** Account 7's only signature is on the first version, and nothing else could cover it. */
  lemma CoveredByFirst(t: Tables)
    requires t.signatures == [Signature(Icla, 0, 7, [], true)] && |t.versions| >= 1 && t.waivers == []
    ensures Satisfied(t, 7, []) <==> !t.versions[0].resignRequired
  {
    assert IsIclaOf(t.signatures[0], 7);
    assert SignedValid(t, 7) <==> VersionStands(t, 0);
  }

  lemma MarkingPublish(t: Tables)
    requires t.versions == [Version(Icla, 1, false)]
    ensures MaxNumber(t.versions, Icla) == 1
    ensures var p := FinishPublish(t, Icla, 2, true, []);
      p.Success? && p.value.tables.signatures == t.signatures && p.value.tables.waivers == t.waivers &&
      p.value.tables.versions == [Version(Icla, 1, true), Version(Icla, 2, false)] && p.value.tables.currentIcla == Some(1)
  {
    assert t.versions[..0] == [];
    var stale := StaleIds(t.versions, Icla, true, []);
    assert 0 in stale;
    assert MarkResign(t.versions, stale) == [Version(Icla, 1, true)];
  }

  /** Somebody is about to sign the only text, and a maintainer to publish another that everyone must sign. */
  lemma SigningMeetsPublish() returns (steps: seq<TxStep>, s: State)
    ensures s == Run(Initial(true), steps) && !s.moved && s.tables == EMPTY.(versions := [Version(Icla, 1, false)], currentIcla := Some(0))
    ensures SignVersion(7, [], 0) in s.plans && PublishAs(Icla, 2, true, []) in s.plans
  {
    var one;
    steps, one := OnePublished();
    MarkingPublish(one.tables);
    steps, s := RunMore(true, steps, one, Read(SignIcla(7, [])));
    assert s == one.(plans := one.plans + {SignVersion(7, [], 0)});
    steps, s := RunMore(true, steps, s, Read(Publish(Icla, true, [])));
  }

  lemma WriteMarks(s: State, p: Plan)
    requires p == PublishAs(Icla, 2, true, []) && p in s.plans && !s.moved && s.tables.versions == [Version(Icla, 1, false)]
    ensures var r := Take(s, Write(p));
      r.plans == s.plans && !r.moved && r.tables.signatures == s.tables.signatures && r.tables.waivers == s.tables.waivers &&
      r.tables.versions == [Version(Icla, 1, true), Version(Icla, 2, false)] && r.tables.currentIcla == Some(1)
  {
    MarkingPublish(s.tables);
  }

  /** Somebody signs while a new text that everyone must sign is published: the signature is recorded and covers nobody. */
  lemma LateSignatureIsStale() returns (steps: seq<TxStep>, s: State)
    ensures s == Run(Initial(true), steps) && s.tables.signatures == [Signature(Icla, 0, 7, [], true)]
    ensures s.tables.currentIcla == Some(1) && !Satisfied(s.tables, 7, [])
  {
    steps, s := SigningMeetsPublish();
    var publish := PublishAs(Icla, 2, true, []);
    WriteMarks(s, publish);
    steps, s := RunMore(true, steps, s, Write(publish));
    steps, s := RunMore(true, steps, s, Write(SignVersion(7, [], 0)));
    CoveredByFirst(s.tables);
  }

  /** Both texts published, a company in effect that lists account 7, and nothing else. */
  function CompanyTables(first: Version): Tables
  {
    Tables([first, Version(Ccla, 1, false)], [Signature(Ccla, 1, 8, [], true)], [Corporate(1, 0, Effective)],
           [Member(0, [97], Some(7), Listed)], [], Some(0), Some(1))
  }

  /** One more transaction that nothing overlaps. */
  lemma MoreWhole(steps: seq<TxStep>, s: State, op: Op) returns (more: seq<TxStep>, r: State)
    requires s == Run(Initial(false), steps) && !s.moved && !s.requiresApproval
    requires !op.SetApproval? && ChangeOf(s.tables, false, op).Success?
    ensures r == Run(Initial(false), more) && !r.moved && !r.requiresApproval && r.tables == ChangeOf(s.tables, false, op).value.tables
  {
    more := RunThenStep(false, steps, s, op);
    r := Run(Initial(false), more);
  }

  lemma TwoTexts() returns (steps: seq<TxStep>, s: State)
    ensures s == Run(Initial(false), steps) && !s.moved && !s.requiresApproval
    ensures s.tables ==
      EMPTY.(versions := [Version(Icla, 1, false), Version(Ccla, 1, false)], currentIcla := Some(0), currentCcla := Some(1))
  {
    FirstIcla();
    steps, s := MoreWhole([], Initial(false), Publish(Icla, false, []));
    FirstCcla(s.tables);
    steps, s := MoreWhole(steps, s, Publish(Ccla, false, []));
  }

  lemma OneCompanyMember() returns (steps: seq<TxStep>, s: State)
    ensures s == Run(Initial(false), steps) && !s.moved && s.tables == CompanyTables(Version(Icla, 1, false))
  {
    steps, s := TwoTexts();
    steps, s := MoreWhole(steps, s, SignCcla(8, []));
    FirstMember(s.tables);
    steps, s := MoreWhole(steps, s, AddRoster(0, [RosterEntry([97], Some(7))]));
  }

  lemma FirstIcla()
    ensures PublishChange(EMPTY, Icla, false, []).tables == EMPTY.(versions := [Version(Icla, 1, false)], currentIcla := Some(0))
  {
    assert PublishChange(EMPTY, Icla, false, []).tables.versions == [Version(Icla, 1, false)];
  }

  lemma FirstCcla(t: Tables)
    requires t == EMPTY.(versions := [Version(Icla, 1, false)], currentIcla := Some(0))
    ensures PublishChange(t, Ccla, false, []).tables ==
      t.(versions := [Version(Icla, 1, false), Version(Ccla, 1, false)], currentCcla := Some(1))
  {
    assert t.versions[..0] == [] && MaxNumber(t.versions, Ccla) == 0;
    var stale := StaleIds(t.versions, Ccla, false, []);
    assert MarkResign(t.versions, stale) == t.versions;
    assert PublishChange(t, Ccla, false, []).tables.versions == [Version(Icla, 1, false), Version(Ccla, 1, false)];
  }

  lemma FirstMember(t: Tables)
    requires t.roster == [] && |t.corporates| == 1
    ensures AddRosterChange(t, 0, [RosterEntry([97], Some(7))]).Success?
    ensures AddRosterChange(t, 0, [RosterEntry([97], Some(7))]).value.tables == t.(roster := [Member(0, [97], Some(7), Listed)])
  {
    assert Lower(Trim([97])) == [97];
    AddOneEntry([], 0, RosterEntry([97], Some(7)));
  }

  lemma SecondIcla(t: Tables)
    requires t == CompanyTables(Version(Icla, 1, false))
    ensures MaxNumber(t.versions, Icla) == 1
    ensures var p := FinishPublish(t, Icla, 2, true, []);
      p.Success? &&
      p.value.tables == t.(versions := [Version(Icla, 1, true), Version(Ccla, 1, false), Version(Icla, 2, false)], currentIcla := Some(2))
  {
    assert t.versions[..1] == [t.versions[0]] && t.versions[..1][..0] == [] && MaxNumber(t.versions[..1], Icla) == 1;
    var stale := StaleIds(t.versions, Icla, true, []);
    assert 0 in stale && 1 !in stale;
    assert MarkResign(t.versions, stale) == [Version(Icla, 1, true), Version(Ccla, 1, false)];
  }

  lemma CompanyCoversMember(t: Tables)
    requires t.roster == [Member(0, [97], Some(7), Listed)] && t.corporates == [Corporate(1, 0, Effective)] && t.waivers == []
    requires t.signatures == [Signature(Ccla, 1, 8, [], true)] && |t.versions| >= 2 && !t.versions[1].resignRequired
    ensures Satisfied(t, 7, [97])
  {
    assert Lower([97]) == [97] && Covers(t, t.roster[0], 7, [97]);
    StatusDepartsFromRule(t, 7, [97]);
  }

  /** A member's signature on a text that was marked meanwhile: covered by the company before, by nothing after. */
  lemma LateSignatureUncovers() returns (steps: seq<TxStep>, before: State, after: State)
    ensures before == Run(Initial(false), steps) && after == Take(before, Write(SignVersion(7, [], 0)))
    ensures Satisfied(before.tables, 7, [97]) && !Satisfied(after.tables, 7, [97])
    ensures |after.tables.signatures| == |before.tables.signatures| + 1
  {
    steps, before := OneCompanyMember();
    var sign, publish := SignVersion(7, [], 0), PublishAs(Icla, 2, true, []);
    SecondIcla(before.tables);
    steps, before := RunMore(false, steps, before, Read(SignIcla(7, [])));
    assert sign in before.plans;
    steps, before := RunMore(false, steps, before, Read(Publish(Icla, true, [])));
    steps, before := RunMore(false, steps, before, Write(publish));
    CompanyCoversMember(before.tables);
    after := Take(before, Write(sign));
    MemberIsUncovered(after.tables);
  }

  lemma MemberIsUncovered(t: Tables)
    requires t.signatures == [Signature(Ccla, 1, 8, [], true), Signature(Icla, 0, 7, [], true)] && t.waivers == []
    requires |t.versions| >= 1 && t.versions[0].resignRequired
    ensures !Satisfied(t, 7, [97])
  {
    assert IsIclaOf(t.signatures[1], 7);
    assert !SignedValid(t, 7);
  }
}
