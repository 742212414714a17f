/**
 Replaying the ledger. Folding the events from an empty project rebuilds the tables; the one
 thing the ledger leaves out is whether a company needed approval when it signed, which is
 given here as `pending`.
 */
module Replay {
  import opened Wrappers
  import opened Cla
  import opened Runs

  function SetCorporate(t: Tables, id: nat, status: CorporateStatus): Option<Tables>
  {
    if id >= |t.corporates| then None
    else Some(t.(corporates := t.corporates[id := t.corporates[id].(status := status)]))
  }

  function SetMember(t: Tables, id: nat, status: MemberStatus): Option<Tables>
  {
    if id >= |t.roster| then None else Some(t.(roster := t.roster[id := t.roster[id].(status := status)]))
  }

  /** The tables after one event; `None` where the event names a row that cannot be. */
  function Apply(pending: nat -> bool, t: Tables, e: Event): Option<Tables>
  {
    match e
    case DocPublished(id, kind, number, resignIds) =>
      if id != |t.versions| then None
      else Some(WithCurrent(
        t.(versions := MarkResign(t.versions, resignIds) + [Version(kind, number, false)]), kind, id))
    case ResignSet(_, changes) => Some(t.(versions := ApplyResigns(t.versions, changes)))
    case IclaSigned(id, versionId, ghId, login) =>
      if id != |t.signatures| then None
      else Some(t.(signatures := t.signatures + [Signature(Icla, versionId, ghId, login, true)]))
    case CclaSigned(corporateId, id, versionId, ghId, login) =>
      if id != |t.signatures| || corporateId != |t.corporates| then None
      else
        var status := if pending(corporateId) then Pending else Effective;
        Some(t.(signatures := t.signatures + [Signature(Ccla, versionId, ghId, login, true)],
                corporates := t.corporates + [Corporate(versionId, id, status)]))
    case CclaApproved(id) => SetCorporate(t, id, Effective)
    case CclaRejected(id) => SetCorporate(t, id, Rejected)
    case CclaRevoked(id) => SetCorporate(t, id, Withdrawn)
    case RosterAdded(id, corporateId, login, ghId) =>
      if id != |t.roster| then None
      else Some(t.(roster := t.roster + [Member(corporateId, login, ghId, Listed)]))
    case RosterRevoked(id, _, _, _) => SetMember(t, id, Removed)
    case RosterDisputed(id, _, _, _) => SetMember(t, id, Disputed)
    case SignatureRevoked(id, _, _) =>
      if id >= |t.signatures| then None
      else Some(t.(signatures := t.signatures[id := t.signatures[id].(active := false)]))
    case WaiverGranted(id, login, ghId) =>
      if id != |t.waivers| then None else Some(t.(waivers := t.waivers + [Waiver(login, ghId, true)]))
    case WaiverRevoked(id, _, _) =>
      if id >= |t.waivers| then None
      else Some(t.(waivers := t.waivers[id := t.waivers[id].(active := false)]))
  }

  function ApplyAll(pending: nat -> bool, t: Tables, log: seq<Event>): Option<Tables>
  {
    if log == [] then Some(t)
    else
      match ApplyAll(pending, t, log[..|log| - 1])
      case None => None
      case Some(u) => Apply(pending, u, log[|log| - 1])
  }

  function ReplayLog(pending: nat -> bool, log: seq<Event>): Option<Tables> { ApplyAll(pending, EMPTY, log) }

  lemma {:induction false} ApplyAllConcat(pending: nat -> bool, t: Tables, a: seq<Event>, b: seq<Event>)
    requires ApplyAll(pending, t, a).Some?
    ensures ApplyAll(pending, t, a + b) == ApplyAll(pending, ApplyAll(pending, t, a).value, b)
    decreases |b|
  {
    if b == [] {
      assert a + b == a;
    } else {
      assert (a + b)[..|a + b| - 1] == a + b[..|b| - 1];
      ApplyAllConcat(pending, t, a, b[..|b| - 1]);
    }
  }

  lemma OneEvent(pending: nat -> bool, t: Tables, e: Event)
    ensures ApplyAll(pending, t, [e]) == Apply(pending, t, e)
  {
    assert [e][..0] == [];
  }

  lemma OneMoreEvent(pending: nat -> bool, t: Tables, events: seq<Event>, e: Event)
    requires ApplyAll(pending, t, events).Some?
    ensures ApplyAll(pending, t, events + [e]) == Apply(pending, ApplyAll(pending, t, events).value, e)
  {
    assert (events + [e])[..|events|] == events;
  }

  lemma {:induction false} RosterReplays(pending: nat -> bool, t: Tables, c: nat, entries: seq<RosterEntry>)
    ensures var (roster, events) := AddEntries(t.roster, c, entries);
      ApplyAll(pending, t, events) == Some(t.(roster := roster))
    decreases |entries|
  {
    if entries != [] {
      RosterReplays(pending, t, c, entries[..|entries| - 1]);
      var (before, events) := AddEntries(t.roster, c, entries[..|entries| - 1]);
      var added := AddEntry(before, c, entries[|entries| - 1]);
      if added.Some? {
        var m := added.value;
        OneMoreEvent(pending, t, events, RosterAdded(|before|, c, m.ghLogin, m.ghId));
      }
    }
  }

  lemma FirstEvent(pending: nat -> bool, t: Tables, e: Event, events: seq<Event>)
    requires Apply(pending, t, e).Some?
    ensures ApplyAll(pending, t, [e] + events) == ApplyAll(pending, Apply(pending, t, e).value, events)
  {
    OneEvent(pending, t, e);
    ApplyAllConcat(pending, t, [e], events);
  }

  lemma MembersReplay(pending: nat -> bool, t: Tables, c: nat, entries: seq<RosterEntry>)
    requires entries != []
    ensures var d := FinishRoster(t, c, entries); ApplyAll(pending, t, d.events) == Some(d.tables)
  {
    var m := Enlisted(c, entries[0]);
    var e := RosterAdded(|t.roster|, c, m.ghLogin, m.ghId);
    var u := t.(roster := t.roster + [m]);
    assert Apply(pending, t, e) == Some(u);
    RosterReplays(pending, u, c, entries[1..]);
    FirstEvent(pending, t, e, AddEntries(u.roster, c, entries[1..]).1);
  }

  lemma VersionsReplay(pending: nat -> bool, t: Tables, p: Plan)
    requires (p.PublishAs? || p.SetFlags?) && Finish(t, p).Success?
    ensures var c := Finish(t, p).value; ApplyAll(pending, t, c.events) == Some(c.tables)
  {
    var c := Finish(t, p).value;
    if c.events != [] {
      OneEvent(pending, t, c.events[0]);
    }
  }

  lemma InsertReplays(pending: nat -> bool, t: Tables, p: Plan)
    requires p.SignVersion? || p.SignCompany? || p.Waive?
    requires p.SignCompany? ==> pending(|t.corporates|) == p.pending
    ensures var c := Finish(t, p).value; ApplyAll(pending, t, c.events) == Some(c.tables)
  {
    OneEvent(pending, t, Finish(t, p).value.events[0]);
  }

  lemma StatusReplays(pending: nat -> bool, t: Tables, p: Plan)
    requires (p.DecideCompany? || p.CloseMember? || p.CloseSignature? || p.CloseWaiver?) && Finish(t, p).Success?
    ensures var c := Finish(t, p).value; ApplyAll(pending, t, c.events) == Some(c.tables)
  {
    OneEvent(pending, t, Finish(t, p).value.events[0]);
  }

  /** What a transaction records, applied to the tables it commits to, gives the tables it leaves, whatever it had read. */
  lemma FinishReplays(pending: nat -> bool, t: Tables, p: Plan)
    requires Ready(p) && Finish(t, p).Success?
    requires p.SignCompany? ==> pending(|t.corporates|) == p.pending
    ensures var c := Finish(t, p).value; ApplyAll(pending, t, c.events) == Some(c.tables)
  {
    match p
    case AddMembers(corporateId, entries) => MembersReplay(pending, t, corporateId, entries);
    case CheckRoster(_, _) =>
    case SetRequired(_) =>
    case _ =>
      if p.PublishAs? || p.SetFlags? {
        VersionsReplay(pending, t, p);
      } else if p.SignVersion? || p.SignCompany? || p.Waive? {
        InsertReplays(pending, t, p);
      } else {
        StatusReplays(pending, t, p);
      }
  }

  /** `pending` says of every company what the project required when it signed. */
  ghost predicate Remembers(pending: nat -> bool, s: State)
  {
    forall c: nat :: c < |s.startedPending| ==> pending(c) == s.startedPending[c]
  }

  /** Over every run the ledger, with those approval flags, rebuilds the tables whole. */
  lemma {:induction false} ReplayRebuilds(pending: nat -> bool, flag: bool, steps: seq<TxStep>)
    requires Remembers(pending, Run(Initial(flag), steps))
    ensures var s := Run(Initial(flag), steps);
      |s.startedPending| == |s.tables.corporates| && ReplayLog(pending, s.log) == Some(s.tables)
    decreases |steps|
  {
    if steps != [] {
      var step := steps[|steps| - 1];
      var s := Run(Initial(flag), steps[..|steps| - 1]);
      StepOnlyAdds(s, step);
      forall c: nat | c < |s.startedPending| ensures pending(c) == s.startedPending[c] {
        assert s.startedPending[c] == Run(Initial(flag), steps).startedPending[c];
      }
      ReplayRebuilds(pending, flag, steps[..|steps| - 1]);
      StepRebuilds(pending, s, step);
    }
  }

  lemma StepRebuilds(pending: nat -> bool, s: State, step: TxStep)
    requires |s.startedPending| == |s.tables.corporates| && ReplayLog(pending, s.log) == Some(s.tables)
    requires Remembers(pending, Take(s, step))
    ensures var r := Take(s, step);
      |r.startedPending| == |r.tables.corporates| && ReplayLog(pending, r.log) == Some(r.tables)
  {
    if step.Write? && step.plan in s.plans && Ready(step.plan) && Written(s, step.plan).Success? {
      var p, r := step.plan, Take(s, step);
      CompaniesAdded(s.tables, p);
      if p.SignCompany? {
        assert r.startedPending[|s.startedPending|] == p.pending;
      }
      FinishReplays(pending, s.tables, p);
      ApplyAllConcat(pending, EMPTY, s.log, Finish(s.tables, p).value.events);
    }
  }

  /** The ledger and the approval history are append-only. */
  lemma StepOnlyAdds(s: State, step: TxStep)
    ensures s.log <= Take(s, step).log && s.startedPending <= Take(s, step).startedPending
  {
  }

  // ---- exactly when one fixed approval flag is enough ----

  /** A company has been approved, rejected or revoked on the ledger. */
  predicate DecidedIn(log: seq<Event>, corporateId: nat)
  {
    exists i :: 0 <= i < |log| && DecidesOn(log[i], corporateId)
  }

  predicate DecidesOn(e: Event, corporateId: nat)
  {
    (e.CclaApproved? || e.CclaRejected? || e.CclaRevoked?) && e.corporateId == corporateId
  }

  /** Two replays differ at most in the status of companies no later event decided. */
  ghost predicate DifferOnlyInStart(p: nat -> bool, q: nat -> bool, log: seq<Event>, t: Tables, u: Tables)
  {
    u.(corporates := t.corporates) == t && |u.corporates| == |t.corporates| &&
    forall c: nat :: c < |t.corporates| ==>
      u.corporates[c].(status := t.corporates[c].status) == t.corporates[c] &&
      (u.corporates[c].status == t.corporates[c].status <==> p(c) == q(c) || DecidedIn(log, c))
  }

  /** Nothing on the ledger decides about a company that has not signed. */
  ghost predicate DecidesKnown(log: seq<Event>, t: Tables)
  {
    forall c: nat :: DecidedIn(log, c) ==> c < |t.corporates|
  }

  lemma DecidedGrows(log: seq<Event>, e: Event, c: nat)
    ensures DecidedIn(log + [e], c) <==> DecidedIn(log, c) || DecidesOn(e, c)
  {
    var l := log + [e];
    if DecidedIn(log, c) {
      var i :| 0 <= i < |log| && DecidesOn(log[i], c);
      assert DecidesOn(l[i], c);
    }
    assert l[|log|] == e;
  }

  lemma {:induction false} TwoReplays(p: nat -> bool, q: nat -> bool, log: seq<Event>)
    requires ReplayLog(p, log).Some?
    ensures ReplayLog(q, log).Some?
    ensures DifferOnlyInStart(p, q, log, ReplayLog(p, log).value, ReplayLog(q, log).value)
    ensures DecidesKnown(log, ReplayLog(p, log).value)
    decreases |log|
  {
    if log != [] {
      var init, e := log[..|log| - 1], log[|log| - 1];
      TwoReplays(p, q, init);
      assert log == init + [e];
      StepOfTwoReplays(p, q, init, e, ReplayLog(p, init).value, ReplayLog(q, init).value);
    }
  }

  lemma StepOfTwoReplays(p: nat -> bool, q: nat -> bool, log: seq<Event>, e: Event, t: Tables, u: Tables)
    requires DifferOnlyInStart(p, q, log, t, u) && DecidesKnown(log, t) && Apply(p, t, e).Some?
    ensures Apply(q, u, e).Some?
    ensures DifferOnlyInStart(p, q, log + [e], Apply(p, t, e).value, Apply(q, u, e).value)
    ensures DecidesKnown(log + [e], Apply(p, t, e).value)
  {
    forall c: nat ensures DecidedIn(log + [e], c) <==> DecidedIn(log, c) || DecidesOn(e, c) {
      DecidedGrows(log, e, c);
    }
  }

  /**
   With one flag for every company the replay is right exactly when each company signed while
   the project's setting was that flag, or was decided on since.
   */
  lemma FixedFlagReplay(flag: bool, start: bool, steps: seq<TxStep>)
    ensures var s := Run(Initial(start), steps);
      |s.startedPending| == |s.tables.corporates| &&
      (ReplayLog((c: nat) => flag, s.log) == Some(s.tables) <==>
        forall c: nat :: c < |s.tables.corporates| ==> s.startedPending[c] == flag || DecidedIn(s.log, c))
  {
    var s := Run(Initial(start), steps);
    var p := (c: nat) => c < |s.startedPending| && s.startedPending[c];
    var q := (c: nat) => flag;
    ReplayRebuilds(p, start, steps);
    TwoReplays(p, q, s.log);
    var u := ReplayLog(q, s.log).value;
    if forall c: nat :: c < |s.tables.corporates| ==> s.startedPending[c] == flag || DecidedIn(s.log, c) {
      assert forall c: nat :: c < |s.tables.corporates| ==> u.corporates[c] == s.tables.corporates[c];
      assert u == s.tables;
    }
  }

  /** No transaction of the run changes the setting. */
  ghost predicate KeepsSetting(steps: seq<TxStep>)
  {
    forall i :: 0 <= i < |steps| ==> !ChangesSetting(steps[i])
  }

  predicate ChangesSetting(step: TxStep) { step.Read? && step.op.SetApproval? }

  /** Every company signed, and every open signing read, while the setting was `flag`. */
  ghost predicate SignedUnder(flag: bool, s: State)
  {
    s.requiresApproval == flag && (forall c :: 0 <= c < |s.startedPending| ==> s.startedPending[c] == flag) &&
    (forall p :: p in s.plans ==> !p.SetRequired? && (p.SignCompany? ==> p.pending == flag))
  }

  lemma StepSignsUnder(flag: bool, s: State, step: TxStep)
    requires SignedUnder(flag, s) && !ChangesSetting(step)
    ensures SignedUnder(flag, Take(s, step))
  {
    if step.Write? && step.plan in s.plans && Ready(step.plan) && Written(s, step.plan).Success? {
      CompaniesAdded(s.tables, step.plan);
    }
  }

  lemma {:induction false} UnchangedSettingIsRemembered(flag: bool, steps: seq<TxStep>)
    requires KeepsSetting(steps)
    ensures SignedUnder(flag, Run(Initial(flag), steps))
    decreases |steps|
  {
    if steps != [] {
      var init := steps[..|steps| - 1];
      forall i | 0 <= i < |init| ensures !ChangesSetting(init[i]) {
        assert init[i] == steps[i];
      }
      UnchangedSettingIsRemembered(flag, init);
      StepSignsUnder(flag, Run(Initial(flag), init), steps[|steps| - 1]);
    }
  }

  /** The setting held fixed, the ledger alone rebuilds the tables. */
  lemma ReplayWithFixedSetting(flag: bool, steps: seq<TxStep>)
    requires KeepsSetting(steps)
    ensures var s := Run(Initial(flag), steps); ReplayLog((c: nat) => flag, s.log) == Some(s.tables)
  {
    UnchangedSettingIsRemembered(flag, steps);
    FixedFlagReplay(flag, flag, steps);
  }

  /** A project with one published corporate text and one company that signed it, in effect at once. */
  lemma OneCompany() returns (steps: seq<TxStep>, s: State)
    ensures Run(Initial(true), steps).(plans := {}) == s.(plans := {})
    ensures !s.requiresApproval && s.startedPending == [false] && s.tables.corporates == [Corporate(0, 0, Effective)]
    ensures forall i :: 0 <= i < |s.log| ==> s.log[i].DocPublished? || s.log[i].CclaSigned?
  {
    steps := RunThenStep(true, [], Initial(true), SetApproval(false));
    var s1 := Initial(false);
    steps := RunThenStep(true, steps, s1, Publish(Ccla, false, []));
    var s2 := Step(s1, Publish(Ccla, false, []));
    assert |s2.tables.versions| == 1 && s2.tables.versions[0].kind == Ccla && s2.tables.currentCcla == Some(0);
    assert s2.tables.corporates == [] && s2.startedPending == [] && !s2.moved && !s2.requiresApproval;
    assert |s2.log| == 1 && s2.log[0].DocPublished?;
    steps := RunThenStep(true, steps, s2, SignCcla(1, []));
    s := Step(s2, SignCcla(1, []));
  }

  lemma UndecidedMisleads(steps: seq<TxStep>, s: State)
    requires s == Run(Initial(true), steps)
    requires s.requiresApproval && s.startedPending == [false]
    requires forall i :: 0 <= i < |s.log| ==> s.log[i].DocPublished? || s.log[i].CclaSigned?
    ensures ReplayLog((c: nat) => s.requiresApproval, s.log) != Some(s.tables)
  {
    FixedFlagReplay(true, true, steps);
    assert !DecidedIn(s.log, 0);
    assert s.startedPending[0] == false;
  }

  /** The setting changed between a company's signing and now: the replay takes it for waiting. */
  lemma ChangedSettingMisleadsReplay() returns (steps: seq<TxStep>, s: State)
    ensures s == Run(Initial(true), steps)
    ensures s.requiresApproval && s.tables.corporates == [Corporate(0, 0, Effective)]
    ensures ReplayLog((c: nat) => s.requiresApproval, s.log) != Some(s.tables)
  {
    var before;
    steps, before := OneCompany();
    steps := RunThenStep(true, steps, before, SetApproval(true));
    s := Run(Initial(true), steps);
    UndecidedMisleads(steps, s);
  }
}
