/**
 A project's state and its runs. Transactions overlap: each reads first, what it read decides
 what it will write, and other transactions may commit before it holds the project's row.
 Holding the row starts with the first row inserted or the first entry appended, whichever
 comes first, and lasts until the commit, so all that follows is one step.
 */
module Runs {
  import opened Wrappers
  import opened Text
  import opened Cla

  // ---- what a transaction has read ----

  datatype Decision = Approves | Rejects | Withdraws

  /** What is left to do of a transaction that has read and not yet written. */
  datatype Plan =
    | PublishAs(kind: DocKind, number: nat, requireResign: bool, resignIds: seq<nat>)
    | SetFlags(kind: DocKind, changes: seq<ResignChange>)
    | SignVersion(ghId: int, ghLogin: Text, versionId: nat)
    | SignCompany(ghId: int, ghLogin: Text, versionId: nat, pending: bool)
    | DecideCompany(corporateId: nat, decision: Decision)
    | CheckRoster(corporateId: nat, entries: seq<RosterEntry>)
    | AddMembers(corporateId: nat, entries: seq<RosterEntry>)
    | CloseMember(memberId: nat, disputes: bool)
    | CloseSignature(signatureId: nat)
    | Waive(ghLogin: Text, waived: Option<int>)
    | CloseWaiver(waiverId: nat)
    | SetRequired(required: bool)

  /** The version somebody signing now signs. */
  function VersionToSign(t: Tables, kind: DocKind): Result<nat, ClaError>
  {
    match CurrentOf(t, kind)
    case None => Failure(NoVersionPublished)
    case Some(v) => if v >= |t.versions| || t.versions[v].kind != kind then Failure(InvalidVersion) else Success(v)
  }

  function PlanFlags(t: Tables, resigns: seq<(nat, bool)>): Result<Plan, ClaError>
  {
    var wanted := WantedFlags(resigns);
    if exists i :: i in wanted && i >= |t.versions| then Failure(UnknownVersion)
    else if exists i, j :: i in wanted && j in wanted && t.versions[i].kind != t.versions[j].kind then Failure(MixedKinds)
    else if exists i :: i in wanted && wanted[i] && CurrentOf(t, t.versions[i].kind) == Some(i) then Failure(CurrentVersion)
    else
      var ids := FlippedIds(t.versions, wanted);
      if ids == [] then Success(SetFlags(Icla, []))
      else
        assert ids[0] in ids;
        Success(SetFlags(t.versions[ids[0]].kind, ResignChanges(t.versions, wanted, ids)))
  }

  function PlanDecision(t: Tables, id: nat, from: CorporateStatus, decision: Decision): Result<Plan, ClaError>
  {
    if id >= |t.corporates| then Failure(NotFound)
    else if t.corporates[id].status != from then Failure(WrongStatus)
    else Success(DecideCompany(id, decision))
  }

  function PlanMember(t: Tables, id: nat, disputes: bool): Result<Plan, ClaError>
  {
    if id >= |t.roster| then Failure(NotFound)
    else if t.roster[id].status == ClosedAs(disputes) then Failure(WrongStatus)
    else Success(CloseMember(id, disputes))
  }

  /** What a transaction makes of the rows it reads first, or why it stops there. */
  function PlanOf(t: Tables, required: bool, op: Op): Result<Plan, ClaError>
  {
    match op
    case Publish(kind, requireResign, ids) => Success(PublishAs(kind, MaxNumber(t.versions, kind) + 1, requireResign, ids))
    case SetResign(resigns) => PlanFlags(t, resigns)
    case SignIcla(ghId, ghLogin) =>
      (match VersionToSign(t, Icla)
       case Failure(e) => Failure(e)
       case Success(v) => Success(SignVersion(ghId, ghLogin, v)))
    case SignCcla(ghId, ghLogin) =>
      (match VersionToSign(t, Ccla)
       case Failure(e) => Failure(e)
       case Success(v) => Success(SignCompany(ghId, ghLogin, v, required)))
    case ApproveCorporate(c) => PlanDecision(t, c, Pending, Approves)
    case RejectCorporate(c) => PlanDecision(t, c, Pending, Rejects)
    case RevokeCorporate(c) => PlanDecision(t, c, Effective, Withdraws)
    case AddRoster(c, entries) => if c >= |t.corporates| then Failure(NotFound) else Success(CheckRoster(c, entries))
    case RevokeMember(m) => PlanMember(t, m, false)
    case DisputeMember(m) => PlanMember(t, m, true)
    case RevokeSignature(s) =>
      if s >= |t.signatures| then Failure(NotFound)
      else if !t.signatures[s].active then Failure(WrongStatus)
      else Success(CloseSignature(s))
    case GrantWaiver(login, ghId) => Success(Waive(Lower(Trim(login)), ghId))
    case RevokeWaiver(w) =>
      if w >= |t.waivers| then Failure(NotFound)
      else if !t.waivers[w].active then Failure(WrongStatus)
      else Success(CloseWaiver(w))
    case SetApproval(b) => Success(SetRequired(b))
  }

  /** One more read: whether the roster disputes the next entry. */
  function ReadMore(t: Tables, p: Plan): Plan
  {
    if p.CheckRoster? && p.entries != [] then
      if AddEntry(t.roster, p.corporateId, p.entries[0]).None? then CheckRoster(p.corporateId, p.entries[1..])
      else AddMembers(p.corporateId, p.entries)
    else p
  }

  /** It has read all it needs. */
  predicate Ready(p: Plan)
  {
    (p.CheckRoster? ==> p.entries == []) && (p.AddMembers? ==> p.entries != [])
  }

  // ---- what it then writes, whatever was committed since ----

  function Decided(decision: Decision): CorporateStatus
  {
    match decision case Approves => Effective case Rejects => Rejected case Withdraws => Withdrawn
  }

  function DecisionEvent(id: nat, decision: Decision): Event
  {
    match decision case Approves => CclaApproved(id) case Rejects => CclaRejected(id) case Withdraws => CclaRevoked(id)
  }

  function ClosedAs(disputes: bool): MemberStatus { if disputes then Disputed else Removed }

  function MemberEvent(id: nat, m: Member, disputes: bool): Event
  {
    if disputes then RosterDisputed(id, m.corporateId, m.ghLogin, m.ghId) else RosterRevoked(id, m.corporateId, m.ghLogin, m.ghId)
  }

  /** The version's number is unique within its kind. */
  predicate NumberIsTaken(versions: seq<Version>, kind: DocKind, number: nat)
  {
    exists i :: 0 <= i < |versions| && versions[i].kind == kind && versions[i].number == number
  }

  function FinishPublish(t: Tables, kind: DocKind, number: nat, requireResign: bool, resignIds: seq<nat>): Attempt
  {
    if NumberIsTaken(t.versions, kind, number) then Failure(NumberTaken)
    else
      var stale := StaleIds(t.versions, kind, requireResign, resignIds);
      var versions := MarkResign(t.versions, stale) + [Version(kind, number, false)];
      Success(Change(WithCurrent(t.(versions := versions), kind, |t.versions|), [DocPublished(|t.versions|, kind, number, stale)]))
  }

  function FinishFlags(t: Tables, kind: DocKind, changes: seq<ResignChange>): Change
  {
    if changes == [] then Change(t, [])
    else Change(t.(versions := ApplyResigns(t.versions, changes)), [ResignSet(kind, changes)])
  }

  function Enlisted(corporateId: nat, e: RosterEntry): Member
  {
    Member(corporateId, Lower(Trim(e.ghLogin)), e.ghId, Listed)
  }

  /** The first entry was found undisputed before; the others are looked up now. */
  function FinishRoster(t: Tables, corporateId: nat, entries: seq<RosterEntry>): Change
    requires entries != []
  {
    var m := Enlisted(corporateId, entries[0]);
    var (roster, events) := AddEntries(t.roster + [m], corporateId, entries[1..]);
    Change(t.(roster := roster), [RosterAdded(|t.roster|, corporateId, m.ghLogin, m.ghId)] + events)
  }

  function FinishDecision(t: Tables, id: nat, decision: Decision): Attempt
  {
    if id >= |t.corporates| then Failure(NotFound)
    else Success(Change(
      t.(corporates := t.corporates[id := t.corporates[id].(status := Decided(decision))]), [DecisionEvent(id, decision)]))
  }

  function FinishMember(t: Tables, id: nat, disputes: bool): Attempt
  {
    if id >= |t.roster| then Failure(NotFound)
    else
      var m := t.roster[id];
      Success(Change(t.(roster := t.roster[id := m.(status := ClosedAs(disputes))]), [MemberEvent(id, m, disputes)]))
  }

  function FinishSignature(t: Tables, id: nat): Attempt
  {
    if id >= |t.signatures| then Failure(NotFound)
    else
      var s := t.signatures[id];
      Success(Change(t.(signatures := t.signatures[id := s.(active := false)]), [SignatureRevoked(id, s.ghId, s.ghLogin)]))
  }

  function FinishWaiver(t: Tables, id: nat): Attempt
  {
    if id >= |t.waivers| then Failure(NotFound)
    else
      var w := t.waivers[id];
      Success(Change(t.(waivers := t.waivers[id := w.(active := false)]), [WaiverRevoked(id, w.ghLogin, w.ghId)]))
  }

  /** The rest of the transaction on the tables as they are now. */
  function Finish(t: Tables, p: Plan): Attempt
    requires Ready(p)
  {
    match p
    case PublishAs(kind, number, requireResign, ids) => FinishPublish(t, kind, number, requireResign, ids)
    case SetFlags(kind, changes) => Success(FinishFlags(t, kind, changes))
    case SignVersion(ghId, ghLogin, v) =>
      Success(Change(t.(signatures := t.signatures + [Signature(Icla, v, ghId, ghLogin, true)]),
                     [IclaSigned(|t.signatures|, v, ghId, ghLogin)]))
    case SignCompany(ghId, ghLogin, v, pending) =>
      Success(Change(t.(signatures := t.signatures + [Signature(Ccla, v, ghId, ghLogin, true)],
                        corporates := t.corporates + [Corporate(v, |t.signatures|, if pending then Pending else Effective)]),
                     [CclaSigned(|t.corporates|, |t.signatures|, v, ghId, ghLogin)]))
    case DecideCompany(id, decision) => FinishDecision(t, id, decision)
    case CheckRoster(_, _) => Success(Change(t, []))
    case AddMembers(corporateId, entries) => Success(FinishRoster(t, corporateId, entries))
    case CloseMember(id, disputes) => FinishMember(t, id, disputes)
    case CloseSignature(id) => FinishSignature(t, id)
    case Waive(login, ghId) =>
      Success(Change(t.(waivers := t.waivers + [Waiver(login, ghId, true)]), [WaiverGranted(|t.waivers|, login, ghId)]))
    case CloseWaiver(id) => FinishWaiver(t, id)
    case SetRequired(_) => Success(Change(t, []))
  }

  // ---- a project's state and its runs ----

  /**
   `moved` is set when the records are in Legal. `startedPending` remembers, for each company,
   whether approval was required when its signing read the setting; the ledger does not record it.
   `plans` are those of the transactions that have read; any number of them may have read the same.
   */
  datatype State = State(
    tables: Tables, log: seq<Event>, moved: bool, requiresApproval: bool, startedPending: seq<bool>, plans: set<Plan>)

  function Initial(requiresApproval: bool): State { State(EMPTY, [], false, requiresApproval, [], {}) }

  /** A transaction that appends to the ledger of a moved project is refused whole. */
  function Commit(s: State, c: Change, required: bool): Result<State, ClaError>
  {
    if c.events != [] && s.moved then Failure(InLegal)
    else Success(s.(
      tables := c.tables, log := s.log + c.events,
      startedPending := s.startedPending + if |c.tables.corporates| > |s.tables.corporates| then [required] else []))
  }

  /** One step of a run: a transaction reads first, reads on, or does the rest and commits. Failing, or never going on, is no step. */
  datatype TxStep = Read(op: Op) | ReadOn(plan: Plan) | Write(plan: Plan)

  function Written(s: State, p: Plan): Result<State, ClaError>
    requires Ready(p)
  {
    match Finish(s.tables, p)
    case Failure(e) => Failure(e)
    case Success(c) =>
      match Commit(s, c, p.SignCompany? && p.pending)
      case Failure(e) => Failure(e)
      case Success(s') => Success(if p.SetRequired? then s'.(requiresApproval := p.required) else s')
  }

  function Take(s: State, step: TxStep): State
  {
    match step
    case Read(op) =>
      (match PlanOf(s.tables, s.requiresApproval, op) case Success(p) => s.(plans := s.plans + {p}) case Failure(_) => s)
    case ReadOn(p) => if p in s.plans then s.(plans := s.plans + {ReadMore(s.tables, p)}) else s
    case Write(p) =>
      if p in s.plans && Ready(p) then (match Written(s, p) case Success(s') => s' case Failure(_) => s) else s
  }

  function Run(s: State, steps: seq<TxStep>): State
  {
    if steps == [] then s else Take(Run(s, steps[..|steps| - 1]), steps[|steps| - 1])
  }

  lemma RunAppend(s: State, steps: seq<TxStep>, step: TxStep)
    ensures Run(s, steps + [step]) == Take(Run(s, steps), step)
  {
    assert (steps + [step])[..|steps|] == steps;
  }

  lemma {:induction false} RunConcat(s: State, a: seq<TxStep>, b: seq<TxStep>)
    ensures Run(s, a + b) == Run(Run(s, a), b)
    decreases |b|
  {
    if b == [] {
      assert a + b == a;
    } else {
      assert (a + b)[..|a + b| - 1] == a + b[..|b| - 1];
      RunConcat(s, a, b[..|b| - 1]);
    }
  }

  // ---- a transaction nothing overlaps ----

  function Attempted(s: State, op: Op): Result<State, ClaError>
  {
    match ChangeOf(s.tables, s.requiresApproval, op)
    case Failure(e) => Failure(e)
    case Success(c) =>
      match Commit(s, c, s.requiresApproval)
      case Failure(e) => Failure(e)
      case Success(s') => Success(if op.SetApproval? then s'.(requiresApproval := op.required) else s')
  }

  /** What the database holds after the call: a refused or failed one rolled back. */
  function Step(s: State, op: Op): State
  {
    match Attempted(s, op) case Success(s') => s' case Failure(_) => s
  }

  /** All the reads at once. */
  function ReadAll(t: Tables, p: Plan): (r: Plan)
    requires p.AddMembers? ==> p.entries != []
    ensures Ready(r) && if p.CheckRoster? then r.CheckRoster? || r.AddMembers? else r == p
    decreases if p.CheckRoster? then |p.entries| else 0
  {
    if p.CheckRoster? && p.entries != [] then
      var q := ReadMore(t, p);
      if q.CheckRoster? then ReadAll(t, q) else q
    else p
  }

  lemma {:induction false} MaxIsAbove(versions: seq<Version>, kind: DocKind)
    ensures forall i :: 0 <= i < |versions| && versions[i].kind == kind ==> versions[i].number <= MaxNumber(versions, kind)
    decreases |versions|
  {
    if versions != [] {
      MaxIsAbove(versions[..|versions| - 1], kind);
    }
  }

  lemma {:induction false} AddEntriesConcat(roster: seq<Member>, c: nat, a: seq<RosterEntry>, b: seq<RosterEntry>)
    ensures var (r, events) := AddEntries(roster, c, a); var (r', more) := AddEntries(r, c, b);
      AddEntries(roster, c, a + b) == (r', events + more)
    decreases |b|
  {
    var (r, events) := AddEntries(roster, c, a);
    if b == [] {
      assert a + b == a && events + [] == events;
    } else {
      assert (a + b)[..|a + b| - 1] == a + b[..|b| - 1];
      AddEntriesConcat(roster, c, a, b[..|b| - 1]);
      var (before, more) := AddEntries(r, c, b[..|b| - 1]);
      var added := AddEntry(before, c, b[|b| - 1]);
      if added.Some? {
        Assoc(events, more, [RosterAdded(|before|, c, added.value.ghLogin, added.value.ghId)]);
      }
    }
  }

  lemma AddOneEntry(roster: seq<Member>, c: nat, e: RosterEntry)
    ensures AddEntry(roster, c, e).None? ==> AddEntries(roster, c, [e]) == (roster, [])
    ensures AddEntry(roster, c, e).Some? ==>
      var m := Enlisted(c, e); AddEntries(roster, c, [e]) == (roster + [m], [RosterAdded(|roster|, c, m.ghLogin, m.ghId)])
  {
    var (before, events) := AddEntries(roster, c, [e][..0]);
    assert [e][..0] == [] && before == roster && events == [];
    if AddEntry(roster, c, e).Some? {
      var m := AddEntry(roster, c, e).value;
      assert m == Enlisted(c, e);
      assert [] + [RosterAdded(|roster|, c, m.ghLogin, m.ghId)] == [RosterAdded(|roster|, c, m.ghLogin, m.ghId)];
    }
  }

  lemma AddEntriesFirst(roster: seq<Member>, c: nat, entries: seq<RosterEntry>)
    requires entries != []
    ensures AddEntry(roster, c, entries[0]).None? ==> AddEntries(roster, c, entries) == AddEntries(roster, c, entries[1..])
    ensures AddEntry(roster, c, entries[0]).Some? ==>
      var m := Enlisted(c, entries[0]); var (r, more) := AddEntries(roster + [m], c, entries[1..]);
      AddEntries(roster, c, entries) == (r, [RosterAdded(|roster|, c, m.ghLogin, m.ghId)] + more)
  {
    var e, rest := entries[0], entries[1..];
    AddOneEntry(roster, c, e);
    AddEntriesConcat(roster, c, [e], rest);
    assert [e] + rest == entries;
    if AddEntry(roster, c, e).None? {
      var (_, more) := AddEntries(roster, c, rest);
      assert [] + more == more;
    }
  }

  lemma {:induction false} RosterAtOnce(t: Tables, c: nat, entries: seq<RosterEntry>)
    requires c < |t.corporates|
    ensures Finish(t, ReadAll(t, CheckRoster(c, entries))) == AddRosterChange(t, c, entries)
    decreases |entries|
  {
    if entries != [] {
      AddEntriesFirst(t.roster, c, entries);
      if AddEntry(t.roster, c, entries[0]).None? {
        RosterAtOnce(t, c, entries[1..]);
      }
    }
  }

  lemma {:induction false} ResignsAre(versions: seq<Version>, wanted: map<nat, bool>, ids: seq<nat>)
    requires forall i :: i in ids ==> i < |versions| && i in wanted
    ensures var r := ApplyResigns(versions, ResignChanges(versions, wanted, ids));
      forall i :: 0 <= i < |versions| ==>
        r[i] == if i in ids then versions[i].(resignRequired := wanted[i]) else versions[i]
    decreases |ids|
  {
    if ids != [] {
      var init := ids[..|ids| - 1];
      assert ids == init + [ids[|ids| - 1]];
      forall i | i in init ensures i < |versions| && i in wanted {
        assert i in ids;
      }
      ResignsAre(versions, wanted, init);
      assert ids[|ids| - 1] in ids;
      assert ResignChanges(versions, wanted, ids)[..|ids| - 1] == ResignChanges(versions, wanted, init);
    }
  }

  /** Applying the recorded changes sets every flag as asked. */
  lemma ResignsApplyFlags(versions: seq<Version>, wanted: map<nat, bool>)
    ensures var ids := FlippedIds(versions, wanted);
      ApplyResigns(versions, ResignChanges(versions, wanted, ids)) == ApplyFlags(versions, wanted)
  {
    var ids := FlippedIds(versions, wanted);
    ResignsAre(versions, wanted, ids);
    var r := ApplyResigns(versions, ResignChanges(versions, wanted, ids));
    forall i | 0 <= i < |versions| ensures r[i] == ApplyFlags(versions, wanted)[i] {
      if i !in ids && i in wanted {
        assert wanted[i] == versions[i].resignRequired;
      }
    }
  }

  /** A transaction that reads and writes with nothing in between. */
  function AtOnce(t: Tables, required: bool, op: Op): Attempt
  {
    match PlanOf(t, required, op) case Failure(e) => Failure(e) case Success(p) => Finish(t, ReadAll(t, p))
  }

  lemma FinishIsPublish(t: Tables, kind: DocKind, requireResign: bool, ids: seq<nat>)
    requires !NumberIsTaken(t.versions, kind, MaxNumber(t.versions, kind) + 1)
    ensures FinishPublish(t, kind, MaxNumber(t.versions, kind) + 1, requireResign, ids) ==
      Success(PublishChange(t, kind, requireResign, ids))
  {
  }

  lemma PublishAtOnce(t: Tables, kind: DocKind, requireResign: bool, ids: seq<nat>)
    ensures FinishPublish(t, kind, MaxNumber(t.versions, kind) + 1, requireResign, ids) ==
      Success(PublishChange(t, kind, requireResign, ids))
  {
    MaxIsAbove(t.versions, kind);
    FinishIsPublish(t, kind, requireResign, ids);
  }

  lemma FlagsAtOnce(t: Tables, resigns: seq<(nat, bool)>)
    ensures AtOnce(t, true, SetResign(resigns)) == SetResignChange(t, resigns) == AtOnce(t, false, SetResign(resigns))
  {
    ResignsApplyFlags(t.versions, WantedFlags(resigns));
  }

  /** It makes the change `ChangeOf` gives, or fails as it does. */
  lemma ChangeAtOnce(t: Tables, required: bool, op: Op)
    ensures AtOnce(t, required, op) == ChangeOf(t, required, op)
  {
    match op
    case Publish(kind, requireResign, ids) => PublishAtOnce(t, kind, requireResign, ids);
    case AddRoster(c, entries) => if c < |t.corporates| { RosterAtOnce(t, c, entries); }
    case SetResign(resigns) => FlagsAtOnce(t, resigns);
    case _ => RowAtOnce(t, required, op);
  }

  lemma RowAtOnce(t: Tables, required: bool, op: Op)
    requires !op.Publish? && !op.AddRoster? && !op.SetResign?
    ensures AtOnce(t, required, op) == ChangeOf(t, required, op)
  {
  }

  lemma {:induction false} ReadsOn(s: State, p: Plan) returns (steps: seq<TxStep>)
    requires p in s.plans && (p.AddMembers? ==> p.entries != [])
    ensures var r := Run(s, steps); ReadAll(s.tables, p) in r.plans && r.(plans := {}) == s.(plans := {})
    decreases if p.CheckRoster? then |p.entries| else 0
  {
    if p.CheckRoster? && p.entries != [] {
      var q := ReadMore(s.tables, p);
      var next := Take(s, ReadOn(p));
      RunOne(s, ReadOn(p));
      if q.CheckRoster? {
        var rest := ReadsOn(next, q);
        RunConcat(s, [ReadOn(p)], rest);
        steps := [ReadOn(p)] + rest;
      } else {
        steps := [ReadOn(p)];
      }
    } else {
      steps := [];
    }
  }

  /** Only a company's signing adds a company. */
  lemma CompaniesAdded(t: Tables, p: Plan)
    requires Ready(p) && Finish(t, p).Success?
    ensures |Finish(t, p).value.tables.corporates| == |t.corporates| + if p.SignCompany? then 1 else 0
  {
  }

  lemma WrittenAtOnce(s: State, op: Op)
    requires Attempted(s, op).Success?
    ensures PlanOf(s.tables, s.requiresApproval, op).Success?
    ensures Written(s, ReadAll(s.tables, PlanOf(s.tables, s.requiresApproval, op).value)) == Attempted(s, op)
  {
    ChangeAtOnce(s.tables, s.requiresApproval, op);
    CompaniesAdded(s.tables, ReadAll(s.tables, PlanOf(s.tables, s.requiresApproval, op).value));
  }

  lemma WrittenElsewhere(s: State, r: State, p: Plan)
    requires Ready(p) && r.(plans := {}) == s.(plans := {}) && Written(s, p).Success?
    ensures Written(r, p).Success? && Written(r, p).value.(plans := {}) == Written(s, p).value.(plans := {})
  {
  }

  /** Read and written in two steps. */
  lemma StepInTwo(s: State, op: Op)
    requires Attempted(s, op).Success? && !op.AddRoster?
    ensures PlanOf(s.tables, s.requiresApproval, op).Success?
    ensures var p := PlanOf(s.tables, s.requiresApproval, op).value; var r := Take(s, Read(op));
      Take(r, Write(p)).(plans := {}) == Step(s, op).(plans := {})
  {
    WrittenAtOnce(s, op);
    WrittenElsewhere(s, Take(s, Read(op)), PlanOf(s.tables, s.requiresApproval, op).value);
  }

  lemma RunOne(s: State, step: TxStep)
    ensures Run(s, [step]) == Take(s, step)
  {
    assert [step][..0] == [];
  }

  /** Such a transaction is a run of the steps. */
  lemma StepIsRun(s: State, op: Op) returns (steps: seq<TxStep>)
    ensures Run(s, steps).(plans := {}) == Step(s, op).(plans := {})
  {
    steps := [];
    if Attempted(s, op).Success? {
      WrittenAtOnce(s, op);
      var p := PlanOf(s.tables, s.requiresApproval, op).value;
      var q := ReadAll(s.tables, p);
      var read := Take(s, Read(op));
      RunOne(s, Read(op));
      var more := ReadsOn(read, p);
      var ready := Run(read, more);
      RunConcat(s, [Read(op)], more);
      RunAppend(s, [Read(op)] + more, Write(q));
      WrittenElsewhere(s, ready, q);
      steps := [Read(op)] + more + [Write(q)];
    }
  }

  lemma StepIgnoresPlans(s: State, r: State, op: Op)
    requires r.(plans := {}) == s.(plans := {})
    ensures Step(r, op).(plans := {}) == Step(s, op).(plans := {})
  {
  }

  /** A run, and then a transaction nothing overlaps. */
  lemma RunThenStep(flag: bool, steps: seq<TxStep>, s: State, op: Op) returns (more: seq<TxStep>)
    requires Run(Initial(flag), steps).(plans := {}) == s.(plans := {})
    ensures Run(Initial(flag), more).(plans := {}) == Step(s, op).(plans := {})
  {
    var r := Run(Initial(flag), steps);
    var rest := StepIsRun(r, op);
    RunConcat(Initial(flag), steps, rest);
    StepIgnoresPlans(s, r, op);
    more := steps + rest;
  }

  // ---- what every run keeps ----

  /** The numbers of a kind leave no gap. */
  lemma {:induction false} NumbersAreTaken(versions: seq<Version>, kind: DocKind, number: nat)
    requires Numbered(versions) && 1 <= number <= CountKind(versions, kind)
    ensures NumberIsTaken(versions, kind, number)
    decreases |versions|
  {
    var init, last := versions[..|versions| - 1], versions[|versions| - 1];
    assert versions[..|versions|] == versions;
    if last.kind == kind && last.number == number {
      assert versions[|versions| - 1].number == number;
    } else {
      forall i | 0 <= i < |init| ensures init[i].number == CountKind(init[..i + 1], init[i].kind) {
        assert init[..i + 1] == versions[..i + 1];
      }
      NumbersAreTaken(init, kind, number);
      var i :| 0 <= i < |init| && init[i].kind == kind && init[i].number == number;
      assert versions[i] == init[i];
    }
  }

  /** A change of flags a transaction may make: the version is there, and is not to be marked while it is the newest. */
  predicate FlagFits(t: Tables, kind: DocKind, c: ResignChange)
  {
    c.versionId < |t.versions| && t.versions[c.versionId].kind == kind &&
    (c.resignRequired ==> CurrentOf(t, kind).Some? && c.versionId < CurrentOf(t, kind).value)
  }

  /** What was read can still be acted on, whatever was committed since. */
  predicate Fits(t: Tables, p: Plan)
  {
    match p
    case PublishAs(kind, number, _, _) => 1 <= number <= MaxNumber(t.versions, kind) + 1
    case SetFlags(kind, changes) => forall i :: 0 <= i < |changes| ==> FlagFits(t, kind, changes[i])
    case SignVersion(_, _, v) => v < |t.versions| && t.versions[v].kind == Icla
    case SignCompany(_, _, v, _) => v < |t.versions| && t.versions[v].kind == Ccla
    case DecideCompany(c, _) => c < |t.corporates|
    case CheckRoster(c, _) => c < |t.corporates|
    case AddMembers(c, entries) => c < |t.corporates| && entries != []
    case CloseMember(m, _) => m < |t.roster|
    case CloseSignature(s) => s < |t.signatures|
    case CloseWaiver(w) => w < |t.waivers|
    case _ => true
  }

  ghost predicate PlansFit(s: State)
  {
    forall p :: p in s.plans ==> Fits(s.tables, p)
  }

  /** No row is ever taken away, and the current version only moves on. */
  ghost predicate MovesOn(t: Tables, u: Tables)
  {
    |t.versions| <= |u.versions| && |t.signatures| <= |u.signatures| && |t.corporates| <= |u.corporates| &&
    |t.roster| <= |u.roster| && |t.waivers| <= |u.waivers| &&
    (forall i :: 0 <= i < |t.versions| ==> u.versions[i].kind == t.versions[i].kind) &&
    KindMovesOn(t, u, Icla) && KindMovesOn(t, u, Ccla)
  }

  predicate KindMovesOn(t: Tables, u: Tables, kind: DocKind)
  {
    MaxNumber(t.versions, kind) <= MaxNumber(u.versions, kind) &&
    (CurrentOf(t, kind).Some? ==> CurrentOf(u, kind).Some? && CurrentOf(t, kind).value <= CurrentOf(u, kind).value)
  }

  lemma FitsLater(t: Tables, u: Tables, p: Plan)
    requires Fits(t, p) && MovesOn(t, u)
    ensures Fits(u, p)
  {
    if p.SetFlags? {
      forall i | 0 <= i < |p.changes| ensures FlagFits(u, p.kind, p.changes[i]) {
        assert FlagFits(t, p.kind, p.changes[i]);
      }
    }
  }

  /** Changing flags keeps everything else, and marks only versions it is asked to mark. */
  lemma {:induction false} ResignsKeep(versions: seq<Version>, changes: seq<ResignChange>)
    ensures var r := ApplyResigns(versions, changes);
      forall i :: 0 <= i < |versions| ==>
        r[i].(resignRequired := versions[i].resignRequired) == versions[i] &&
        (r[i].resignRequired ==> versions[i].resignRequired || exists j :: 0 <= j < |changes| && MarksVersion(changes[j], i))
    decreases |changes|
  {
    if changes != [] {
      var init, last := changes[..|changes| - 1], changes[|changes| - 1];
      ResignsKeep(versions, init);
      var r := ApplyResigns(versions, changes);
      forall i: nat | i < |versions| && r[i].resignRequired && !versions[i].resignRequired
        ensures exists j :: 0 <= j < |changes| && MarksVersion(changes[j], i)
      {
        if MarksVersion(last, i) {
          assert MarksVersion(changes[|changes| - 1], i);
        } else {
          var j :| 0 <= j < |init| && MarksVersion(init[j], i);
          assert MarksVersion(changes[j], i);
        }
      }
    }
  }

  predicate MarksVersion(c: ResignChange, id: nat) { c.versionId == id && c.resignRequired }

  lemma ResignsKeepCounts(versions: seq<Version>, changes: seq<ResignChange>, kind: DocKind)
    ensures var r := ApplyResigns(versions, changes);
      CountKind(r, kind) == CountKind(versions, kind) && LastOfKind(r, kind) == LastOfKind(versions, kind) &&
      MaxNumber(r, kind) == MaxNumber(versions, kind)
  {
    ResignsKeep(versions, changes);
    FlagsDoNotCount(versions, ApplyResigns(versions, changes), kind);
    FlagsKeepMax(versions, ApplyResigns(versions, changes), kind);
  }

  lemma {:induction false} FlagsKeepMax(a: seq<Version>, b: seq<Version>, kind: DocKind)
    requires |a| == |b| && forall i :: 0 <= i < |a| ==> a[i].kind == b[i].kind && a[i].number == b[i].number
    ensures MaxNumber(a, kind) == MaxNumber(b, kind)
    decreases |a|
  {
    if a != [] {
      FlagsKeepMax(a[..|a| - 1], b[..|b| - 1], kind);
    }
  }

  lemma CurrentStaysValid(t: Tables, kind: DocKind, changes: seq<ResignChange>, k: DocKind)
    requires Inv(t) && Fits(t, SetFlags(kind, changes)) && CurrentOf(t, k).Some?
    ensures !ApplyResigns(t.versions, changes)[CurrentOf(t, k).value].resignRequired
  {
    var v := CurrentOf(t, k).value;
    assert CurrentIsNewest(t, k);
    forall j | 0 <= j < |changes| ensures !MarksVersion(changes[j], v) {
      assert FlagFits(t, kind, changes[j]);
    }
    ResignsKeep(t.versions, changes);
  }

  lemma FlagsKeepInv(t: Tables, kind: DocKind, changes: seq<ResignChange>)
    requires Inv(t) && Fits(t, SetFlags(kind, changes))
    ensures Inv(FinishFlags(t, kind, changes).tables) && MovesOn(t, FinishFlags(t, kind, changes).tables)
  {
    var u := t.(versions := ApplyResigns(t.versions, changes));
    ResignsKeep(t.versions, changes);
    ResignsKeepCounts(t.versions, changes, Icla);
    ResignsKeepCounts(t.versions, changes, Ccla);
    FlagsKeepNumbered(t.versions, u.versions);
    assert CurrentIsNewest(t, Icla) && CurrentIsNewest(t, Ccla);
    if t.currentIcla.Some? { CurrentStaysValid(t, kind, changes, Icla); }
    if t.currentCcla.Some? { CurrentStaysValid(t, kind, changes, Ccla); }
    assert CurrentIsNewest(u, Icla) && CurrentIsNewest(u, Ccla);
    ReferencesStay(t, u);
  }

  lemma ReferencesStay(t: Tables, u: Tables)
    requires References(t) && u.signatures == t.signatures && u.corporates == t.corporates && u.roster == t.roster
    requires |t.versions| <= |u.versions| && forall i :: 0 <= i < |t.versions| ==> u.versions[i].kind == t.versions[i].kind
    ensures References(u)
  {
    forall i | 0 <= i < |u.signatures| ensures SignatureRefers(u, u.signatures[i]) {
      assert SignatureRefers(t, t.signatures[i]);
    }
    forall i | 0 <= i < |u.corporates| ensures CorporateRefers(u, u.corporates[i]) {
      assert CorporateRefers(t, t.corporates[i]);
    }
  }

  lemma TakenUpToMax(versions: seq<Version>, kind: DocKind, number: nat)
    requires Numbered(versions) && number >= 1
    ensures NumberIsTaken(versions, kind, number) <==> number <= MaxNumber(versions, kind)
  {
    MaxIsCount(versions, kind);
    MaxIsAbove(versions, kind);
    if number <= MaxNumber(versions, kind) {
      NumbersAreTaken(versions, kind, number);
    }
  }

  /** A publish whose number nobody took meanwhile is the publish it would be on the tables as they are now. */
  lemma LatePublish(t: Tables, kind: DocKind, number: nat, requireResign: bool, ids: seq<nat>)
    requires Numbered(t.versions) && 1 <= number <= MaxNumber(t.versions, kind) + 1
    ensures NumberIsTaken(t.versions, kind, number) <==> number <= MaxNumber(t.versions, kind)
    ensures FinishPublish(t, kind, number, requireResign, ids) ==
      if number <= MaxNumber(t.versions, kind) then Failure(NumberTaken) else Success(PublishChange(t, kind, requireResign, ids))
  {
    TakenUpToMax(t.versions, kind, number);
    if number > MaxNumber(t.versions, kind) {
      FinishIsPublish(t, kind, requireResign, ids);
    }
  }

  lemma PublishMovesOn(t: Tables, kind: DocKind, requireResign: bool, ids: seq<nat>)
    requires Inv(t)
    ensures MovesOn(t, PublishChange(t, kind, requireResign, ids).tables)
  {
    var marked := MarkResign(t.versions, StaleIds(t.versions, kind, requireResign, ids));
    var versions := PublishChange(t, kind, requireResign, ids).tables.versions;
    assert versions[..|versions| - 1] == marked;
    FlagsKeepMax(t.versions, marked, Icla);
    FlagsKeepMax(t.versions, marked, Ccla);
    assert CurrentIsNewest(t, Icla) && CurrentIsNewest(t, Ccla);
  }

  lemma RosterKeepsInv(t: Tables, c: nat, entries: seq<RosterEntry>)
    requires Inv(t) && Fits(t, AddMembers(c, entries))
    ensures var u := FinishRoster(t, c, entries).tables; Inv(u) && MovesOn(t, u)
  {
    AddEntriesAre(t.roster + [Enlisted(c, entries[0])], c, entries[1..]);
    RowsKeepInv(t, FinishRoster(t, c, entries).tables);
  }

  lemma RowKeepsInv(t: Tables, p: Plan)
    requires Inv(t) && Fits(t, p) && Ready(p) && !p.PublishAs? && !p.SetFlags? && !p.AddMembers?
    ensures Finish(t, p).Success? && Inv(Finish(t, p).value.tables) && MovesOn(t, Finish(t, p).value.tables)
  {
    RowsKeepInv(t, Finish(t, p).value.tables);
  }

  /** Whatever was committed since it read, a transaction that commits keeps the invariant. */
  lemma FinishKeepsInv(t: Tables, p: Plan)
    requires Inv(t) && Fits(t, p) && Ready(p) && Finish(t, p).Success?
    ensures Inv(Finish(t, p).value.tables) && MovesOn(t, Finish(t, p).value.tables)
  {
    match p
    case PublishAs(kind, number, requireResign, ids) =>
      LatePublish(t, kind, number, requireResign, ids);
      PublishKeepsInv(t, kind, requireResign, ids);
      PublishMovesOn(t, kind, requireResign, ids);
    case SetFlags(kind, changes) => FlagsKeepInv(t, kind, changes);
    case AddMembers(c, entries) => RosterKeepsInv(t, c, entries);
    case _ => RowKeepsInv(t, p);
  }

  lemma FlagPlanFits(t: Tables, resigns: seq<(nat, bool)>)
    requires Inv(t) && PlanFlags(t, resigns).Success?
    ensures Fits(t, PlanFlags(t, resigns).value)
  {
    var wanted := WantedFlags(resigns);
    var ids := FlippedIds(t.versions, wanted);
    if ids != [] {
      assert ids[0] in ids;
      var kind := t.versions[ids[0]].kind;
      forall i | 0 <= i < |ids| ensures FlagFits(t, kind, ResignChanges(t.versions, wanted, ids)[i]) {
        assert ids[i] in ids;
        AskedFlagFits(t, wanted, kind, ids[i]);
      }
    }
  }

  lemma AskedFlagFits(t: Tables, wanted: map<nat, bool>, kind: DocKind, id: nat)
    requires Inv(t) && id < |t.versions| && t.versions[id].kind == kind && id in wanted
    requires !(wanted[id] && CurrentOf(t, kind) == Some(id))
    ensures FlagFits(t, kind, ResignChange(id, t.versions[id].number, wanted[id]))
  {
    NewestIsLast(t, kind, id);
  }

  lemma NewestIsLast(t: Tables, kind: DocKind, id: nat)
    requires Inv(t) && id < |t.versions| && t.versions[id].kind == kind
    ensures CurrentOf(t, kind).Some? && id <= CurrentOf(t, kind).value
  {
    assert CurrentIsNewest(t, kind);
    LastIsLast(t.versions, kind, id);
  }

  lemma {:induction false} LastIsLast(versions: seq<Version>, kind: DocKind, id: nat)
    requires id < |versions| && versions[id].kind == kind
    ensures LastOfKind(versions, kind).Some? && id <= LastOfKind(versions, kind).value
    decreases |versions|
  {
    if versions[|versions| - 1].kind != kind {
      LastIsLast(versions[..|versions| - 1], kind, id);
    }
  }

  lemma PlanFits(t: Tables, required: bool, op: Op)
    requires Inv(t) && PlanOf(t, required, op).Success?
    ensures Fits(t, PlanOf(t, required, op).value)
  {
    if op.SetResign? {
      FlagPlanFits(t, op.resigns);
    }
  }

  lemma {:induction false} ReadAllFits(t: Tables, p: Plan)
    requires Fits(t, p)
    ensures Fits(t, ReadAll(t, p))
    decreases if p.CheckRoster? then |p.entries| else 0
  {
    if p.CheckRoster? && p.entries != [] {
      var q := ReadMore(t, p);
      if q.CheckRoster? { ReadAllFits(t, q); }
    }
  }

  lemma ChangeKeepsInv(t: Tables, required: bool, op: Op)
    requires Inv(t) && ChangeOf(t, required, op).Success?
    ensures Inv(ChangeOf(t, required, op).value.tables)
  {
    ChangeAtOnce(t, required, op);
    var p := PlanOf(t, required, op).value;
    PlanFits(t, required, op);
    ReadAllFits(t, p);
    FinishKeepsInv(t, ReadAll(t, p));
  }

  ghost predicate Sane(s: State)
  {
    Inv(s.tables) && PlansFit(s)
  }

  lemma TakeKeepsSane(s: State, step: TxStep)
    requires Sane(s)
    ensures Sane(Take(s, step)) && MovesOn(s.tables, Take(s, step).tables)
  {
    match step
    case Read(op) => if PlanOf(s.tables, s.requiresApproval, op).Success? { PlanFits(s.tables, s.requiresApproval, op); }
    case ReadOn(p) =>
    case Write(p) =>
      if p in s.plans && Ready(p) && Written(s, p).Success? {
        FinishKeepsInv(s.tables, p);
        forall q | q in s.plans ensures Fits(Take(s, step).tables, q) {
          FitsLater(s.tables, Take(s, step).tables, q);
        }
      }
  }

  /**
   Over every run of overlapping transactions, versions are numbered 1..n, the current one is n
   and is never marked for re-signing, and what any open transaction has read can be acted on.
   */
  lemma {:induction false} RunKeepsInv(requiresApproval: bool, steps: seq<TxStep>)
    ensures Sane(Run(Initial(requiresApproval), steps))
    decreases |steps|
  {
    if steps != [] {
      RunKeepsInv(requiresApproval, steps[..|steps| - 1]);
      TakeKeepsSane(Run(Initial(requiresApproval), steps[..|steps| - 1]), steps[|steps| - 1]);
    }
  }
}
