/**
 The life cycle of applications and appeals. A call reads first and writes later, by row id and
 without a lock, and calls overlap: what a call read decides which writes it will make, and other
 calls' writes may fall before and between them. A process that stops makes no further write.
 */
module Lifecycle {
  import opened Wrappers
  import opened Text
  import opened Gate
  import Moments

  datatype DecisionError =
    | NoSuchApplication | NotEnoughApprovals | NotCovered | NotDenied | NoAppeal | AppealResolved
    | NotYours | AppealsOff | AlreadyAppealed | BlockedFromAppeal | BadMessage | BadAnswers

  datatype Refusal = NotSubmitted(why: SubmitError) | NotDecided(error: DecisionError)

  datatype RevokeTarget = ToDenied | ToSubmitted | ToPending

  datatype Resolution = Grant | AllowResubmit | Reject

  datatype Action =
    | Submit(userId: nat, answers: Text, answersValid: bool, now: int)
    | Approve(id: nat, approvals: nat, covered: bool, reason: Option<Text>)
    | Deny(id: nat, reason: Option<Text>, allowResubmit: bool, now: int)
    | Reopen(id: nat, now: int)
    | Revoke(id: nat, target: RevokeTarget, reason: Option<Text>, now: int)
    | FileAppeal(id: nat, userId: nat, messageLength: nat, appealAnswers: Option<Text>)
    | Resolve(id: nat, resolution: Resolution, approvals: nat, covered: bool, reason: Option<Text>, now: int)

  /** What a call does to the stored rows once it has read; `ChecksDenied` only reads again. */
  datatype Write =
    | Creates(userId: nat, answers: Text)
    | FilesAppeal(id: nat, answers: Text)
    | Approves(id: nat, reason: Option<Text>)
    | Denies(id: nat, reason: Option<Text>, allowResubmit: bool, cooldownUntil: Option<int>)
    | ChecksDenied(id: nat)
    | Reopens(id: nat, cooldownUntil: Option<int>)
    | SendsBack(id: nat, target: RevokeTarget, reason: Option<Text>, cooldownUntil: Option<int>)
    | TakesAnswers(id: nat, answers: Text)
    | Closes(id: nat, resolution: Resolution)

  // ---- what a call reads ----

  function CooldownFrom(w: World, now: int): Option<int>
  {
    match w.settings.cooldownDays case Some(days) => Some(now + days * 86_400_000) case None => None
  }

  /** The gates an approval has to pass: `approvals` by other reviewers, and coverage where the agreement is required. */
  function ApprovalGate(w: World, approvals: nat, covered: bool): Option<DecisionError>
  {
    if w.settings.requireApprovalCount > 0 && approvals < w.settings.requireApprovalCount then Some(NotEnoughApprovals)
    else if w.settings.claEnabled && w.settings.claRequired && !covered then Some(NotCovered)
    else None
  }

  function AppealRefusal(w: World, id: nat, userId: nat, messageLength: nat, answers: Option<Text>): Option<DecisionError>
  {
    if id >= |w.applications| then Some(NoSuchApplication)
    else
      var app := w.applications[id];
      if app.userId != userId then Some(NotYours)
      else if !w.settings.allowAppeals then Some(AppealsOff)
      else if app.status != Denied then Some(NotDenied)
      else if app.appeal.Some? then Some(AlreadyAppealed)
      else if IsManuallyBlocked(w, userId) then Some(BlockedFromAppeal)
      else if messageLength < 1 || messageLength > 4000 then Some(BadMessage)
      else if answers.None? then Some(BadAnswers)
      else None
  }

  /** A resolution finds the appeal waiting and, unless it rejects, the application denied; a grant passes the gates. */
  function ResolveRefusal(w: World, id: nat, r: Resolution, approvals: nat, covered: bool): Option<DecisionError>
  {
    if id >= |w.applications| || w.applications[id].appeal.None? then Some(NoAppeal)
    else if w.applications[id].appeal.value.status != AppealPending then Some(AppealResolved)
    else if r != Reject && w.applications[id].status != Denied then Some(NotDenied)
    else if r == Grant then ApprovalGate(w, approvals, covered)
    else None
  }

  function Found(w: World, id: nat): Option<DecisionError>
  {
    if id >= |w.applications| then Some(NoSuchApplication) else None
  }

  function DecisionRefusal(w: World, a: Action): Option<DecisionError>
  {
    match a
    case Submit(_, _, _, _) => None
    case Approve(id, approvals, covered, _) => if Found(w, id).Some? then Found(w, id) else ApprovalGate(w, approvals, covered)
    case Deny(id, _, _, _) => Found(w, id)
    case Reopen(id, _) =>
      if id >= |w.applications| then Some(NoSuchApplication)
      else if w.applications[id].status != Denied then Some(NotDenied)
      else None
    case Revoke(id, _, _, _) => Found(w, id)
    case FileAppeal(id, userId, n, answers) => AppealRefusal(w, id, userId, n, answers)
    case Resolve(id, r, approvals, covered, _, _) => ResolveRefusal(w, id, r, approvals, covered)
  }

  /** Why a call stops after its reads, none when it goes on. */
  function Stops(w: World, a: Action): Option<Refusal>
  {
    if a.Submit? then
      match SubmitRefusal(w, a.userId, a.answersValid, a.now) case Some(e) => Some(NotSubmitted(e)) case None => None
    else
      match DecisionRefusal(w, a) case Some(e) => Some(NotDecided(e)) case None => None
  }

  /** The writes a call that is not refused goes on to make, in order. */
  function WritesOf(w: World, a: Action): (writes: seq<Write>)
    requires Stops(w, a) == None
    ensures writes != []
  {
    match a
    case Submit(userId, answers, _, _) => [Creates(userId, answers)]
    case Approve(id, _, _, reason) => [Approves(id, reason)]
    case Deny(id, reason, allowResubmit, now) => [Denies(id, reason, allowResubmit, CooldownFrom(w, now))]
    case Reopen(id, now) => [Reopens(id, CooldownFrom(w, now))]
    case Revoke(id, target, reason, now) =>
      [SendsBack(id, target, reason, if target == ToDenied then CooldownFrom(w, now) else None)]
    case FileAppeal(id, _, _, answers) => [FilesAppeal(id, answers.value)]
    case Resolve(id, r, _, _, reason, now) =>
      (match r
       case Grant => [Approves(id, reason), TakesAnswers(id, w.applications[id].appeal.value.answers), Closes(id, Grant)]
       case AllowResubmit => [ChecksDenied(id), Reopens(id, CooldownFrom(w, now)), Closes(id, AllowResubmit)]
       case Reject => [Closes(id, Reject)])
  }

  // ---- what a write does ----

  /** A reason that is not given leaves the one that is stored. */
  function ReasonOr(reason: Option<Text>, stored: Option<Text>): Option<Text> { if reason.Some? then reason else stored }

  function ApproveApp(app: Application, reason: Option<Text>): Application
  {
    app.(status := Approved, reason := ReasonOr(reason, app.reason), allowResubmit := true, cooldownUntil := None)
  }

  function DenyApp(app: Application, reason: Option<Text>, allowResubmit: bool, cooldownUntil: Option<int>): Application
  {
    app.(status := Denied, reason := ReasonOr(reason, app.reason), allowResubmit := allowResubmit,
         cooldownUntil := if allowResubmit then cooldownUntil else None)
  }

  function ReopenApp(app: Application, cooldownUntil: Option<int>): Application
  {
    app.(allowResubmit := true, cooldownUntil := cooldownUntil)
  }

  function SendBackApp(app: Application, target: RevokeTarget, reason: Option<Text>, cooldownUntil: Option<int>): Application
  {
    app.(status := if target == ToSubmitted then Submitted else Denied, reason := reason, allowResubmit := true,
         cooldownUntil := if target == ToDenied then cooldownUntil else None)
  }

  function ResolvedStatus(r: Resolution): AppealStatus
  {
    match r case Grant => Granted case AllowResubmit => ResubmitAllowed case Reject => AppealRejected
  }

  function CloseAppeal(app: Application, r: Resolution): Application
    requires app.appeal.Some?
  {
    app.(appeal := Some(app.appeal.value.(status := ResolvedStatus(r))))
  }

  /** The row after the write; none where it fails: an application has one appeal at most, and a check may not hold any more. */
  function RowAfter(app: Application, write: Write): Option<Application>
    requires !write.Creates?
  {
    match write
    case FilesAppeal(_, answers) => if app.appeal.Some? then None else Some(app.(appeal := Some(Appeal(AppealPending, answers))))
    case Approves(_, reason) => Some(ApproveApp(app, reason))
    case Denies(_, reason, allowResubmit, until) => Some(DenyApp(app, reason, allowResubmit, until))
    case ChecksDenied(_) => if app.status == Denied then Some(app) else None
    case Reopens(_, until) => Some(ReopenApp(app, until))
    case SendsBack(_, target, reason, until) => Some(SendBackApp(app, target, reason, until))
    case TakesAnswers(_, answers) => Some(app.(answers := answers))
    case Closes(_, r) => if app.appeal.Some? then Some(CloseAppeal(app, r)) else None
  }

  function After(w: World, write: Write): Option<World>
  {
    if write.Creates? then Some(w.(applications := w.applications + [NewApplication(write.userId, write.answers)]))
    else if write.id >= |w.applications| then None
    else
      match RowAfter(w.applications[write.id], write)
      case None => None
      case Some(app) => Some(w.(applications := w.applications[write.id := app]))
  }

  // ---- calls that overlap ----

  /**
   `tasks` are the writes that calls have still to make; any number of calls may be at the same
   point. `done` lists the writes made, for the statements; no step depends on it.
   */
  datatype Desk = Desk(world: World, tasks: set<seq<Write>>, done: seq<Write>)

  /** A call reads, or one that has read makes its next write. Stopping for good is no step. */
  datatype Step = Start(action: Action) | Go(task: seq<Write>)

  function Opened(w: World): Desk { Desk(w, {}, []) }

  function Taken(d: Desk, step: Step): Desk
  {
    match step
    case Start(a) => if Stops(d.world, a) == None then d.(tasks := d.tasks + {WritesOf(d.world, a)}) else d
    case Go(task) => if task in d.tasks && task != [] then Made(d, task) else d
  }

  function Made(d: Desk, task: seq<Write>): Desk
    requires task != []
  {
    match After(d.world, task[0])
    case None => d
    case Some(w) => Desk(w, if |task| > 1 then d.tasks + {task[1..]} else d.tasks, d.done + [task[0]])
  }

  function Play(d: Desk, steps: seq<Step>): Desk
  {
    if steps == [] then d else Taken(Play(d, steps[..|steps| - 1]), steps[|steps| - 1])
  }

  lemma PlayOneMore(d: Desk, steps: seq<Step>, step: Step)
    ensures Play(d, steps + [step]) == Taken(Play(d, steps), step)
  {
    assert (steps + [step])[..|steps|] == steps;
  }

  lemma {:induction false} PlayConcat(d: Desk, a: seq<Step>, b: seq<Step>)
    ensures Play(d, a + b) == Play(Play(d, a), b)
    decreases |b|
  {
    if b == [] {
      assert a + b == a;
    } else {
      assert (a + b)[..|a + b| - 1] == a + b[..|b| - 1];
      PlayConcat(d, a, b[..|b| - 1]);
    }
  }

  // ---- a run is its writes ----

  /** The write is made by the step. */
  predicate Makes(d: Desk, step: Step, write: Write)
  {
    step.Go? && step.task in d.tasks && step.task != [] && step.task[0] == write && After(d.world, write).Some?
  }

  /** A step makes one write, or leaves the rows as they are. */
  lemma StepMakes(d: Desk, step: Step)
    ensures var r := Taken(d, step);
      d.tasks <= r.tasks &&
      ((r.world == d.world && r.done == d.done) ||
       (step.Go? && step.task != [] && Makes(d, step, step.task[0]) &&
        Some(r.world) == After(d.world, step.task[0]) && r.done == d.done + [step.task[0]]))
  {
  }

  /** The writes made between two states of a run. */
  function Since(d: Desk, r: Desk): seq<Write>
  {
    if |d.done| <= |r.done| then r.done[|d.done|..] else []
  }

  lemma {:induction false} PlayOnlyAdds(d: Desk, steps: seq<Step>)
    ensures var r := Play(d, steps); d.tasks <= r.tasks && d.done <= r.done && r.world.settings == d.world.settings
    decreases |steps|
  {
    if steps != [] {
      PlayOnlyAdds(d, steps[..|steps| - 1]);
      StepMakes(Play(d, steps[..|steps| - 1]), steps[|steps| - 1]);
    }
  }

  lemma SinceOneMore(d: Desk, steps: seq<Step>)
    requires steps != []
    ensures var mid, r := Play(d, steps[..|steps| - 1]), Play(d, steps);
      d.done <= mid.done <= r.done && Since(d, r) == Since(d, mid) + Since(mid, r) && |Since(mid, r)| <= 1
  {
    var init := steps[..|steps| - 1];
    PlayOnlyAdds(d, init);
    StepMakes(Play(d, init), steps[|steps| - 1]);
  }

  // ---- what holds at every moment of a run ----

  ghost predicate Always(good: Desk -> bool, d: Desk, steps: seq<Step>)
  {
    forall k: nat :: k <= |steps| ==> good(Play(d, steps[..k]))
  }

  ghost predicate Never(bad: (Desk, Step) -> bool, d: Desk, steps: seq<Step>)
  {
    forall k: nat :: k < |steps| ==> !bad(Play(d, steps[..k]), steps[k])
  }

  lemma NeverOneMore(bad: (Desk, Step) -> bool, d: Desk, steps: seq<Step>)
    requires steps != []
    ensures var init := steps[..|steps| - 1];
      Never(bad, d, steps) <==> Never(bad, d, init) && !bad(Play(d, init), steps[|steps| - 1])
  {
    var init := steps[..|steps| - 1];
    forall k | 0 <= k < |init| ensures init[..k] == steps[..k] && init[k] == steps[k] {
    }
    if Never(bad, d, steps) {
      assert !bad(Play(d, steps[..|init|]), steps[|init|]);
      forall k | 0 <= k < |init| ensures !bad(Play(d, init[..k]), init[k]) {
        assert !bad(Play(d, steps[..k]), steps[k]);
      }
    }
    if Never(bad, d, init) && !bad(Play(d, init), steps[|init|]) {
      forall k | 0 <= k < |steps| ensures !bad(Play(d, steps[..k]), steps[k]) {
        if k < |init| { assert !bad(Play(d, init[..k]), init[k]); }
      }
    }
  }

  /** Where a step keeps something exactly unless it is bad, it always holds exactly if no step is. */
  lemma AlwaysUnless(good: Desk -> bool, bad: (Desk, Step) -> bool, d: Desk, steps: seq<Step>)
    requires good(d) && forall e: Desk, step: Step {:trigger bad(e, step)} :: good(e) ==> (good(Taken(e, step)) <==> !bad(e, step))
    ensures Always(good, d, steps) <==> Never(bad, d, steps)
  {
    var at := (k: nat) => k <= |steps| && good(Play(d, steps[..k]));
    var slips := (k: nat) => k < |steps| && bad(Play(d, steps[..k]), steps[k]);
    assert steps[..0] == [] && Play(d, steps[..0]) == d && at(0);
    forall k: nat | k < |steps| && at(k) ensures at(k + 1) <==> !slips(k) {
      assert steps[..k + 1] == steps[..k] + [steps[k]];
      PlayOneMore(d, steps[..k], steps[k]);
    }
    Moments.HoldsUnless(at, slips, |steps|);
    forall k: nat | k <= |steps| ensures at(k) == good(Play(d, steps[..k])) {
    }
    forall k: nat | k < |steps| ensures slips(k) == bad(Play(d, steps[..k]), steps[k]) {
    }
  }

  // ---- the status of an application ----

  /** The status a write gives the application. */
  function StatusOf(write: Write, id: nat): Option<AppStatus>
  {
    if write.Creates? || write.id != id then None
    else
      match write
      case Approves(_, _) => Some(Approved)
      case Denies(_, _, _, _) => Some(Denied)
      case SendsBack(_, target, _, _) => Some(if target == ToSubmitted then Submitted else Denied)
      case _ => None
  }

  /** The status some writes leave the application in: the last that gives it one decides. */
  function StatusAfter(writes: seq<Write>, id: nat, before: AppStatus): AppStatus
  {
    if writes == [] then before
    else
      var last := StatusOf(writes[|writes| - 1], id);
      if last.Some? then last.value else StatusAfter(writes[..|writes| - 1], id, before)
  }

  lemma {:induction false} StatusAfterConcat(a: seq<Write>, b: seq<Write>, id: nat, before: AppStatus)
    ensures StatusAfter(a + b, id, before) == StatusAfter(b, id, StatusAfter(a, id, before))
    decreases |b|
  {
    if b == [] {
      assert a + b == a;
    } else {
      assert (a + b)[..|a + b| - 1] == a + b[..|b| - 1];
      StatusAfterConcat(a, b[..|b| - 1], id, before);
    }
  }

  lemma OneStatus(write: Write, id: nat, before: AppStatus)
    ensures StatusAfter([write], id, before) == if StatusOf(write, id).Some? then StatusOf(write, id).value else before
  {
    assert [write][..0] == [];
  }

  lemma WriteStatus(w: World, write: Write, id: nat)
    requires After(w, write).Some? && id < |w.applications|
    ensures var w' := After(w, write).value;
      id < |w'.applications| &&
      w'.applications[id].status == if StatusOf(write, id).Some? then StatusOf(write, id).value else w.applications[id].status
  {
  }

  /** Over every run an application has the status the writes made on it leave. */
  lemma {:induction false} StatusFollowsWrites(d: Desk, steps: seq<Step>, id: nat)
    requires id < |d.world.applications|
    ensures var r := Play(d, steps);
      id < |r.world.applications| &&
      r.world.applications[id].status == StatusAfter(Since(d, r), id, d.world.applications[id].status)
    decreases |steps|
  {
    if steps != [] {
      var mid, r := Play(d, steps[..|steps| - 1]), Play(d, steps);
      StatusFollowsWrites(d, steps[..|steps| - 1], id);
      SinceOneMore(d, steps);
      StatusAfterConcat(Since(d, mid), Since(mid, r), id, d.world.applications[id].status);
      StepStatus(mid, steps[|steps| - 1], id);
    }
  }

  lemma StepStatus(d: Desk, step: Step, id: nat)
    requires id < |d.world.applications|
    ensures var r := Taken(d, step);
      id < |r.world.applications| && r.world.applications[id].status == StatusAfter(Since(d, r), id, d.world.applications[id].status)
  {
    StepMakes(d, step);
    if Taken(d, step).done != d.done {
      WriteStatus(d.world, step.task[0], id);
      OneStatus(step.task[0], id, d.world.applications[id].status);
      assert Since(d, Taken(d, step)) == [step.task[0]];
    }
  }

  // ---- cooldown dates ----

  predicate CooldownPlaced(app: Application)
  {
    app.cooldownUntil.Some? ==> app.status == Denied && app.allowResubmit
  }

  predicate CooldownsPlaced(w: World)
  {
    forall i :: 0 <= i < |w.applications| ==> CooldownPlaced(w.applications[i])
  }

  predicate DatesPlaced(d: Desk) { CooldownsPlaced(d.world) }

  /** A date is set on an application that is not denied any more. */
  predicate Misplaces(w: World, write: Write)
  {
    write.Reopens? && write.cooldownUntil.Some? && write.id < |w.applications| && w.applications[write.id].status != Denied
  }

  lemma WriteKeepsPlaced(w: World, write: Write)
    requires CooldownsPlaced(w) && After(w, write).Some?
    ensures CooldownsPlaced(After(w, write).value) <==> !Misplaces(w, write)
  {
    var w' := After(w, write).value;
    if Misplaces(w, write) {
      assert !CooldownPlaced(w'.applications[write.id]);
    }
  }

  /** The step makes a write of that kind. */
  predicate StepMisplaces(d: Desk, step: Step)
  {
    step.Go? && step.task != [] && Makes(d, step, step.task[0]) && Misplaces(d.world, step.task[0])
  }

  lemma StepKeepsPlaced(d: Desk, step: Step)
    requires CooldownsPlaced(d.world)
    ensures CooldownsPlaced(Taken(d, step).world) <==> !StepMisplaces(d, step)
  {
    StepMakes(d, step);
    if step.Go? && step.task != [] && Makes(d, step, step.task[0]) {
      WriteKeepsPlaced(d.world, step.task[0]);
    }
  }

  /**
   Over every run, at every moment, a cooldown date sits only on a denied application that may be
   resubmitted, if and only if no date was set on an application that was no longer denied.
   */
  lemma CooldownsStayPlaced(d: Desk, steps: seq<Step>)
    requires CooldownsPlaced(d.world)
    ensures Always(DatesPlaced, d, steps) <==> Never(StepMisplaces, d, steps)
  {
    forall e: Desk, step: Step | CooldownsPlaced(e.world)
      ensures CooldownsPlaced(Taken(e, step).world) <==> !StepMisplaces(e, step)
    {
      StepKeepsPlaced(e, step);
    }
    AlwaysUnless(DatesPlaced, StepMisplaces, d, steps);
  }

  /**
   A re-opening that read a denied application and then waited misplaces its date exactly when the
   writes made since left the application in another status.
   */
  lemma LateReopening(d: Desk, id: nat, now: int, between: seq<Step>)
    requires Stops(d.world, Reopen(id, now)) == None
    ensures var a := Reopen(id, now); var r := Play(Taken(d, Start(a)), between); var task := WritesOf(d.world, a);
      task in r.tasks && id < |r.world.applications| &&
      (StepMisplaces(r, Go(task)) <==>
        d.world.settings.cooldownDays.Some? && StatusAfter(Since(d, r), id, Denied) != Denied)
  {
    var read := Taken(d, Start(Reopen(id, now)));
    PlayOnlyAdds(read, between);
    StatusFollowsWrites(read, between, id);
    assert Since(read, Play(read, between)) == Since(d, Play(read, between));
  }
}
