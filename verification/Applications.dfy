/**
 The project's decisions, applications and appeals as the database holds them: the gate's decision
 with the one row it fills in, and calls that read, wait while others write, and update rows in place.
 */
module Applications {
  import opened Wrappers
  import opened Text
  import opened Status
  import opened Gate
  import opened Lifecycle

  /** The manual row of the author gets the author's account id where it has none; the write may fail. */
  function Backfilled(manual: map<Text, ManualDecision>, login: Text, ghId: int, saved: bool): map<Text, ManualDecision>
  {
    if login in manual && manual[login].ghId == None && saved then manual[login := manual[login].(ghId := Some(ghId))]
    else manual
  }

  // ---- filling in an account id never matters ----

  /** What happens to a project: a decision on a pull request, whose back-fill write may fail, or a step of a call. */
  datatype Call = Decides(repo: Repo, author: Author, now: int, cla: ClaStatus, saved: bool) | Steps(step: Step)

  function AfterDecision(w: World, repo: Repo, a: Author, saved: bool): World
  {
    if repo.active && w.settings.checkerEnabled then w.(manual := Backfilled(w.manual, Lower(a.ghLogin), a.ghId, saved)) else w
  }

  function AfterCall(d: Desk, c: Call): Desk
  {
    match c
    case Decides(repo, a, _, _, saved) => d.(world := AfterDecision(d.world, repo, a, saved))
    case Steps(step) => Taken(d, step)
  }

  function Played(d: Desk, calls: seq<Call>): Desk
  {
    if calls == [] then d else AfterCall(Played(d, calls[..|calls| - 1]), calls[|calls| - 1])
  }

  /** What the call answers where it is a decision. */
  function Answer(d: Desk, c: Call): Option<Decision>
  {
    match c case Decides(repo, a, now, cla, _) => Some(Decide(d.world, repo, a, now, cla)) case Steps(_) => None
  }

  /** The same but for the account ids of manual rows. */
  ghost predicate SameButIds(w: World, u: World)
  {
    u == w.(manual := u.manual) && u.manual.Keys == w.manual.Keys &&
    forall login :: login in w.manual ==> u.manual[login].(ghId := w.manual[login].ghId) == w.manual[login]
  }

  ghost predicate SameDesks(d: Desk, e: Desk)
  {
    e == d.(world := e.world) && SameButIds(d.world, e.world)
  }

  /** The same call but for whether its write succeeds. */
  predicate SameCall(c: Call, d: Call)
  {
    if c.Decides? then d.Decides? && d.(saved := c.saved) == c else d == c
  }

  ghost predicate SameCalls(calls: seq<Call>, others: seq<Call>)
  {
    |others| == |calls| && forall i :: 0 <= i < |calls| ==> SameCall(calls[i], others[i])
  }

  lemma ManualAlike(w: World, u: World, login: Text)
    requires SameButIds(w, u)
    ensures ManualFor(w, login).Some? == ManualFor(u, login).Some?
    ensures ManualFor(w, login).Some? ==>
      ManualFor(u, login).value.(ghId := ManualFor(w, login).value.ghId) == ManualFor(w, login).value
  {
  }

  lemma DecidesAlike(w: World, u: World, repo: Repo, a: Author, now: int, cla: ClaStatus)
    requires SameButIds(w, u)
    ensures Decide(u, repo, a, now, cla) == Decide(w, repo, a, now, cla)
  {
    ManualAlike(w, u, a.ghLogin);
  }

  lemma BlockedAlike(w: World, u: World, userId: nat)
    requires SameButIds(w, u)
    ensures IsManuallyBlocked(u, userId) == IsManuallyBlocked(w, userId)
  {
    if userId < |w.users| && w.users[userId].ghLogin.Some? {
      ManualAlike(w, u, w.users[userId].ghLogin.value);
    }
  }

  lemma StopsAlike(w: World, u: World, a: Action)
    requires SameButIds(w, u)
    ensures Stops(u, a) == Stops(w, a) && (Stops(w, a) == None ==> WritesOf(u, a) == WritesOf(w, a))
  {
    if a.Submit? || a.FileAppeal? {
      BlockedAlike(w, u, a.userId);
    }
  }

  lemma WritesAlike(w: World, u: World, write: Write)
    requires SameButIds(w, u)
    ensures After(u, write).Some? == After(w, write).Some?
    ensures After(w, write).Some? ==> SameButIds(After(w, write).value, After(u, write).value)
  {
  }

  lemma StepsAlike(d: Desk, e: Desk, step: Step)
    requires SameDesks(d, e)
    ensures SameDesks(Taken(d, step), Taken(e, step))
  {
    match step
    case Start(a) => StopsAlike(d.world, e.world, a);
    case Go(task) => if task in d.tasks && task != [] { WritesAlike(d.world, e.world, task[0]); }
  }

  lemma CallsAlike(d: Desk, e: Desk, c: Call, other: Call)
    requires SameDesks(d, e) && SameCall(c, other)
    ensures Answer(e, other) == Answer(d, c) && SameDesks(AfterCall(d, c), AfterCall(e, other))
  {
    match c
    case Decides(repo, a, now, cla, _) => DecidesAlike(d.world, e.world, repo, a, now, cla);
    case Steps(step) => StepsAlike(d, e, step);
  }

  lemma {:induction false} PlayedAlike(d: Desk, calls: seq<Call>, others: seq<Call>)
    requires SameCalls(calls, others)
    ensures SameDesks(Played(d, calls), Played(d, others))
    decreases |calls|
  {
    if calls != [] {
      var n := |calls| - 1;
      PlayedAlike(d, calls[..n], others[..n]);
      CallsAlike(Played(d, calls[..n]), Played(d, others[..n]), calls[n], others[n]);
    }
  }

  /**
   Over every run of decisions and overlapping calls: whichever back-fill writes succeed, every
   decision is the same, and so are the applications and appeals.
   */
  lemma BackfillsNeverMatter(d: Desk, calls: seq<Call>, others: seq<Call>)
    requires SameCalls(calls, others)
    ensures Played(d, others).world.applications == Played(d, calls).world.applications
    ensures forall i :: 0 <= i < |calls| ==> Answer(Played(d, calls[..i]), calls[i]) == Answer(Played(d, others[..i]), others[i])
  {
    PlayedAlike(d, calls, others);
    forall i | 0 <= i < |calls| ensures Answer(Played(d, calls[..i]), calls[i]) == Answer(Played(d, others[..i]), others[i]) {
      PlayedAlike(d, calls[..i], others[..i]);
      CallsAlike(Played(d, calls[..i]), Played(d, others[..i]), calls[i], others[i]);
    }
  }

  // ---- the stored rows ----

  /** The first `n` writes of a task, each after what others do at that time. */
  ghost function CallSteps(meanwhile: nat -> seq<Step>, clock: nat, task: seq<Write>, n: nat): seq<Step>
    requires n <= |task|
  {
    if n == 0 then [] else CallSteps(meanwhile, clock, task, n - 1) + meanwhile(clock + n - 1) + [Go(task[n - 1..])]
  }

  lemma CallOneMore(d: Desk, meanwhile: nat -> seq<Step>, clock: nat, task: seq<Write>, n: nat)
    requires n < |task|
    ensures Play(d, CallSteps(meanwhile, clock, task, n + 1)) ==
      Taken(Play(Play(d, CallSteps(meanwhile, clock, task, n)), meanwhile(clock + n)), Go(task[n..]))
  {
    var before := CallSteps(meanwhile, clock, task, n);
    PlayOneMore(d, before + meanwhile(clock + n), Go(task[n..]));
    PlayConcat(d, before, meanwhile(clock + n));
  }

  /** What a call did: refused by what it read, or so many of its writes attempted. */
  ghost predicate Performed(meanwhile: nat -> seq<Step>, clock: nat, a: Action, before: Desk, e: Option<Refusal>, writes: nat, after: Desk)
  {
    match Stops(before.world, a)
    case Some(x) => e == Some(x) && writes == 0 && after == before
    case None =>
      var task := WritesOf(before.world, a);
      writes <= |task| && after == Play(Taken(before, Start(a)), CallSteps(meanwhile, clock, task, writes))
  }

  class Project {
    const settings: Settings
    /** What other calls do at each time, and when the process stops for good. */
    const meanwhile: nat -> seq<Step>
    const stops: nat -> bool
    var manual: map<Text, ManualDecision>
    var users: seq<User>
    var applications: seq<Application>
    /** What calls have still to write, and what was written. */
    var tasks: set<seq<Write>>
    var done: seq<Write>
    var clock: nat

    constructor (
      settings: Settings, manual: map<Text, ManualDecision>, users: seq<User>, meanwhile: nat -> seq<Step>, stops: nat -> bool)
      ensures Rows() == Opened(World(settings, manual, users, []))
      ensures this.meanwhile == meanwhile && this.stops == stops
    {
      this.settings, this.manual, this.users, this.applications := settings, manual, users, [];
      this.meanwhile, this.stops, this.tasks, this.done, this.clock := meanwhile, stops, {}, [], 0;
    }

    function Snapshot(): World
      reads this
    {
      World(settings, manual, users, applications)
    }

    function Rows(): Desk
      reads this
    {
      Desk(Snapshot(), tasks, done)
    }

    /** The part of the decision that rests on the author's application. */
    method FindBase(repo: Repo, ghId: int, now: int) returns (b: Base)
      ensures b == LookupBase(Snapshot(), repo, ghId, now)
    {
      var user := UserOf(users, ghId);
      if user == None {
        return if settings.applicationRequired then Final(PendingDecision(NoApplication)) else Allowing(Allowed(false));
      }
      var found := Latest(applications, user.value, if repo.requireOwnApproval then Some(repo.id) else None);
      if found == None {
        return if settings.applicationRequired then Final(PendingDecision(NoApplication)) else Allowing(Allowed(false));
      }
      var app := applications[found.value];
      if app.status == AppStatus.Approved {
        return Allowing(Allowed(false));
      }
      if app.status == Submitted {
        return if settings.applicationRequired then Final(PendingDecision(AwaitingReview)) else Allowing(Allowed(false));
      }
      if !app.allowResubmit {
        return Final(Refused(app.reason, None));
      }
      if Cooling(app, now) {
        return Final(Refused(app.reason, app.cooldownUntil));
      }
      b := Final(PendingDecision(CooldownElapsed));
    }

    method DecideForRepo(repo: Repo, a: Author, now: int, cla: ClaStatus, saved: bool) returns (d: Decision)
      modifies this`manual
      ensures d == Decide(old(Snapshot()), repo, a, now, cla)
      ensures Snapshot() == AfterDecision(old(Snapshot()), repo, a, saved)
    {
      if !repo.active {
        return Ignored;
      }
      if !settings.checkerEnabled {
        return Allowed(true);
      }
      var base: Option<Decision> := None;
      var login := Lower(a.ghLogin);
      var decided := if login in manual then Some(manual[login]) else None;
      if decided.Some? && decided.value.ghId == None && saved {
        manual := manual[login := decided.value.(ghId := Some(a.ghId))];
      }
      if decided.Some? && decided.value.denied {
        return Refused(decided.value.reason, None);
      }
      if Glob.MatchesAnyPattern(a.ghLogin, ParseBypass(settings.bypassHandles)) {
        return BypassedBot;
      }
      if decided.Some? {
        base := Some(Allowed(false));
      }
      if base == None && settings.bypassCollabs && repo.installationId.Some? {
        if HasOwnerAndName(repo.fullName) && a.collaboration == Collaborator {
          base := Some(BypassedCollaborator);
        }
      } else if base == None && settings.bypassCollabs && a.hinted {
        base := Some(BypassedCollaborator);
      }
      if base == None {
        var found := FindBase(repo, a.ghId, now);
        if found.Final? {
          return found.decision;
        }
        base := Some(found.decision);
      }
      if settings.claEnabled && settings.claRequired && !cla.satisfied {
        return CheckRequired(cla.needsResign);
      }
      d := base.value;
    }

    method IsBlocked(userId: nat) returns (blocked: bool)
      ensures blocked == IsManuallyBlocked(Snapshot(), userId)
    {
      if userId >= |users| || users[userId].ghLogin == None || users[userId].ghLogin.value == [] {
        return false;
      }
      var login := Lower(users[userId].ghLogin.value);
      blocked := login in manual && manual[login].denied;
    }

    /** Others take their steps. */
    method Pause()
      modifies this`applications, this`tasks, this`done, this`clock
      ensures Rows() == Play(old(Rows()), meanwhile(old(clock))) && clock == old(clock) + 1
    {
      var others := meanwhile(clock);
      for i := 0 to |others|
        invariant Rows() == Play(old(Rows()), others[..i]) && clock == old(clock)
      {
        PlayOneMore(old(Rows()), others[..i], others[i]);
        assert others[..i + 1] == others[..i] + [others[i]];
        var next := Taken(Rows(), others[i]);
        StepMakes(Rows(), others[i]);
        KeepsTheRest(Rows(), others[i]);
        applications, tasks, done := next.world.applications, next.tasks, next.done;
      }
      assert others[..|others|] == others;
      clock := clock + 1;
    }

    /** The next write of a task, in place; whether it succeeded. */
    method WriteNext(task: seq<Write>) returns (ok: bool)
      requires task in tasks && task != []
      modifies this`applications, this`tasks, this`done
      ensures Rows() == Taken(old(Rows()), Go(task)) && ok == After(old(Snapshot()), task[0]).Some?
    {
      if task[0].Creates? {
        applications := applications + [NewApplication(task[0].userId, task[0].answers)];
      } else {
        var id := task[0].id;
        if id >= |applications| {
          return false;
        }
        var app := applications[id];
        match task[0] {
          case FilesAppeal(_, answers) =>
            if app.appeal.Some? {
              return false;
            }
            app := app.(appeal := Some(Appeal(AppealPending, answers)));
          case Approves(_, reason) =>
            app := app.(status := AppStatus.Approved, allowResubmit := true, cooldownUntil := None);
            if reason.Some? {
              app := app.(reason := reason);
            }
          case Denies(_, reason, allowResubmit, cooldownUntil) =>
            app := app.(status := Denied, allowResubmit := allowResubmit);
            app := app.(cooldownUntil := if allowResubmit then cooldownUntil else None);
            if reason.Some? {
              app := app.(reason := reason);
            }
          case ChecksDenied(_) =>
            if app.status != Denied {
              return false;
            }
          case Reopens(_, cooldownUntil) =>
            app := app.(allowResubmit := true, cooldownUntil := cooldownUntil);
          case SendsBack(_, target, reason, cooldownUntil) =>
            app := app.(reason := reason, allowResubmit := true, cooldownUntil := None);
            app := app.(status := if target == ToSubmitted then Submitted else Denied);
            if target == ToDenied {
              app := app.(cooldownUntil := cooldownUntil);
            }
          case TakesAnswers(_, answers) =>
            app := app.(answers := answers);
          case Closes(_, resolution) =>
            if app.appeal == None {
              return false;
            }
            app := app.(appeal := Some(app.appeal.value.(status := ResolvedStatus(resolution))));
        }
        applications := applications[id := app];
      }
      if |task| > 1 {
        tasks := tasks + {task[1..]};
      }
      done := done + [task[0]];
      ok := true;
    }

    /** The writes of a task in turn, others writing before each; `writes` of them attempted before it stopped or one failed. */
    method Carry(task: seq<Write>) returns (ok: bool, writes: nat)
      requires task in tasks
      modifies this`applications, this`tasks, this`done, this`clock
      ensures writes <= |task| && Rows() == Play(old(Rows()), CallSteps(meanwhile, old(clock), task, writes))
      ensures ok ==> writes == |task|
      ensures !ok ==>
        (writes < |task| && stops(old(clock) + writes)) ||
        (writes > 0 && FailsAt(old(Rows()), meanwhile, old(clock), task, writes))
    {
      assert task[0..] == task;
      writes := 0;
      while writes < |task|
        invariant clock == old(clock) + writes && CarriedSoFar(old(Rows()), meanwhile, old(clock), task, writes, Rows())
      {
        if stops(clock) {
          return false, writes;
        }
        ghost var before := Rows();
        CarryOn(old(Rows()), meanwhile, old(clock), task, writes, before);
        Pause();
        ok := WriteNext(task[writes..]);
        writes := writes + 1;
        if !ok {
          return;
        }
      }
      ok := true;
    }

    /** A call of a reviewer or an applicant: it reads, and if nothing speaks against it makes its writes, others writing in between. */
    method Perform(a: Action) returns (e: Option<Refusal>, writes: nat)
      modifies this`applications, this`tasks, this`done, this`clock
      ensures Performed(meanwhile, old(clock), a, old(Rows()), e, writes, Rows())
    {
      e := Stops(Snapshot(), a);
      if e.Some? {
        return e, 0;
      }
      var task := WritesOf(Snapshot(), a);
      tasks := tasks + {task};
      var ok;
      ok, writes := Carry(task);
    }

    /** The new application's id, or why it is refused; another submission may come between the look and the write. */
    method SubmitApplication(userId: nat, answers: Text, answersValid: bool, now: int) returns (r: Result<nat, SubmitError>)
      modifies this`applications, this`tasks, this`done, this`clock
      ensures Performed(meanwhile, old(clock), Submit(userId, answers, answersValid, now), old(Rows()),
        if r.Failure? then Some(NotSubmitted(r.error)) else None, if r.Failure? then 0 else 1, Rows())
      ensures r.Success? ==> r.value == |applications| - 1 && applications[r.value] == NewApplication(userId, answers)
    {
      if !answersValid {
        return Failure(InvalidAnswers);
      }
      var last := Latest(applications, userId, None);
      var blocked := IsBlocked(userId);
      if blocked {
        return Failure(NotEligible);
      }
      if last.Some? {
        var app := applications[last.value];
        if app.status == Submitted {
          return Failure(AlreadyPending);
        }
        if app.status == AppStatus.Approved {
          return Failure(AlreadyApproved);
        }
        if app.appeal.Some? && app.appeal.value.status == AppealPending {
          return Failure(AppealUnderReview);
        }
        if !app.allowResubmit {
          return Failure(ResubmitDisabled);
        }
        if Cooling(app, now) {
          return Failure(InCooldown(app.cooldownUntil.value));
        }
      }
      var task := [Creates(userId, answers)];
      tasks := tasks + {task};
      ghost var read := Rows();
      OneCarried(read, meanwhile, clock, task);
      Pause();
      var _ := WriteNext(task);
      r := Success(|applications| - 1);
    }
  }

  // ---- carrying out a task ----

  /** The `n`-th write fails on the rows it finds. */
  ghost predicate FailsAt(d: Desk, meanwhile: nat -> seq<Step>, clock: nat, task: seq<Write>, n: nat)
    requires 1 <= n <= |task|
  {
    After(Play(Play(d, CallSteps(meanwhile, clock, task, n - 1)), meanwhile(clock + n - 1)).world, task[n - 1]) == None
  }

  ghost predicate CarriedSoFar(d: Desk, meanwhile: nat -> seq<Step>, clock: nat, task: seq<Write>, n: nat, r: Desk)
  {
    n <= |task| && r == Play(d, CallSteps(meanwhile, clock, task, n)) && (n < |task| ==> task[n..] in r.tasks)
  }

  /** After what others do, the next write takes the call one further. */
  lemma CarryOn(d: Desk, meanwhile: nat -> seq<Step>, clock: nat, task: seq<Write>, n: nat, r: Desk)
    requires CarriedSoFar(d, meanwhile, clock, task, n, r) && n < |task|
    ensures var found := Play(r, meanwhile(clock + n)); var next := Taken(found, Go(task[n..]));
      task[n..] in found.tasks && next == Play(d, CallSteps(meanwhile, clock, task, n + 1)) && task[n..][0] == task[n] &&
      (After(found.world, task[n]).Some? ==> CarriedSoFar(d, meanwhile, clock, task, n + 1, next)) &&
      (After(found.world, task[n]).None? ==> FailsAt(d, meanwhile, clock, task, n + 1))
  {
    CallOneMore(d, meanwhile, clock, task, n);
    PlayOnlyAdds(r, meanwhile(clock + n));
    assert task[n..][1..] == task[n + 1..];
  }

  lemma OneCarried(d: Desk, meanwhile: nat -> seq<Step>, clock: nat, task: seq<Write>)
    requires |task| == 1 && task in d.tasks
    ensures var found := Play(d, meanwhile(clock));
      task in found.tasks && Taken(found, Go(task)) == Play(d, CallSteps(meanwhile, clock, task, 1))
  {
    assert task[0..] == task && CallSteps(meanwhile, clock, task, 0) == [];
    CarryOn(d, meanwhile, clock, task, 0, d);
  }

  /** A step leaves the settings, the manual rows and the users alone. */
  lemma KeepsTheRest(d: Desk, step: Step)
    ensures Taken(d, step).world == d.world.(applications := Taken(d, step).world.applications)
  {
  }
}
